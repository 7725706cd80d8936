/** Constants that several of the fuzzer's stages share. */
module Config {

  const ARITH_MAX := 35

  const INTERESTING_8: seq<int> := [-128, -1, 0, 1, 16, 32, 64, 100, 127]
  const INTERESTING_16: seq<int> := INTERESTING_8 + [-32768, -129, 128, 255, 256, 512, 1000, 1024, 4096, 32767]
  const INTERESTING_32: seq<int> :=
    INTERESTING_16 + [-2147483648, -100663046, -32769, 32768, 65535, 65536, 100663045, 2147483647]
}
