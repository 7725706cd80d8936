/** Dictionary tokens: how the capture library prints them and how the fuzzer loads them. */
module Tokens {
  import opened Options
  import opened Bits

  const MIN_AUTO_EXTRA := 3
  const MAX_AUTO_EXTRA := 32
  const MAX_DICT_FILE := 128
  const MAX_LINE := 8192

  const NEWLINE: Byte := 10
  const QUOTE: Byte := 34
  const HASH: Byte := 35
  const EQUALS: Byte := 61
  const AT: Byte := 64
  const BACKSLASH: Byte := 92
  const UNDERSCORE: Byte := 95
  const LETTER_X: Byte := 120

  datatype Error = NoClosingQuote | NoOpeningQuote | EmptyKeyword | NonPrintable | BadEscape | TooBig

  datatype Result<T> = Ok(value: T) | Fatal(error: Error, line: nat)

  // ----- Printing -----

  predicate Special(b: Byte) {
    b <= 31 || b >= 127 || b == QUOTE || b == BACKSLASH
  }

  function HexDigit(n: nat): Byte
    requires n < 16
  {
    if n < 10 then 48 + n else 87 + n
  }

  function Escape(b: Byte): Data {
    if Special(b) then [BACKSLASH, LETTER_X, HexDigit(b / 16), HexDigit(b % 16)] else [b]
  }

  function EscapeAll(t: Data): Data {
    if t == [] then [] else EscapeAll(t[..|t| - 1]) + Escape(t[|t| - 1])
  }

  /** A comparison that the target made: its operand, and whether it is a C string. */
  datatype Token = Token(bytes: Data, isText: bool)

  function BeforeNul(t: Data): Data {
    if t == [] || t[0] == 0 then [] else [t[0]] + BeforeNul(t[1..])
  }

  /** The bytes that count: a text ends before its first NUL. */
  function Captured(t: Token): Data {
    if t.isText then BeforeNul(t.bytes) else t.bytes
  }

  predicate Allowed(t: Token) {
    MIN_AUTO_EXTRA <= |t.bytes| <= MAX_AUTO_EXTRA
  }

  function Line(data: Data): Data {
    [QUOTE] + EscapeAll(data) + [QUOTE, NEWLINE]
  }

  function Dumped(t: Token): Data {
    if Allowed(t) then Line(Captured(t)) else []
  }

  function DumpedAll(ts: seq<Token>): Data {
    if ts == [] then [] else Dumped(ts[0]) + DumpedAll(ts[1..])
  }

  lemma {:induction false} BeforeNulAt(t: Data, n: nat)
    requires n <= |t| && (forall i :: 0 <= i < n ==> t[i] != 0) && (n == |t| || t[n] == 0)
    ensures BeforeNul(t) == t[..n]
  {
    if n > 0 {
      BeforeNulAt(t[1..], n - 1);
      assert t[..n] == [t[0]] + t[1..][..n - 1];
    }
  }

  method WriteEscaped(buf: array<Byte>, pos: nat, b: Byte) returns (next: nat)
    requires pos + 4 <= buf.Length
    modifies buf
    ensures pos <= next <= pos + 4 && buf[..next] == old(buf[..pos]) + Escape(b)
  {
    if Special(b) {
      buf[pos], buf[pos + 1], buf[pos + 2], buf[pos + 3] := BACKSLASH, LETTER_X, HexDigit(b / 16), HexDigit(b % 16);
      next := pos + 4;
    } else {
      buf[pos] := b;
      next := pos + 1;
    }
  }

  /** The printer's loop. The escape buffer never overflows. */
  method DumpToken(t: Token) returns (out: Data)
    ensures out == Dumped(t)
  {
    var ptr, len := t.bytes, |t.bytes|;
    if len < MIN_AUTO_EXTRA || len > MAX_AUTO_EXTRA {
      return [];
    }
    var buf := new Byte[MAX_AUTO_EXTRA * 4 + 1];
    var pos, i := 0, 0;
    while i < len
      invariant 0 <= i <= len && 0 <= pos <= 4 * i
      invariant buf[..pos] == EscapeAll(ptr[..i])
      invariant t.isText ==> forall k :: 0 <= k < i ==> ptr[k] != 0
    {
      if t.isText && ptr[i] == 0 {
        break;
      }
      assert ptr[..i + 1][..i] == ptr[..i];
      pos := WriteEscaped(buf, pos, ptr[i]);
      i := i + 1;
    }
    if t.isText {
      BeforeNulAt(ptr, i);
    } else {
      assert ptr[..i] == ptr;
    }
    buf[pos] := 0;
    out := [QUOTE] + buf[..pos] + [QUOTE, NEWLINE];
  }

  // ----- Character classes of the C locale -----

  predicate IsSpace(b: Byte) { b == 32 || 9 <= b <= 13 }
  predicate IsDigit(b: Byte) { 48 <= b <= 57 }
  predicate IsAlpha(b: Byte) { 65 <= b <= 90 || 97 <= b <= 122 }
  predicate IsHex(b: Byte) { IsDigit(b) || 65 <= b <= 70 || 97 <= b <= 102 }
  predicate IsName(b: Byte) { IsAlpha(b) || IsDigit(b) || b == UNDERSCORE }
  predicate IsGap(b: Byte) { IsSpace(b) || b == EQUALS }

  function HexValue(b: Byte): (r: nat)
    requires IsHex(b)
    ensures r < 16
  {
    if IsDigit(b) then b - 48 else if b >= 97 then b - 87 else b - 55
  }

  // ----- Parsing a line -----

  function SkipWhile(s: Data, p: Byte -> bool): Data {
    if s != [] && p(s[0]) then SkipWhile(s[1..], p) else s
  }

  function TrimRight(s: Data): Data {
    if s != [] && IsSpace(s[|s| - 1]) then TrimRight(s[..|s| - 1]) else s
  }

  function Digits(s: Data, acc: nat): nat {
    if s != [] && IsDigit(s[0]) then Digits(s[1..], 10 * acc + (s[0] - 48)) else acc
  }

  /** The number at the start of a string, after white space and a sign. */
  function Atoi(s: Data): int {
    var u := SkipWhile(s, IsSpace);
    if u != [] && u[0] == 45 then 0 - Digits(u[1..], 0)
    else if u != [] && u[0] == 43 then Digits(u[1..], 0)
    else Digits(u, 0)
  }

  datatype Parsed = Skip | Keyword(data: Data) | Bad(error: Error)

  /** The bytes between the quotes, with escapes undone. */
  function Unescape(s: Data): Parsed {
    if s == [] then Keyword([])
    else if s[0] <= 31 || s[0] >= 128 then Bad(NonPrintable)
    else if s[0] != BACKSLASH then Prepend(s[0], Unescape(s[1..]))
    else if |s| > 1 && (s[1] == BACKSLASH || s[1] == QUOTE) then Prepend(s[1], Unescape(s[2..]))
    else if |s| < 4 || s[1] != LETTER_X || !IsHex(s[2]) || !IsHex(s[3]) then Bad(BadEscape)
    else Prepend(16 * HexValue(s[2]) + HexValue(s[3]), Unescape(s[4..]))
  }

  function Prepend(b: Byte, p: Parsed): Parsed {
    if p.Keyword? then Keyword([b] + p.data) else p
  }

  /** The text after the label, the level and the equals sign; nothing if the level is above
      the one asked for. */
  function AfterLabel(s: Data, level: nat): Option<Data> {
    var u := SkipWhile(s, IsName);
    if u != [] && u[0] == AT then
      if Atoi(u[1..]) % 0x1_0000_0000 > level then None
      else Some(SkipWhile(SkipWhile(u[1..], IsDigit), IsGap))
    else Some(SkipWhile(u, IsGap))
  }

  /** A line as a C string, trimmed on both sides. */
  function Trimmed(line: Data): Data {
    TrimRight(SkipWhile(BeforeNul(line), IsSpace))
  }

  function ParseLine(line: Data, level: nat): Parsed {
    var s := Trimmed(line);
    if s == [] || s[0] == HASH then Skip
    else if s[|s| - 1] != QUOTE then Bad(NoClosingQuote)
    else
      match AfterLabel(s[..|s| - 1], level)
      case None => Skip
      case Some(u) => ParseQuoted(u)
  }

  function ParseQuoted(u: Data): Parsed {
    if u == [] || u[0] != QUOTE then Bad(NoOpeningQuote)
    else if |u| == 1 then Bad(EmptyKeyword)
    else
      var k := Unescape(u[1..]);
      if k.Keyword? && |k.data| > MAX_DICT_FILE then Bad(TooBig) else k
  }

  // ----- Loading a file -----

  /** How many bytes the next read of a line takes. */
  function LineLength(file: Data, most: nat): (n: nat)
    ensures n <= |file| && n <= most && (file != [] && most > 0 ==> n > 0)
  {
    if file == [] || most == 0 then 0
    else if file[0] == NEWLINE then 1
    else 1 + LineLength(file[1..], most - 1)
  }

  /** Loads the lines of a file; `read` lines came before, with the keywords in `found`. */
  function Loaded(file: Data, level: nat, read: nat, found: seq<Data>): Result<seq<Data>>
    decreases |file|
  {
    if file == [] then Ok(found)
    else
      var n := LineLength(file, MAX_LINE - 1);
      match ParseLine(file[..n], level)
      case Skip => Loaded(file[n..], level, read + 1, found)
      case Keyword(k) => Loaded(file[n..], level, read + 1, found + [k])
      case Bad(e) => Fatal(e, read + 1)
  }

  // ----- The loader's loops -----

  method SkipChars(s: Data, i: nat, p: Byte -> bool) returns (j: nat)
    requires i <= |s|
    ensures i <= j <= |s| && s[j..] == SkipWhile(s[i..], p)
  {
    j := i;
    while j < |s| && p(s[j])
      invariant i <= j <= |s| && SkipWhile(s[j..], p) == SkipWhile(s[i..], p)
    {
      assert s[j..][1..] == s[j + 1..];
      j := j + 1;
    }
  }

  method EndOfString(s: Data) returns (n: nat)
    ensures n <= |s| && s[..n] == BeforeNul(s)
  {
    n := 0;
    while n < |s| && s[n] != 0
      invariant n <= |s| && forall i :: 0 <= i < n ==> s[i] != 0
    {
      n := n + 1;
    }
    BeforeNulAt(s, n);
  }

  method TrimEnd(text: Data) returns (s: Data)
    ensures s == TrimRight(text)
  {
    var r := |text|;
    assert text[..r] == text;
    while r > 0 && IsSpace(text[r - 1])
      invariant 0 <= r <= |text| && TrimRight(text[..r]) == TrimRight(text)
    {
      assert text[..r][..r - 1] == text[..r - 1];
      r := r - 1;
    }
    s := text[..r];
  }

  method TrimLine(line: Data) returns (s: Data)
    ensures s == Trimmed(line)
  {
    var n := EndOfString(line);
    var text := line[..n];
    var l := SkipChars(text, 0, IsSpace);
    assert text[0..] == text;
    s := TrimEnd(text[l..]);
  }

  method UnescapeLoop(s: Data) returns (p: Parsed)
    ensures p == Unescape(s)
  {
    var i := 0;
    var out: Data := [];
    while i < |s|
      invariant 0 <= i <= |s|
      invariant Unescape(s) == PrependAll(out, Unescape(s[i..]))
    {
      ghost var rest := s[i..];
      if s[i] <= 31 || s[i] >= 128 {
        return Bad(NonPrintable);
      }
      var b, step := s[i], 1;
      if s[i] == BACKSLASH {
        if i + 1 < |s| && (s[i + 1] == BACKSLASH || s[i + 1] == QUOTE) {
          b, step := s[i + 1], 2;
        } else if i + 3 >= |s| || s[i + 1] != LETTER_X || !IsHex(s[i + 2]) || !IsHex(s[i + 3]) {
          return Bad(BadEscape);
        } else {
          b, step := 16 * HexValue(s[i + 2]) + HexValue(s[i + 3]), 4;
        }
      }
      assert rest[step..] == s[i + step..];
      assert Unescape(rest) == Prepend(b, Unescape(s[i + step..]));
      PrependOneMore(out, b, Unescape(s[i + step..]));
      out, i := out + [b], i + step;
    }
    assert out + [] == out;
    return Keyword(out);
  }

  function PrependAll(out: Data, p: Parsed): Parsed {
    if p.Keyword? then Keyword(out + p.data) else p
  }

  lemma PrependOneMore(out: Data, b: Byte, p: Parsed)
    ensures PrependAll(out, Prepend(b, p)) == PrependAll(out + [b], p)
  {
    if p.Keyword? {
      assert out + ([b] + p.data) == out + [b] + p.data;
    }
  }

  method ParseOneLine(line: Data, level: nat) returns (p: Parsed)
    ensures p == ParseLine(line, level)
  {
    var s := TrimLine(line);
    if s == [] || s[0] == HASH {
      return Skip;
    }
    if s[|s| - 1] != QUOTE {
      return Bad(NoClosingQuote);
    }
    var text := s[..|s| - 1];
    var after := SkipLabel(text, level);
    if after.None? {
      return Skip;
    }
    p := ParseKeyword(after.value);
  }

  method SkipLabel(text: Data, level: nat) returns (r: Option<Data>)
    ensures r == AfterLabel(text, level)
  {
    assert text[0..] == text;
    var l := SkipChars(text, 0, IsName);
    if l < |text| && text[l] == AT {
      l := l + 1;
      if Atoi(text[l..]) % 0x1_0000_0000 > level {
        return None;
      }
      l := SkipChars(text, l, IsDigit);
    }
    l := SkipChars(text, l, IsGap);
    return Some(text[l..]);
  }

  method ParseKeyword(u: Data) returns (p: Parsed)
    ensures p == ParseQuoted(u)
  {
    if u == [] || u[0] != QUOTE {
      return Bad(NoOpeningQuote);
    }
    if |u| == 1 {
      return Bad(EmptyKeyword);
    }
    p := UnescapeLoop(u[1..]);
    if p.Keyword? && |p.data| > MAX_DICT_FILE {
      return Bad(TooBig);
    }
  }

  method ReadLine(file: Data, at: nat) returns (n: nat)
    requires at < |file|
    ensures n == LineLength(file[at..], MAX_LINE - 1)
  {
    n := 0;
    while at + n < |file| && n < MAX_LINE - 1
      invariant 0 <= n <= MAX_LINE - 1 && at + n <= |file|
      invariant LineLength(file[at..], MAX_LINE - 1) == n + LineLength(file[at + n..], MAX_LINE - 1 - n)
    {
      assert file[at + n..][1..] == file[at + n + 1..];
      if file[at + n] == NEWLINE {
        return n + 1;
      }
      n := n + 1;
    }
  }

  lemma LoadNext(file: Data, at: nat, n: nat, level: nat, read: nat, found: seq<Data>)
    requires at < |file| && n == LineLength(file[at..], MAX_LINE - 1)
    ensures at + n <= |file|
    ensures var p, loaded := ParseLine(file[at..at + n], level), Loaded(file[at..], level, read, found);
            && (p.Skip? ==> loaded == Loaded(file[at + n..], level, read + 1, found))
            && (p.Keyword? ==> loaded == Loaded(file[at + n..], level, read + 1, found + [p.data]))
            && (p.Bad? ==> loaded == Fatal(p.error, read + 1))
  {
    var rest := file[at..];
    assert rest[..n] == file[at..at + n] && rest[n..] == file[at + n..];
  }

  method LoadExtrasFile(file: Data, level: nat) returns (r: Result<seq<Data>>)
    ensures r == Loaded(file, level, 0, [])
  {
    r := LoadFrom(file, level, 0, []);
  }

  /** What is left to load gives the result. */
  ghost predicate LeadsTo(file: Data, at: nat, level: nat, line: nat, extras: seq<Data>, result: Result<seq<Data>>) {
    at <= |file| && Loaded(file[at..], level, line, extras) == result
  }

  method NextLine(file: Data, at: nat, level: nat, line: nat, extras: seq<Data>, ghost result: Result<seq<Data>>)
    returns (p: Parsed, next: nat)
    requires LeadsTo(file, at, level, line, extras, result) && at < |file|
    ensures at < next
    ensures p.Skip? ==> LeadsTo(file, next, level, line + 1, extras, result)
    ensures p.Keyword? ==> LeadsTo(file, next, level, line + 1, extras + [p.data], result)
    ensures p.Bad? ==> result == Fatal(p.error, line + 1)
  {
    var n := ReadLine(file, at);
    LoadNext(file, at, n, level, line, extras);
    p := ParseOneLine(file[at..at + n], level);
    next := at + n;
  }

  method LoadFrom(file: Data, level: nat, line0: nat, extras0: seq<Data>) returns (r: Result<seq<Data>>)
    ensures r == Loaded(file, level, line0, extras0)
  {
    ghost var result := Loaded(file, level, line0, extras0);
    var at, line, extras := 0, line0, extras0;
    assert file[0..] == file;
    while at < |file|
      invariant 0 <= at && line0 <= line && LeadsTo(file, at, level, line, extras, result)
      decreases |file| - at
    {
      var p;
      p, at := NextLine(file, at, level, line, extras, result);
      line := line + 1;
      if p.Bad? {
        return Fatal(p.error, line);
      }
      if p.Keyword? {
        extras := extras + [p.data];
      }
    }
    return Ok(extras);
  }

  // ----- The round trip -----

  lemma {:induction false} EscapeFirst(b: Byte, t: Data)
    ensures EscapeAll([b] + t) == Escape(b) + EscapeAll(t)
  {
    var n := |t|;
    var all := [b] + t;
    if n == 0 {
      assert all == [b] && all[..0] == [];
    } else {
      var init := t[..n - 1];
      EscapeFirst(b, init);
      assert all[..n] == [b] + init && all[n] == t[n - 1];
    }
  }

  lemma UnescapeOne(b: Byte, rest: Data)
    ensures Unescape(Escape(b) + rest) == Prepend(b, Unescape(rest))
  {
    if Special(b) {
      HexRoundTrip(b / 16);
      HexRoundTrip(b % 16);
      UnescapeHex(HexDigit(b / 16), HexDigit(b % 16), rest);
    } else {
      assert ([b] + rest)[1..] == rest;
    }
  }

  lemma UnescapeHex(high: Byte, low: Byte, rest: Data)
    requires IsHex(high) && IsHex(low)
    ensures Unescape([BACKSLASH, LETTER_X, high, low] + rest) == Prepend(16 * HexValue(high) + HexValue(low), Unescape(rest))
  {
    var s := [BACKSLASH, LETTER_X, high, low] + rest;
    assert s[0] == BACKSLASH && s[1] == LETTER_X && s[2] == high && s[3] == low && s[4..] == rest;
  }

  lemma HexRoundTrip(n: nat)
    requires n < 16
    ensures IsHex(HexDigit(n)) && HexValue(HexDigit(n)) == n
  {
  }

  /** Undoing the escapes gives back every string of bytes. */
  lemma {:induction false} UnescapeEscape(t: Data)
    ensures Unescape(EscapeAll(t)) == Keyword(t)
  {
    if t != [] {
      assert t == [t[0]] + t[1..];
      EscapeFirst(t[0], t[1..]);
      UnescapeEscape(t[1..]);
      UnescapeOne(t[0], EscapeAll(t[1..]));
    }
  }

  /** What is printed between the quotes is printable, and no shorter than the token. */
  lemma {:induction false} EscapedPrintable(t: Data)
    ensures |t| <= |EscapeAll(t)| <= 4 * |t|
    ensures forall i :: 0 <= i < |EscapeAll(t)| ==> 32 <= EscapeAll(t)[i] <= 126
  {
    if t != [] {
      EscapedPrintable(t[..|t| - 1]);
    }
  }

  /** It holds no quote itself. */
  lemma {:induction false} EscapedQuotes(t: Data)
    ensures QUOTE !in EscapeAll(t)
  {
    if t != [] {
      EscapedQuotes(t[..|t| - 1]);
      assert QUOTE !in Escape(t[|t| - 1]);
    }
  }

  lemma {:induction false} LineLengthAt(file: Data, most: nat, n: nat)
    requires 0 < n <= |file| && n <= most && file[n - 1] == NEWLINE && forall i :: 0 <= i < n - 1 ==> file[i] != NEWLINE
    ensures LineLength(file, most) == n
    decreases n
  {
    if n > 1 {
      LineLengthAt(file[1..], most - 1, n - 1);
    }
  }

  lemma TrimmedLine(d: Data)
    ensures Trimmed(Line(d)) == [QUOTE] + EscapeAll(d) + [QUOTE]
  {
    var line, s := Line(d), [QUOTE] + EscapeAll(d) + [QUOTE];
    EscapedPrintable(d);
    BeforeNulAt(line, |line|);
    assert line[..|line|] == line;
    assert SkipWhile(line, IsSpace) == line;
    assert line[..|line| - 1] == s && IsSpace(line[|line| - 1]);
    assert TrimRight(s) == s;
  }

  lemma ParsedLine(d: Data, level: nat)
    requires |d| <= MAX_DICT_FILE
    ensures ParseLine(Line(d), level) == if d == [] then Bad(EmptyKeyword) else Keyword(d)
  {
    var s := Trimmed(Line(d));
    TrimmedLine(d);
    EscapedPrintable(d);
    UnescapeEscape(d);
    var u := s[..|s| - 1];
    assert u == [QUOTE] + EscapeAll(d);
    assert u[1..] == EscapeAll(d);
  }

  /** A printed line is one line to the loader. */
  lemma LoadedLine(d: Data, rest: Data, level: nat, read: nat, found: seq<Data>)
    requires |d| <= MAX_DICT_FILE
    ensures Loaded(Line(d) + rest, level, read, found) ==
            if d == [] then Fatal(EmptyKeyword, read + 1) else Loaded(rest, level, read + 1, found + [d])
  {
    var line, file := Line(d), Line(d) + rest;
    EscapedPrintable(d);
    LineLengthAt(file, MAX_LINE - 1, |line|);
    assert file[..|line|] == line && file[|line|..] == rest;
    ParsedLine(d, level);
  }

  lemma {:induction false} BeforeNulShorter(t: Data)
    ensures |BeforeNul(t)| <= |t|
  {
    if t != [] {
      BeforeNulShorter(t[1..]);
    }
  }

  /** The captured bytes of the tokens that are printed, in order. */
  function Kept(ts: seq<Token>): seq<Data> {
    if ts == [] then []
    else if Allowed(ts[0]) then [Captured(ts[0])] + Kept(ts[1..])
    else Kept(ts[1..])
  }

  /** What loading a list of tokens gives: all of them, or the line of the first empty one. */
  function UpToEmpty(ks: seq<Data>, read: nat, found: seq<Data>): Result<seq<Data>> {
    if ks == [] then Ok(found)
    else if ks[0] == [] then Fatal(EmptyKeyword, read + 1)
    else UpToEmpty(ks[1..], read + 1, found + [ks[0]])
  }

  /** Loading the printed lines gives back the captured tokens, up to the first empty one, at
      which the loader gives up. */
  lemma {:induction false} LoadDumped(ts: seq<Token>, level: nat, read: nat, found: seq<Data>)
    ensures Loaded(DumpedAll(ts), level, read, found) == UpToEmpty(Kept(ts), read, found)
  {
    if ts != [] {
      var rest, d := ts[1..], Captured(ts[0]);
      if Allowed(ts[0]) {
        BeforeNulShorter(ts[0].bytes);
        LoadedLine(d, DumpedAll(rest), level, read, found);
        assert ([d] + Kept(rest))[1..] == Kept(rest);
        LoadDumped(rest, level, read + 1, found + [d]);
      } else {
        LoadDumped(rest, level, read, found);
        assert [] + DumpedAll(rest) == DumpedAll(rest);
      }
    }
  }

  lemma {:induction false} UpToEmptyMeans(ks: seq<Data>, read: nat, found: seq<Data>)
    ensures UpToEmpty(ks, read, found) == Ok(found + ks) || UpToEmpty(ks, read, found).Fatal?
    ensures UpToEmpty(ks, read, found).Fatal? <==> [] in ks
  {
    if ks == [] {
      assert found + ks == found;
    } else {
      UpToEmptyMeans(ks[1..], read + 1, found + [ks[0]]);
      assert ks == [ks[0]] + ks[1..];
      assert found + [ks[0]] + ks[1..] == found + ks;
    }
  }

  /** The round trip, for every list of tokens: the fuzzer loads exactly the captured tokens,
      in order and with any bytes in them, if and only if no captured text is empty. A text
      is captured empty when its first byte is NUL. */
  lemma RoundTrip(ts: seq<Token>, level: nat)
    ensures Loaded(DumpedAll(ts), level, 0, []) == Ok(Kept(ts)) <==>
            forall i :: 0 <= i < |ts| && Allowed(ts[i]) && ts[i].isText ==> ts[i].bytes[0] != 0
  {
    LoadDumped(ts, level, 0, []);
    UpToEmptyMeans(Kept(ts), 0, []);
    KeptEmptyIff(ts);
    assert [] + Kept(ts) == Kept(ts);
  }

  lemma {:induction false} KeptEmptyIff(ts: seq<Token>)
    ensures [] in Kept(ts) <==> exists i :: 0 <= i < |ts| && Allowed(ts[i]) && ts[i].isText && ts[i].bytes[0] == 0
  {
    if ts != [] {
      KeptEmptyIff(ts[1..]);
      var rest, t := ts[1..], ts[0];
      forall i | 0 <= i < |rest| ensures rest[i] == ts[i + 1] {
      }
      if Allowed(t) {
        assert Captured(t) == [] <==> t.isText && t.bytes[0] == 0;
        assert Kept(ts) == [Captured(t)] + Kept(rest);
      }
    }
  }

  /** Such a text stops the loader: it is printed as an empty keyword. */
  lemma NulTextIsFatal(t: Token, level: nat)
    requires Allowed(t) && t.isText && t.bytes[0] == 0
    ensures Loaded(DumpedAll([t]), level, 0, []) == Fatal(EmptyKeyword, 1)
  {
    LoadDumped([t], level, 0, []);
    assert Kept([t]) == [[]];
  }

  lemma NulTextExample(level: nat)
    ensures var t := Token([0, 65, 66], true); Allowed(t) && Loaded(DumpedAll([t]), level, 0, []) == Fatal(EmptyKeyword, 1)
  {
    NulTextIsFatal(Token([0, 65, 66], true), level);
  }
}
