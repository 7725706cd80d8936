/** Dictionary lines with a label, a level or a comment: which of them the loader takes. */
module TokenLabels {
  import opened Options
  import opened Bits
  import opened Tokens

  ghost predicate All(s: Data, p: Byte -> bool) {
    forall i :: 0 <= i < |s| ==> p(s[i])
  }

  /** The number that decimal digits stand for. */
  function Decimal(ds: Data): nat {
    if ds == [] then 0 else 10 * Decimal(ds[..|ds| - 1]) + DigitValue(ds[|ds| - 1])
  }

  function DigitValue(b: Byte): nat {
    if IsDigit(b) then b - 48 else 0
  }

  lemma {:induction false} SkipAll(a: Data, rest: Data, p: Byte -> bool)
    requires All(a, p) && (rest == [] || !p(rest[0]))
    ensures SkipWhile(a + rest, p) == rest
  {
    if a == [] {
      assert a + rest == rest;
    } else {
      SkipAll(a[1..], rest, p);
      assert (a + rest)[1..] == a[1..] + rest;
    }
  }

  lemma {:induction false} DigitsAre(before: Data, ds: Data, rest: Data)
    requires All(ds, IsDigit) && (rest == [] || !IsDigit(rest[0]))
    ensures Digits(ds + rest, Decimal(before)) == Decimal(before + ds)
    decreases |ds|
  {
    if ds == [] {
      assert before + ds == before && ds + rest == rest;
    } else {
      var more := before + [ds[0]];
      DecimalMore(before, ds[0]);
      DigitsAre(more, ds[1..], rest);
      DigitsNext(ds + rest, Decimal(before));
      assert (ds + rest)[1..] == ds[1..] + rest && more + ds[1..] == before + ds;
    }
  }

  lemma DecimalMore(before: Data, b: Byte)
    ensures Decimal(before + [b]) == 10 * Decimal(before) + DigitValue(b)
  {
    assert (before + [b])[..|before|] == before;
  }

  lemma DigitsNext(s: Data, acc: nat)
    requires s != [] && IsDigit(s[0])
    ensures Digits(s, acc) == Digits(s[1..], 10 * acc + DigitValue(s[0]))
  {
  }

  lemma AtoiIs(ds: Data, rest: Data)
    requires ds != [] && All(ds, IsDigit) && (rest == [] || !IsDigit(rest[0]))
    ensures Atoi(ds + rest) == Decimal(ds)
  {
    var s := ds + rest;
    assert s[0] == ds[0] && IsDigit(s[0]);
    assert SkipWhile(s, IsSpace) == s;
    DigitsAre([], ds, rest);
    assert [] + ds == ds;
  }

  /** A label, with the digits of a level if there is one. */
  function Label(name: Data, level: Option<Data>): Data {
    name + (if level.Some? then [AT] + level.value else [])
  }

  ghost predicate Proper(name: Data, level: Option<Data>, gap: Data) {
    && All(name, IsName) && All(gap, IsGap) && (name != [] || level.Some?)
    && (level.Some? ==> level.value != [] && All(level.value, IsDigit))
  }

  /** Is a line with this label left out? A level counts as a 32-bit number. */
  predicate Above(level: Option<Data>, asked: nat) {
    level.Some? && Decimal(level.value) % 0x1_0000_0000 > asked
  }

  lemma LabelSkipped(name: Data, level: Option<Data>, gap: Data, quoted: Data, asked: nat)
    requires Proper(name, level, gap) && quoted != [] && quoted[0] == QUOTE
    ensures AfterLabel(Label(name, level) + gap + quoted, asked) == if Above(level, asked) then None else Some(quoted)
  {
    var s, rest := Label(name, level) + gap + quoted, gap + quoted;
    SkipAll(gap, quoted, IsGap);
    if level.Some? {
      var ds := level.value;
      assert s == name + ([AT] + ds + rest);
      SkipAll(name, [AT] + ds + rest, IsName);
      assert ([AT] + ds + rest)[1..] == ds + rest;
      AtoiIs(ds, rest);
      SkipAll(ds, rest, IsDigit);
    } else {
      assert s == name + rest;
      SkipAll(name, rest, IsName);
    }
  }

  lemma {:induction false} TrimRightEnds(s: Data, tail: Data)
    requires s != [] && !IsSpace(s[|s| - 1]) && All(tail, IsSpace)
    ensures TrimRight(s + tail) == s
  {
    if tail == [] {
      assert s + tail == s;
    } else {
      var n := |tail| - 1;
      TrimRightEnds(s, tail[..n]);
      assert (s + tail)[..|s| + n] == s + tail[..n];
    }
  }

  lemma TrimmedIs(lead: Data, s: Data, tail: Data)
    requires All(lead, IsSpace) && All(tail, IsSpace) && s != [] && !IsSpace(s[0]) && !IsSpace(s[|s| - 1])
    requires forall i :: 0 <= i < |s| ==> s[i] != 0
    ensures Trimmed(lead + s + tail) == s
  {
    var line := lead + s + tail;
    BeforeNulAt(line, |line|);
    assert line[..|line|] == line == lead + (s + tail);
    SkipAll(lead, s + tail, IsSpace);
    TrimRightEnds(s, tail);
  }

  /** A keyword with its label, between white space. */
  function LabelledText(name: Data, level: Option<Data>, gap: Data, text: Data): Data {
    Label(name, level) + gap + [QUOTE] + text + [QUOTE]
  }

  lemma ParseTrimmed(line: Data, s: Data, asked: nat)
    requires Trimmed(line) == s && s != [] && s[0] != HASH && s[|s| - 1] == QUOTE
    ensures var u := AfterLabel(s[..|s| - 1], asked); ParseLine(line, asked) == if u.None? then Skip else ParseQuoted(u.value)
  {
  }

  lemma ParseKeywordText(d: Data)
    requires 0 < |d| <= MAX_DICT_FILE
    ensures ParseQuoted([QUOTE] + EscapeAll(d)) == Keyword(d)
  {
    EscapedPrintable(d);
    UnescapeEscape(d);
    assert ([QUOTE] + EscapeAll(d))[1..] == EscapeAll(d);
  }

  lemma TextShape(name: Data, level: Option<Data>, gap: Data, text: Data)
    requires Proper(name, level, gap) && forall i :: 0 <= i < |text| ==> text[i] != 0
    ensures var s := LabelledText(name, level, gap, text);
            && s != [] && !IsSpace(s[0]) && s[0] != HASH && s[|s| - 1] == QUOTE
            && (forall i :: 0 <= i < |s| ==> s[i] != 0)
            && s[..|s| - 1] == Label(name, level) + gap + ([QUOTE] + text)
  {
    var s := LabelledText(name, level, gap, text);
    FirstOfLabel(name, level, gap, s);
    NoNul(name, level, gap, text);
  }

  /** A line with a label gives its keyword, unless its level is above the one asked for, and is
      then skipped; for every keyword, label, level, gap and white space around. */
  lemma LabelledLine(lead: Data, name: Data, level: Option<Data>, gap: Data, d: Data, tail: Data, asked: nat)
    requires All(lead, IsSpace) && All(tail, IsSpace) && Proper(name, level, gap) && 0 < |d| <= MAX_DICT_FILE
    ensures ParseLine(lead + LabelledText(name, level, gap, EscapeAll(d)) + tail, asked) ==
            if Above(level, asked) then Skip else Keyword(d)
  {
    var s := LabelledText(name, level, gap, EscapeAll(d));
    EscapedPrintable(d);
    TextShape(name, level, gap, EscapeAll(d));
    TrimmedIs(lead, s, tail);
    ParseTrimmed(lead + s + tail, s, asked);
    LabelSkipped(name, level, gap, [QUOTE] + EscapeAll(d), asked);
    ParseKeywordText(d);
  }

  lemma FirstOfLabel(name: Data, level: Option<Data>, gap: Data, s: Data)
    requires Proper(name, level, gap) && Label(name, level) <= s
    ensures s != [] && !IsSpace(s[0]) && s[0] != HASH
  {
    assert Label(name, level)[0] == s[0];
    assert s[0] == if name != [] then name[0] else AT;
  }

  lemma NoNul(name: Data, level: Option<Data>, gap: Data, text: Data)
    requires Proper(name, level, gap) && forall i :: 0 <= i < |text| ==> text[i] != 0
    ensures var s := Label(name, level) + gap + [QUOTE] + text + [QUOTE]; forall i :: 0 <= i < |s| ==> s[i] != 0
  {
    assert forall i :: 0 <= i < |name| ==> IsName(name[i]) && name[i] != 0;
    assert forall i :: 0 <= i < |gap| ==> IsGap(gap[i]) && gap[i] != 0;
    assert level.Some? ==> forall i :: 0 <= i < |level.value| ==> IsDigit(level.value[i]) && level.value[i] != 0;
  }

  lemma {:induction false} TrimRightKeepsFirst(s: Data)
    requires s != [] && !IsSpace(s[0])
    ensures var t := TrimRight(s); t != [] && t[0] == s[0]
  {
    if IsSpace(s[|s| - 1]) {
      TrimRightKeepsFirst(s[..|s| - 1]);
    }
  }

  lemma {:induction false} BeforeNulAfter(a: Data, rest: Data)
    requires forall i :: 0 <= i < |a| ==> a[i] != 0
    ensures BeforeNul(a + rest) == a + BeforeNul(rest)
  {
    if a == [] {
      assert a + rest == rest && [] + BeforeNul(rest) == BeforeNul(rest);
    } else {
      BeforeNulAfter(a[1..], rest);
      assert (a + rest)[1..] == a[1..] + rest && a == [a[0]] + a[1..];
    }
  }

  ghost predicate NoNewline(s: Data) {
    forall i :: 0 <= i < |s| ==> s[i] != NEWLINE
  }

  /** A line read ends with the first newline, or where the buffer is full or the file ends. */
  lemma {:induction false} LineRead(file: Data, most: nat)
    ensures var n := LineLength(file, most);
            || (n > 0 && file[n - 1] == NEWLINE && NoNewline(file[..n - 1]))
            || (NoNewline(file[..n]) && (n == most || n == |file|))
    decreases |file|
  {
    if file != [] && most > 0 && file[0] != NEWLINE {
      LineRead(file[1..], most - 1);
      var m := LineLength(file[1..], most - 1);
      assert file[..m + 1] == [file[0]] + file[1..][..m];
      assert m > 0 ==> file[..m] == [file[0]] + file[1..][..m - 1];
    }
  }

  /** A line whose first character is a hash sign is skipped, whatever follows. */
  lemma CommentIsSkipped(lead: Data, rest: Data, asked: nat)
    requires All(lead, IsSpace)
    ensures ParseLine(lead + ([HASH] + rest), asked) == Skip
  {
    var s := [HASH] + BeforeNul(rest);
    assert forall i :: 0 <= i < |lead| ==> IsSpace(lead[i]) && lead[i] != 0;
    BeforeNulAfter([HASH], rest);
    BeforeNulAfter(lead, [HASH] + rest);
    SkipAll(lead, s, IsSpace);
    TrimRightKeepsFirst(s);
  }
}
