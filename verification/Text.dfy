/** The string operations of the Rust standard library that the model needs. */
module Text {
  function IndexOf(s: string, c: char): (i: nat)
    ensures i <= |s| && c !in s[..i]
    ensures i < |s| ==> s[i] == c
  {
    if s == "" || s[0] == c then 0 else
      var rest := IndexOf(s[1..], c);
      assert s[..rest + 1] == [s[0]] + s[1..][..rest];
      rest + 1
  }

  lemma InSlice(s: string, from: nat, at: nat, upTo: nat)
    ensures from <= at < upTo <= |s| ==> s[at] in s[from..upTo]
  {
    if from <= at < upTo <= |s| {
      assert s[at] == s[from..upTo][at - from];
    }
  }

  lemma IndexOfUnique(s: string, c: char, i: nat)
    requires i <= |s| && c !in s[..i] && (i < |s| ==> s[i] == c)
    ensures IndexOf(s, c) == i
  {
    var k := IndexOf(s, c);
    InSlice(s, 0, k, i);
    InSlice(s, 0, i, k);
  }

  /** `split`: the pieces between separators, always at least one. */
  function Split(s: string, c: char): (pieces: seq<string>)
    ensures pieces != []
    decreases |s|
  {
    var i := IndexOf(s, c);
    if i == |s| then [s] else [s[..i]] + Split(s[i + 1..], c)
  }

  function Join(pieces: seq<string>, separator: string): string {
    if pieces == [] then "" else
    if |pieces| == 1 then pieces[0] else pieces[0] + separator + Join(pieces[1..], separator)
  }

  lemma JoinHasSeparator(pieces: seq<string>, c: char)
    ensures |pieces| > 1 ==> c in Join(pieces, [c])
  {
    if |pieces| > 1 {
      assert Join(pieces, [c])[|pieces[0]|] == c;
    }
  }

  /** `split` is the only way to cut a string at every separator. */
  lemma {:induction false} SplitIsInverseOfJoin(s: string, c: char, pieces: seq<string>)
    ensures pieces == Split(s, c)
       <==> pieces != [] && Join(pieces, [c]) == s && forall p :: p in pieces ==> c !in p
    decreases |s|
  {
    var i := IndexOf(s, c);
    if i == |s| {
      JoinHasSeparator(pieces, c);
      if |pieces| == 1 { assert pieces == [pieces[0]]; }
    } else {
      var rest := s[i + 1..];
      SplitIsInverseOfJoin(rest, c, Split(rest, c));
      assert s == s[..i] + [c] + rest;
      assert Split(s, c)[1..] == Split(rest, c);
      if pieces != [] && Join(pieces, [c]) == s && forall p :: p in pieces ==> c !in p {
        assert c in s;
        var k := |pieces[0]|;
        assert s[..k] == pieces[0] && s[k] == c;
        IndexOfUnique(s, c, k);
        assert rest == Join(pieces[1..], [c]);
        SplitIsInverseOfJoin(rest, c, pieces[1..]);
        assert pieces == [pieces[0]] + pieces[1..];
      }
    }
  }

  predicate StartsWith(s: string, prefix: string) {
    |prefix| <= |s| && s[..|prefix|] == prefix
  }

  function Digit(d: nat): char
    requires d < 10
  {
    "0123456789"[d]
  }

  predicate IsDigit(c: char) {
    '0' <= c <= '9'
  }

  /** Decimal rendering of an unsigned integer. */
  function Decimal(n: nat): (s: string)
    ensures s != "" && forall c :: c in s ==> IsDigit(c)
  {
    if n < 10 then [Digit(n)] else Decimal(n / 10) + [Digit(n % 10)]
  }

  lemma {:induction false} DecimalInjective(m: nat, n: nat)
    requires Decimal(m) == Decimal(n)
    ensures m == n
    decreases m
  {
    var s := Decimal(m);
    assert s[|s| - 1] == Digit(m % 10) == Digit(n % 10);
    assert m % 10 == n % 10;
    if m >= 10 && n >= 10 {
      assert Decimal(m / 10) == s[..|s| - 1] == Decimal(n / 10);
      DecimalInjective(m / 10, n / 10);
    }
    assert m >= 10 ==> |s| > 1;
    assert n >= 10 ==> |s| > 1;
  }

  /** The number that a string of decimal digits stands for. */
  function Value(digits: string): int {
    if digits == "" then 0
    else 10 * Value(digits[..|digits| - 1]) + (digits[|digits| - 1] as int - '0' as int)
  }

  /** The rendering is the number's own, without leading zeros. */
  lemma {:induction false} DecimalEvaluates(n: nat)
    ensures Value(Decimal(n)) == n && (n > 0 ==> Decimal(n)[0] != '0')
  {
    if n >= 10 {
      DecimalEvaluates(n / 10);
      assert Decimal(n)[..|Decimal(n)| - 1] == Decimal(n / 10);
    } else {
      assert [Digit(n)][..0] == "";
    }
  }

  /** The White_Space property of the Unicode Character Database, used by `trim`. */
  predicate IsWhitespace(c: char) {
    var u := c as int;
    || 0x09 <= u <= 0x0D || u == 0x20 || u == 0x85 || u == 0xA0 || u == 0x1680
    || 0x2000 <= u <= 0x200A || u == 0x2028 || u == 0x2029 || u == 0x202F || u == 0x205F || u == 0x3000
  }

  /** The same set by enumeration. */
  lemma WhitespaceSet(c: char)
    ensures IsWhitespace(c) <==> c as int in {
      0x09, 0x0A, 0x0B, 0x0C, 0x0D, 0x20, 0x85, 0xA0, 0x1680, 0x2000, 0x2001, 0x2002, 0x2003, 0x2004, 0x2005, 0x2006, 0x2007,
      0x2008, 0x2009, 0x200A, 0x2028, 0x2029, 0x202F, 0x205F, 0x3000}
  {
  }

  function Trim(s: string): string
    decreases |s|
  {
    if s == "" then "" else
    if IsWhitespace(s[0]) then Trim(s[1..]) else
    if IsWhitespace(s[|s| - 1]) then Trim(s[..|s| - 1]) else s
  }

  predicate IsTrimmed(s: string) {
    s != "" ==> !IsWhitespace(s[0]) && !IsWhitespace(s[|s| - 1])
  }

  function StripReturn(s: string): string {
    if s != "" && s[|s| - 1] == '\r' then s[..|s| - 1] else s
  }

  /** `lines`: terminators are `\n` or `\r\n`, and the last one is optional. */
  function Lines(s: string): seq<string>
    decreases |s|
  {
    if s == "" then [] else
      var i := IndexOf(s, '\n');
      if i == |s| then [s] else [StripReturn(s[..i])] + Lines(s[i + 1..])
  }

  /** Trimming takes white space off both ends and nothing else. */
  lemma {:induction false} TrimTakesEnds(s: string) returns (before: string, after: string)
    ensures s == before + Trim(s) + after && IsTrimmed(Trim(s))
    ensures forall c :: c in before || c in after ==> IsWhitespace(c)
    decreases |s|
  {
    before, after := "", "";
    if s == "" {
    } else if IsWhitespace(s[0]) {
      assert s == [s[0]] + s[1..];
      before, after := TrimTakesEnds(s[1..]);
      before := [s[0]] + before;
    } else if IsWhitespace(s[|s| - 1]) {
      assert s == s[..|s| - 1] + [s[|s| - 1]];
      before, after := TrimTakesEnds(s[..|s| - 1]);
      after := after + [s[|s| - 1]];
    }
  }

  /** A line ends at `\n` and does not keep it. */
  lemma LineEnds(line: string, rest: string)
    requires '\n' !in line && (line == "" || line[|line| - 1] != '\r')
    ensures Lines(line + "\n" + rest) == [line] + Lines(rest)
  {
    FirstLine(line, rest);
  }

  /** A carriage return before it goes too. */
  lemma ReturnEnds(line: string, rest: string)
    requires '\n' !in line
    ensures Lines(line + "\r" + "\n" + rest) == [line] + Lines(rest)
  {
    FirstLine(line + "\r", rest);
    StripsReturn(line);
  }

  lemma StripsReturn(line: string)
    ensures StripReturn(line + "\r") == line
  {
  }

  /** The last line needs no terminator. */
  lemma LastLine(line: string)
    requires '\n' !in line && line != ""
    ensures Lines(line) == [line]
  {
    IndexOfUnique(line, '\n', |line|);
  }

  lemma FirstLine(line: string, rest: string)
    requires '\n' !in line
    ensures Lines(line + "\n" + rest) == [StripReturn(line)] + Lines(rest)
  {
    var s := line + "\n" + rest;
    assert s[..|line|] == line && s[|line|] == '\n' && s[|line| + 1..] == rest;
    IndexOfUnique(s, '\n', |line|);
  }
}
