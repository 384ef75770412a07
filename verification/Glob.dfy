/**
 Shell-style matching of one known-hosts pattern (src/core/host_key.rs, glob_match).

 The meaning of a pattern is declarative: the candidate splits into one piece
 per pattern character and every piece fits its character.  The table
 algorithm is proved against that meaning.
 */
module Glob {

  /** Which pieces of a candidate one pattern character may stand for. */
  predicate Fits(c: char, piece: string) {
    c == '*' || (|piece| == 1 && (c == '?' || c == piece[0]))
  }

  ghost function Flatten(pieces: seq<string>): string {
    if pieces == [] then "" else Flatten(pieces[..|pieces| - 1]) + pieces[|pieces| - 1]
  }

  ghost predicate Explains(pattern: string, candidate: string, pieces: seq<string>) {
    && |pieces| == |pattern|
    && Flatten(pieces) == candidate
    && forall i :: 0 <= i < |pieces| ==> Fits(pattern[i], pieces[i])
  }

  ghost predicate Matches(pattern: string, candidate: string) {
    exists pieces :: Explains(pattern, candidate, pieces)
  }

  /** The same relation peeled from the right, which is the order of the table. */
  ghost predicate Peels(pattern: string, candidate: string)
    decreases |pattern|
  {
    if pattern == "" then candidate == "" else
      var rest, c := pattern[..|pattern| - 1], pattern[|pattern| - 1];
      if c == '*' then
        exists k :: 0 <= k <= |candidate| && Peels(rest, candidate[..k])
      else
        && candidate != ""
        && Fits(c, candidate[|candidate| - 1..])
        && Peels(rest, candidate[..|candidate| - 1])
  }

  lemma {:induction false} PeelsExplained(pattern: string, candidate: string) returns (pieces: seq<string>)
    requires Peels(pattern, candidate)
    ensures Explains(pattern, candidate, pieces)
    decreases |pattern|
  {
    if pattern == "" {
      pieces := [];
    } else {
      var rest, c := pattern[..|pattern| - 1], pattern[|pattern| - 1];
      var k;
      if c == '*' {
        k :| 0 <= k <= |candidate| && Peels(rest, candidate[..k]);
      } else {
        k := |candidate| - 1;
      }
      var before := PeelsExplained(rest, candidate[..k]);
      pieces := before + [candidate[k..]];
      assert pieces[..|pieces| - 1] == before;
      assert candidate[..k] + candidate[k..] == candidate;
    }
  }

  lemma {:induction false} ExplainedPeels(pattern: string, candidate: string, pieces: seq<string>)
    requires Explains(pattern, candidate, pieces)
    ensures Peels(pattern, candidate)
    decreases |pattern|
  {
    if pattern != "" {
      var n := |pattern| - 1;
      var before, last := pieces[..n], pieces[n];
      var k := |Flatten(before)|;
      assert candidate[..k] == Flatten(before) && candidate[k..] == last;
      ExplainedPeels(pattern[..n], candidate[..k], before);
    }
  }

  lemma PeelsIsMatches(pattern: string, candidate: string)
    ensures Peels(pattern, candidate) <==> Matches(pattern, candidate)
  {
    if Peels(pattern, candidate) {
      var pieces := PeelsExplained(pattern, candidate);
    }
    if Matches(pattern, candidate) {
      var pieces :| Explains(pattern, candidate, pieces);
      ExplainedPeels(pattern, candidate, pieces);
    }
  }

  /** One row of the table: which prefixes of the candidate a pattern matches. */
  ghost function Row(pattern: string, candidate: string): (row: seq<bool>)
    ensures |row| == |candidate| + 1
  {
    seq(|candidate| + 1, j requires 0 <= j <= |candidate| => Peels(pattern, candidate[..j]))
  }

  /** How the next row follows from this one when the pattern grows by `c`. */
  ghost predicate RowStep(row: seq<bool>, c: char, candidate: string, next: seq<bool>) {
    && |row| == |next| == |candidate| + 1
    && next[0] == (c == '*' && row[0])
    && forall j :: 0 <= j < |candidate| ==>
         next[j + 1] == if c == '*' then row[j + 1] || next[j] else (c == '?' || c == candidate[j]) && row[j]
  }

  lemma StarCell(rest: string, candidate: string, column: nat)
    requires column < |candidate|
    ensures Peels(rest + "*", candidate[..column + 1])
       <==> Peels(rest, candidate[..column + 1]) || Peels(rest + "*", candidate[..column])
  {
    var star, longer, shorter := rest + "*", candidate[..column + 1], candidate[..column];
    assert star[..|star| - 1] == rest;
    assert forall k :: 0 <= k <= column ==> longer[..k] == shorter[..k];
    assert longer[..column + 1] == longer;
    if Peels(star, longer) {
      var k :| 0 <= k <= |longer| && Peels(rest, longer[..k]);
      if k <= column {
        assert Peels(rest, shorter[..k]);
      }
    }
    if Peels(star, shorter) {
      var k :| 0 <= k <= |shorter| && Peels(rest, shorter[..k]);
      assert Peels(rest, longer[..k]);
    }
  }

  lemma PlainCell(rest: string, c: char, candidate: string, column: nat)
    requires c != '*' && column < |candidate|
    ensures Peels(rest + [c], candidate[..column + 1])
       <==> (c == '?' || c == candidate[column]) && Peels(rest, candidate[..column])
  {
    var pattern, prefix := rest + [c], candidate[..column + 1];
    assert pattern[..|pattern| - 1] == rest;
    assert prefix[..column] == candidate[..column];
  }

  lemma RowsStep(rest: string, c: char, candidate: string)
    ensures RowStep(Row(rest, candidate), c, candidate, Row(rest + [c], candidate))
  {
    var pattern := rest + [c];
    assert pattern[..|pattern| - 1] == rest;
    assert candidate[..0] == "" == ""[..0];
    forall j | 0 <= j < |candidate|
      ensures Row(pattern, candidate)[j + 1] ==
        if c == '*' then Row(rest, candidate)[j + 1] || Row(pattern, candidate)[j]
        else (c == '?' || c == candidate[j]) && Row(rest, candidate)[j]
    {
      if c == '*' {
        StarCell(rest, candidate, j);
      } else {
        PlainCell(rest, c, candidate, j);
      }
    }
  }

  /**
   Fills the table row by row.  While a `*` row is scanned its own cells are
   overwritten with the closure that belongs to the next row; the row below
   always ends up exact.
   */
  method GlobMatch(pattern: string, candidate: string) returns (r: bool)
    ensures r <==> Matches(pattern, candidate)
  {
    var n, m := |pattern|, |candidate|;
    var table := new bool[n + 1, m + 1]((_, _) => false);
    table[0, 0] := true;
    var row := 0;
    ghost var here := Row("", candidate);
    while row < n
      invariant 0 <= row <= n
      invariant here == Row(pattern[..row], candidate)
      invariant forall j :: 0 <= j <= m ==> table[row, j] == here[j]
      invariant forall i, j :: row < i <= n && 0 <= j <= m ==> !table[i, j]
    {
      var c := pattern[row];
      ghost var below := Row(pattern[..row + 1], candidate);
      RowsStep(pattern[..row], c, candidate);
      assert pattern[..row] + [c] == pattern[..row + 1];
      var column := 0;
      while column <= m
        invariant 0 <= column <= m + 1
        invariant forall j :: column < j <= m ==> table[row, j] == here[j]
        invariant column <= m ==> table[row, column] == if c == '*' then below[column] else here[column]
        invariant forall j :: 0 <= j < column ==> table[row + 1, j] == below[j]
        invariant column <= m ==> table[row + 1, column] == (c != '*' && below[column])
        invariant forall i, j :: row < i <= n && 0 <= j <= m && (i == row + 1 ==> column < j) ==> !table[i, j]
      {
        if table[row, column] {
          if c == '*' {
            table[row + 1, column] := true;
            if column < m {
              table[row, column + 1] := true;
            }
          } else if column < m && (c == '?' || c == candidate[column]) {
            table[row + 1, column + 1] := true;
          }
        }
        column := column + 1;
      }
      row, here := row + 1, below;
    }
    assert pattern[..n] == pattern && candidate[..m] == candidate;
    PeelsIsMatches(pattern, candidate);
    return table[n, m];
  }

  /** A pattern without `*` only matches candidates of its own length. */
  lemma {:induction false} StarlessLength(pattern: string, candidate: string)
    requires '*' !in pattern && Matches(pattern, candidate)
    ensures |candidate| == |pattern|
    decreases |pattern|
  {
    PeelsIsMatches(pattern, candidate);
    if pattern != "" {
      PeelsIsMatches(pattern[..|pattern| - 1], candidate[..|candidate| - 1]);
      StarlessLength(pattern[..|pattern| - 1], candidate[..|candidate| - 1]);
    }
  }

  /** Without wildcards a pattern matches exactly itself. */
  lemma {:induction false} LiteralMatches(pattern: string, candidate: string)
    requires '*' !in pattern && '?' !in pattern
    ensures Matches(pattern, candidate) <==> pattern == candidate
    decreases |pattern|
  {
    PeelsIsMatches(pattern, candidate);
    if pattern != "" && candidate != "" {
      var p, c := pattern[..|pattern| - 1], candidate[..|candidate| - 1];
      LiteralMatches(p, c);
      PeelsIsMatches(p, c);
      assert pattern == p + [pattern[|p|]] && candidate == c + [candidate[|c|]];
    }
  }

  /** Every string matches itself, wildcards included. */
  lemma {:induction false} SelfMatches(text: string)
    ensures Matches(text, text)
    decreases |text|
  {
    PeelsIsMatches(text, text);
    if text != "" {
      var rest := text[..|text| - 1];
      SelfMatches(rest);
      PeelsIsMatches(rest, rest);
      assert text[..|rest|] == rest;
    }
  }
}
