/**
 Host tokens and known-hosts patterns (src/core/host_key.rs, host_token,
 host_patterns_match and single_host_pattern_matches).
 */
module HostPattern {
  import opened Text
  import Glob

  /**
   Whether the HMAC-SHA1 of a candidate under a base64 salt equals a base64
   digest, as (salt, digest, candidate).  False when either does not decode.
   */
  type Mac = (string, string, string) -> bool

  const DEFAULT_PORT := 22

  function StripBrackets(host: string): string {
    if |host| >= 2 && host[0] == '[' && host[|host| - 1] == ']' then host[1..|host| - 1] else host
  }

  function HostToken(host: string, port: nat): string {
    var host := StripBrackets(host);
    if port == DEFAULT_PORT then host else "[" + host + "]:" + Decimal(port)
  }

  /** Brackets around a host mean nothing, and a port shows only when it is not the default one. */
  lemma HostTokenForm(host: string, port: nat)
    requires !(|host| >= 2 && host[0] == '[' && host[|host| - 1] == ']')
    ensures HostToken(host, port) == if port == 22 then host else "[" + host + "]:" + Decimal(port)
    ensures HostToken("[" + host + "]", port) == HostToken(host, port)
  {
    var bracketed := "[" + host + "]";
    assert bracketed[1..|bracketed| - 1] == host;
  }

  lemma LastColon(x: string, d: string, y: string, e: string)
    requires x + ":" + d == y + ":" + e
    requires ':' !in d && ':' !in e
    ensures x == y && d == e
  {
    var s := x + ":" + d;
    assert x == s[..|x|] && d == s[|x| + 1..|s|] && y == s[..|y|] && e == s[|y| + 1..|s|];
    InSlice(s, |y| + 1, |x|, |s|);
    InSlice(s, |x| + 1, |y|, |s|);
  }

  lemma BracketTokensEqual(x: string, p: nat, y: string, q: nat)
    requires "[" + x + "]:" + Decimal(p) == "[" + y + "]:" + Decimal(q)
    ensures x == y && p == q
  {
    var a, b := "[" + x + "]", "[" + y + "]";
    assert a + ":" + Decimal(p) == "[" + x + "]:" + Decimal(p);
    assert b + ":" + Decimal(q) == "[" + y + "]:" + Decimal(q);
    LastColon(a, Decimal(p), b, Decimal(q));
    assert x == a[1..|a| - 1] && y == b[1..|b| - 1];
    DecimalInjective(p, q);
  }

  /**
   Exactly when two endpoints share a token: they are the same endpoint, or one
   uses the default port with a host spelled like the other's bracket token.
   */
  lemma HostTokensEqual(g: string, p: nat, h: string, q: nat)
    ensures HostToken(g, p) == HostToken(h, q)
       <==> || (p == q && StripBrackets(g) == StripBrackets(h))
            || (p == DEFAULT_PORT != q && StripBrackets(g) == "[" + StripBrackets(h) + "]:" + Decimal(q))
            || (q == DEFAULT_PORT != p && StripBrackets(h) == "[" + StripBrackets(g) + "]:" + Decimal(p))
  {
    if p != DEFAULT_PORT && q != DEFAULT_PORT && HostToken(g, p) == HostToken(h, q) {
      BracketTokensEqual(StripBrackets(g), p, StripBrackets(h), q);
    }
  }

  /** On hosts with no bracket left inside, the token identifies the endpoint. */
  lemma HostTokenInjective(g: string, p: nat, h: string, q: nat)
    requires '[' !in StripBrackets(g) && '[' !in StripBrackets(h)
    ensures HostToken(g, p) == HostToken(h, q) <==> p == q && StripBrackets(g) == StripBrackets(h)
  {
    HostTokensEqual(g, p, h, q);
    assert p != DEFAULT_PORT ==> HostToken(g, p)[0] == '[';
    assert q != DEFAULT_PORT ==> HostToken(h, q)[0] == '[';
  }

  /** A default-port host spelled like a bracket token denotes another endpoint. */
  lemma HostTokenCollision()
    ensures HostToken("[a]:80", 22) == HostToken("a", 80)
  {
    assert Decimal(8) == "8";
    assert Decimal(80) == Decimal(8) + "0" == "80";
  }

  /** Salt and digest of a hashed pattern `|1|salt|digest`. */
  predicate HashedMatches(mac: Mac, hashed: string, candidate: string) {
    var bar := IndexOf(hashed, '|');
    bar < |hashed| && mac(hashed[..bar], hashed[bar + 1..], candidate)
  }

  ghost predicate SingleMatches(mac: Mac, pattern: string, candidate: string) {
    if StartsWith(pattern, "|1|") then HashedMatches(mac, pattern[3..], candidate)
    else Glob.Matches(pattern, candidate)
  }

  method SingleHostPatternMatches(mac: Mac, pattern: string, candidate: string) returns (r: bool)
    ensures r <==> SingleMatches(mac, pattern, candidate)
    ensures forall salt, digest :: '|' !in salt && pattern == "|1|" + salt + "|" + digest ==> (r <==> mac(salt, digest, candidate))
  {
    forall salt, digest | '|' !in salt && pattern == "|1|" + salt + "|" + digest
      ensures SingleMatches(mac, pattern, candidate) <==> mac(salt, digest, candidate)
    {
      HashedPattern(mac, salt, digest, candidate);
    }
    if StartsWith(pattern, "|1|") {
      return HashedMatches(mac, pattern[3..], candidate);
    }
    r := Glob.GlobMatch(pattern, candidate);
  }

  lemma HashedSplit(mac: Mac, text: string, candidate: string)
    ensures SingleMatches(mac, "|1|" + text, candidate) <==> HashedMatches(mac, text, candidate)
  {
    assert ("|1|" + text)[..3] == "|1|" && ("|1|" + text)[3..] == text;
  }

  /** The part before the bar is the salt that keys the HMAC, the part after it the digest. */
  lemma HashedPattern(mac: Mac, salt: string, digest: string, candidate: string)
    requires '|' !in salt
    ensures SingleMatches(mac, "|1|" + salt + "|" + digest, candidate) <==> mac(salt, digest, candidate)
  {
    var text := salt + "|" + digest;
    assert "|1|" + salt + "|" + digest == "|1|" + text;
    HashedSplit(mac, text, candidate);
    assert text[..|salt|] == salt && text[|salt| + 1..] == digest;
    IndexOfUnique(text, '|', |salt|);
  }

  /** Without a second bar there is no digest, and nothing matches. */
  lemma HashedWithoutDigest(mac: Mac, text: string, candidate: string)
    requires '|' !in text
    ensures !SingleMatches(mac, "|1|" + text, candidate)
  {
    HashedSplit(mac, text, candidate);
    IndexOfUnique(text, '|', |text|);
  }

  predicate Negated(piece: string) {
    StartsWith(piece, "!")
  }

  ghost predicate Accepts(mac: Mac, piece: string, candidate: string) {
    piece != "" && !Negated(piece) && SingleMatches(mac, piece, candidate)
  }

  ghost predicate Excludes(mac: Mac, piece: string, candidate: string) {
    Negated(piece) && SingleMatches(mac, piece[1..], candidate)
  }

  /** Some pattern accepts the candidate and no negated one excludes it. */
  ghost predicate PiecesMatch(mac: Mac, pieces: seq<string>, candidate: string) {
    && (exists p :: p in pieces && Accepts(mac, p, candidate))
    && forall p :: p in pieces ==> !Excludes(mac, p, candidate)
  }

  ghost predicate PatternsMatch(mac: Mac, patterns: string, candidate: string) {
    PiecesMatch(mac, Split(patterns, ','), candidate)
  }

  /** Written on the pieces: one without `!` must match, and none may match behind a `!`; empty pieces say nothing. */
  lemma PatternList(mac: Mac, pieces: seq<string>, candidate: string)
    requires pieces != [] && forall p :: p in pieces ==> ',' !in p
    ensures PatternsMatch(mac, Join(pieces, ","), candidate)
       <==> && (exists p :: p in pieces && p != "" && p[0] != '!' && SingleMatches(mac, p, candidate))
            && forall x :: "!" + x in pieces ==> !SingleMatches(mac, x, candidate)
  {
    SplitIsInverseOfJoin(Join(pieces, ","), ',', pieces);
    forall p | p in pieces && Negated(p) ensures p == "!" + p[1..] {
      assert p == p[..1] + p[1..];
    }
    forall p: string ensures Negated(p) <==> p != "" && p[0] == '!' {
      assert p != "" ==> p[..1] == [p[0]];
    }
    forall x ensures Negated("!" + x) && ("!" + x)[1..] == x {
    }
  }

  method HostPatternsMatch(mac: Mac, patterns: string, host: string, port: nat) returns (positive: bool)
    ensures positive <==> PatternsMatch(mac, patterns, HostToken(host, port))
  {
    var candidate := HostToken(host, port);
    var pieces := Split(patterns, ',');
    positive := false;
    for i := 0 to |pieces|
      invariant positive <==> exists p :: p in pieces[..i] && Accepts(mac, p, candidate)
      invariant forall p :: p in pieces[..i] ==> !Excludes(mac, p, candidate)
    {
      var pattern := pieces[i];
      assert pieces[..i + 1] == pieces[..i] + [pattern];
      assert forall p :: p in pieces[..i + 1] <==> p in pieces[..i] || p == pattern;
      assert (exists p :: p in pieces[..i + 1] && Accepts(mac, p, candidate))
        <==> (exists p :: p in pieces[..i] && Accepts(mac, p, candidate)) || Accepts(mac, pattern, candidate);
      if pattern == "" {
        continue;
      }
      var negative := Negated(pattern);
      var matched := SingleHostPatternMatches(mac, if negative then pattern[1..] else pattern, candidate);
      if matched {
        if negative {
          assert pattern in pieces;
          return false;
        }
        positive := true;
      }
    }
    assert pieces[..|pieces|] == pieces;
  }

  /** The verdict does not depend on the order of the comma-separated patterns. */
  lemma PatternOrderIrrelevant(mac: Mac, patterns: seq<string>, permuted: seq<string>, candidate: string)
    requires multiset(patterns) == multiset(permuted)
    ensures PiecesMatch(mac, patterns, candidate) <==> PiecesMatch(mac, permuted, candidate)
  {
    assert forall p :: p in patterns <==> p in multiset(patterns);
    assert forall p :: p in permuted <==> p in multiset(permuted);
  }

  /** A pattern list that reads as one plain pattern: no wildcard, list or hash. */
  predicate Plain(token: string) {
    '*' !in token && '?' !in token && ',' !in token && !StartsWith(token, "|1|")
  }

  /** A plain pattern that is neither skipped nor an exclusion. */
  predicate Pinnable(token: string) {
    Plain(token) && token != "" && !Negated(token)
  }

  lemma SinglePiece(token: string)
    requires ',' !in token
    ensures Split(token, ',') == [token]
  {
    SplitIsInverseOfJoin(token, ',', [token]);
  }

  /** A plain pattern matches its own candidate and, when pinnable, nothing else. */
  lemma PlainMatches(mac: Mac, token: string, candidate: string)
    requires Plain(token)
    ensures PatternsMatch(mac, token, candidate) <==> Pinnable(token) && token == candidate
  {
    SinglePiece(token);
    assert [token][0] in [token];
    Glob.LiteralMatches(token, candidate);
  }

  /** Whether a token, read back as a pattern list, matches itself. */
  ghost predicate SelfMatching(mac: Mac, token: string) {
    PatternsMatch(mac, token, token)
  }

  /** For every token without a comma, wildcards included. */
  lemma SelfMatchingCommaFree(mac: Mac, token: string)
    requires ',' !in token
    ensures SelfMatching(mac, token)
       <==> && token != "" && !Negated(token)
            && (StartsWith(token, "|1|") ==> HashedMatches(mac, token[3..], token))
  {
    SinglePiece(token);
    assert [token][0] in [token];
    Glob.SelfMatches(token);
  }

  lemma {:induction false} PieceShorter(pieces: seq<string>, piece: string)
    requires |pieces| >= 2 && piece in pieces
    ensures |piece| < |Join(pieces, ",")|
    decreases |pieces|
  {
    if |pieces| > 2 && piece in pieces[1..] {
      PieceShorter(pieces[1..], piece);
    }
  }

  lemma {:induction false} JoinKeeps(pieces: seq<string>, piece: string, c: char)
    requires piece in pieces && c in piece
    ensures c in Join(pieces, ",")
  {
    if |pieces| > 1 && piece != pieces[0] {
      JoinKeeps(pieces[1..], piece, c);
    }
  }

  /** What a piece compares with once the negation mark is off. */
  function Body(piece: string): string {
    if Negated(piece) then piece[1..] else piece
  }

  /** The pieces of a list that could cover the whole list: those with a `*` and the hashed ones. */
  predicate Far(piece: string) {
    '*' in Body(piece) || StartsWith(Body(piece), "|1|")
  }

  lemma NearNeverCovers(mac: Mac, token: string, piece: string)
    requires ',' in token && piece in Split(token, ',') && !Far(piece)
    ensures !SingleMatches(mac, Body(piece), token)
  {
    var pieces := Split(token, ',');
    SplitIsInverseOfJoin(token, ',', pieces);
    assert |pieces| > 1 by {
      assert pieces[0] in pieces;
    }
    PieceShorter(pieces, piece);
    if Glob.Matches(Body(piece), token) { Glob.StarlessLength(Body(piece), token); }
  }

  /**
   For every token with a comma, whatever else it holds: literal and `?` pieces
   have no say, so the list matches itself exactly when some `*` or hashed piece
   covers it and no negated `*` or hashed piece does.
   */
  lemma SelfMatchingList(mac: Mac, token: string)
    requires ',' in token
    ensures SelfMatching(mac, token)
       <==> && (exists p :: p in Split(token, ',') && Far(p) && Accepts(mac, p, token))
            && forall p :: p in Split(token, ',') && Far(p) ==> !Excludes(mac, p, token)
  {
    forall p | p in Split(token, ',') && !Far(p)
      ensures !Accepts(mac, p, token) && !Excludes(mac, p, token)
    {
      NearNeverCovers(mac, token, p);
    }
  }

  lemma FarHasMark(piece: string)
    requires Far(piece)
    ensures '*' in piece || '|' in piece
  {
    if StartsWith(Body(piece), "|1|") {
      assert Body(piece)[0] == Body(piece)[..3][0];
    }
  }

  lemma StarlessPiecesAreNear(token: string, piece: string)
    requires '*' !in token && '|' !in token && piece in Split(token, ',')
    ensures !Far(piece)
  {
    var pieces := Split(token, ',');
    SplitIsInverseOfJoin(token, ',', pieces);
    forall c | c in piece ensures c in token {
      JoinKeeps(pieces, piece, c);
    }
    if Far(piece) {
      FarHasMark(piece);
    }
  }

  /** So a comma alone breaks self-matching: without `*` and hashes no list covers itself. */
  lemma SelfMatchingStarless(mac: Mac, token: string)
    requires '*' !in token && '|' !in token
    ensures SelfMatching(mac, token) <==> token != "" && !Negated(token) && ',' !in token
  {
    if ',' !in token {
      SelfMatchingCommaFree(mac, token);
    } else {
      SelfMatchingList(mac, token);
      forall p | p in Split(token, ',') ensures !Far(p) {
        StarlessPiecesAreNear(token, p);
      }
    }
  }

  /** Lists that do cover themselves exist, even behind a negated first piece. */
  lemma StarListCoversItself(mac: Mac)
    ensures SelfMatching(mac, "!a,*")
  {
    var pieces := ["!a", "*"];
    assert pieces[1..] == ["*"];
    assert Join(pieces, ",") == "!a,*";
    SplitIsInverseOfJoin("!a,*", ',', pieces);
    StarMatches("!a,*");
    assert pieces[1] in pieces;
    assert !Glob.Matches("a", "!a,*") by {
      if Glob.Matches("a", "!a,*") { Glob.StarlessLength("a", "!a,*"); }
    }
    assert "!a"[1..] == "a";
  }

  lemma StarMatches(candidate: string)
    ensures Glob.Matches("*", candidate)
  {
    assert [candidate][..0] == [];
    assert Glob.Flatten([]) + candidate == candidate;
    assert Glob.Explains("*", candidate, [candidate]);
  }

  /** A hashed host in a list of its own. */
  lemma HashedHost(mac: Mac, salt: string, digest: string, candidate: string)
    requires '|' !in salt && ',' !in salt && ',' !in digest
    ensures PatternsMatch(mac, "|1|" + salt + "|" + digest, candidate) <==> mac(salt, digest, candidate)
  {
    var pattern := "|1|" + salt + "|" + digest;
    SinglePiece(pattern);
    HashedPattern(mac, salt, digest, candidate);
    assert [pattern][0] in [pattern] && pattern[0] == '|';
  }
}
