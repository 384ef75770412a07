/**
 Reading and printing known-hosts text (src/core/host_key.rs, KnownHosts::parse
 and KnownHosts::to_openssh), the format of "SSH_KNOWN_HOSTS FILE FORMAT" in
 OpenSSH's sshd(8).
 */
module KnownHostsText {
  import opened Wrappers
  import opened Text
  import opened HostPattern
  import opened HostKeys
  import opened Trust

  /** What the ssh-key library reads from the part of a line after the marker. */
  datatype Body = Body(hostPatterns: string, key: PublicKey)

  type BodyCodec = string -> Option<Body>

  function PrintedBody(hostPatterns: string, publicKey: string): string {
    hostPatterns + " " + publicKey
  }

  function MarkerWord(marker: Marker): string
    requires marker != Unmarked
  {
    if marker == CertificateAuthority then "@cert-authority" else "@revoked"
  }

  function MarkerOf(word: string): Option<Marker> {
    if word == "@cert-authority" then Some(CertificateAuthority)
    else if word == "@revoked" then Some(RevokedKey)
    else None
  }

  function MarkerText(marker: Marker): string {
    if marker == Unmarked then "" else MarkerWord(marker) + " "
  }

  function LineOf(e: Entry): string {
    MarkerText(e.marker) + PrintedBody(e.hostPatterns, e.publicKey)
  }

  /** Entries known only by fingerprint have no line. */
  function Keyed(entries: seq<Entry>): seq<Entry> {
    if entries == [] then [] else
      (if entries[0].publicKey == "" then [] else [entries[0]]) + Keyed(entries[1..])
  }

  function Rendered(entries: seq<Entry>): (lines: seq<string>) {
    if entries == [] then [] else
      (if entries[0].publicKey == "" then [] else [LineOf(entries[0])]) + Rendered(entries[1..])
  }

  function ToOpenssh(entries: seq<Entry>): string {
    Terminated(Rendered(entries))
  }

  function Terminated(lines: seq<string>): string {
    if lines == [] then "" else Join(lines, "\n") + "\n"
  }

  /** A raw line without its comment and surrounding white space. */
  function Content(raw: string): string {
    Trim(raw[..IndexOf(raw, '#')])
  }

  /** The marker is the first word when that word starts with `@`. */
  function SplitMarker(line: string): Option<(Marker, string)> {
    if !StartsWith(line, "@") then Some((Unmarked, line)) else
      var i := IndexOf(line, ' ');
      if i == |line| then None else
      match MarkerOf(line[..i])
      case None => None
      case Some(marker) => Some((marker, line[i + 1..]))
  }

  function EntryFrom(codec: BodyCodec, line: string, number: nat): Option<Entry> {
    match SplitMarker(line)
    case None => None
    case Some((marker, text)) =>
      match codec(text)
      case None => None
      case Some(body) => Some(Entry(body.hostPatterns, marker, body.key.fingerprint, body.key.openssh, number))
  }

  function Prepend(entries: seq<Entry>, r: Result<seq<Entry>, nat>): Result<seq<Entry>, nat> {
    match r
    case Ok(rest) => Ok(entries + rest)
    case Err(number) => Err(number)
  }

  /** All entries in order, or the number of the first line the codec refuses. */
  function ParseFrom(codec: BodyCodec, lines: seq<string>, number: nat): Result<seq<Entry>, nat> {
    if lines == [] then Ok([])
    else if Content(lines[0]) == "" then ParseFrom(codec, lines[1..], number + 1)
    else match EntryFrom(codec, Content(lines[0]), number)
      case None => Err(number)
      case Some(entry) => Prepend([entry], ParseFrom(codec, lines[1..], number + 1))
  }

  lemma PrependNothing(r: Result<seq<Entry>, nat>)
    ensures Prepend([], r) == r
  {
    if r.Ok? {
      assert [] + r.value == r.value;
    }
  }

  method Parse(codec: BodyCodec, input: string) returns (r: Result<seq<Entry>, nat>)
    ensures r == ParseFrom(codec, Lines(input), 1)
    ensures forall n: nat :: r == Err(n) <==> FirstBad(codec, Lines(input), n)
    ensures r.Ok? ==> exists at :: Transcribes(codec, Lines(input), 1, r.value, at)
  {
    ghost var at := ParseMeaning(codec, input);
    var lines := Lines(input);
    var entries := [];
    assert lines[0..] == lines && Prepend([], ParseFrom(codec, lines, 1)) == ParseFrom(codec, lines, 1) by {
      PrependNothing(ParseFrom(codec, lines, 1));
    }
    for i := 0 to |lines|
      invariant ParseFrom(codec, lines, 1) == Prepend(entries, ParseFrom(codec, lines[i..], i + 1))
    {
      assert lines[i..][1..] == lines[i + 1..];
      var line := Content(lines[i]);
      if line == "" {
        continue;
      }
      match EntryFrom(codec, line, i + 1)
      case None => return Err(i + 1);
      case Some(entry) =>
        ghost var rest := ParseFrom(codec, lines[i + 1..], i + 2);
        assert rest.Ok? ==> entries + ([entry] + rest.value) == entries + [entry] + rest.value;
        entries := entries + [entry];
    }
    assert lines[|lines|..] == [] && entries + [] == entries;
    return Ok(entries);
  }

  // ----- what the text says -----

  /** A comment starts at the first `#`, and white space around the content does not count. */
  lemma ContentBefore(text: string, comment: string)
    requires '#' !in text
    ensures Content(text + "#" + comment) == Content(text) == Trim(text)
  {
    var raw := text + "#" + comment;
    assert raw[..|text|] == text && text[..|text|] == text;
    IndexOfUnique(raw, '#', |text|);
    IndexOfUnique(text, '#', |text|);
  }

  /** The content of a line as an entry, on its characters; the line number is not part of it. */
  ghost predicate Says(codec: BodyCodec, content: string, e: Entry) {
    exists text :: Marks(content, e.marker, text)
      && codec(text) == Some(Body(e.hostPatterns, PublicKey(e.publicKey, e.fingerprint)))
  }

  predicate Marks(content: string, marker: Marker, text: string) {
    match marker
    case Unmarked => content == text && (text == "" || text[0] != '@')
    case CertificateAuthority => content == "@cert-authority " + text
    case RevokedKey => content == "@revoked " + text
  }

  lemma SplitIsMarks(content: string, marker: Marker, text: string)
    ensures SplitMarker(content) == Some((marker, text)) <==> Marks(content, marker, text)
  {
    assert content != "" ==> content[..1] == [content[0]];
    if Marks(content, marker, text) && marker != Unmarked {
      assert MarkerWord(marker)[0] == '@';
      FirstWord(MarkerWord(marker), text);
      assert content == MarkerWord(marker) + " " + text;
    }
    if SplitMarker(content).Some? && StartsWith(content, "@") {
      var i := IndexOf(content, ' ');
      assert content == content[..i] + " " + content[i + 1..];
      assert content[..i] == "@revoked" ==> content == "@revoked " + content[i + 1..];
      assert content[..i] == "@cert-authority" ==> content == "@cert-authority " + content[i + 1..];
    }
  }

  /** A line that is neither blank nor an entry. */
  ghost predicate Bad(codec: BodyCodec, raw: string) {
    Content(raw) != "" && forall e :: !Says(codec, Content(raw), e)
  }

  lemma EntryFromSays(codec: BodyCodec, content: string, number: nat)
    ensures match EntryFrom(codec, content, number)
      case None => forall e :: !Says(codec, content, e)
      case Some(entry) => entry.line == number && forall e :: Says(codec, content, e) <==> e.(line := number) == entry
  {
    forall e
      ensures Says(codec, content, e) <==>
        EntryFrom(codec, content, number).Some? && e.(line := number) == EntryFrom(codec, content, number).value
    {
      if Says(codec, content, e) {
        var text :| Marks(content, e.marker, text)
          && codec(text) == Some(Body(e.hostPatterns, PublicKey(e.publicKey, e.fingerprint)));
        SplitIsMarks(content, e.marker, text);
      }
      if SplitMarker(content).Some? {
        var (marker, text) := SplitMarker(content).value;
        SplitIsMarks(content, marker, text);
      }
    }
  }

  /** This entry is what line `i` says. */
  ghost predicate ReadAt(codec: BodyCodec, lines: seq<string>, number: nat, i: nat, e: Entry) {
    i < |lines| && Content(lines[i]) != "" && Says(codec, Content(lines[i]), e) && e.line == number + i
  }

  /** `at` lists the lines that are not blank, in order. */
  ghost predicate Covers(lines: seq<string>, at: seq<nat>) {
    forall i: nat :: i < |lines| && Content(lines[i]) != "" ==> exists k :: 0 <= k < |at| && at[k] == i
  }

  predicate Ascending(at: seq<nat>) {
    forall j, k :: 0 <= j < k < |at| ==> at[j] < at[k]
  }

  /** Entry `k` is what line `at[k]` says, and no line that is not blank is left out. */
  ghost predicate Transcribes(codec: BodyCodec, lines: seq<string>, number: nat, entries: seq<Entry>, at: seq<nat>) {
    && |at| == |entries| && Ascending(at) && Covers(lines, at)
    && AllReadAt(codec, lines, number, at, entries)
  }

  function Shifted(at: seq<nat>): (later: seq<nat>)
    ensures |later| == |at|
  {
    seq(|at|, k requires 0 <= k < |at| => at[k] + 1)
  }

  lemma CoversMore(lines: seq<string>, at: seq<nat>, all: seq<nat>)
    requires lines != [] && Covers(lines[1..], at)
    requires all == (if Content(lines[0]) == "" then [] else [0]) + Shifted(at)
    ensures Covers(lines, all)
  {
    forall i: nat | i < |lines| && Content(lines[i]) != ""
      ensures exists k :: 0 <= k < |all| && all[k] == i
    {
      if i == 0 {
        assert all[0] == 0;
      } else {
        assert lines[1..][i - 1] == lines[i];
        var k :| 0 <= k < |at| && at[k] == i - 1;
        assert all[|all| - |at| + k] == Shifted(at)[k] == i;
      }
    }
  }

  lemma ReadLater(codec: BodyCodec, lines: seq<string>, number: nat, i: nat, e: Entry)
    requires lines != [] && ReadAt(codec, lines[1..], number + 1, i, e)
    ensures ReadAt(codec, lines, number, i + 1, e)
  {
    assert lines[1..][i] == lines[i + 1];
  }

  ghost predicate AllReadAt(codec: BodyCodec, lines: seq<string>, number: nat, at: seq<nat>, entries: seq<Entry>)
    requires |at| == |entries|
  {
    forall k :: 0 <= k < |at| ==> ReadAt(codec, lines, number, at[k], entries[k])
  }

  lemma AllReadLater(codec: BodyCodec, lines: seq<string>, number: nat, at: seq<nat>, entries: seq<Entry>)
    requires lines != [] && |at| == |entries| && AllReadAt(codec, lines[1..], number + 1, at, entries)
    ensures AllReadAt(codec, lines, number, Shifted(at), entries)
  {
    forall k | 0 <= k < |at| ensures ReadAt(codec, lines, number, Shifted(at)[k], entries[k]) {
      ReadLater(codec, lines, number, at[k], entries[k]);
    }
  }

  lemma TranscribesBlank(codec: BodyCodec, lines: seq<string>, number: nat, entries: seq<Entry>, at: seq<nat>)
    requires lines != [] && Content(lines[0]) == "" && Transcribes(codec, lines[1..], number + 1, entries, at)
    ensures Transcribes(codec, lines, number, entries, Shifted(at))
  {
    assert [] + Shifted(at) == Shifted(at);
    CoversMore(lines, at, Shifted(at));
    AllReadLater(codec, lines, number, at, entries);
  }

  lemma TranscribesEntry(codec: BodyCodec, lines: seq<string>, number: nat, e: Entry, entries: seq<Entry>, at: seq<nat>)
    requires ReadAt(codec, lines, number, 0, e) && Transcribes(codec, lines[1..], number + 1, entries, at)
    ensures Transcribes(codec, lines, number, [e] + entries, [0] + Shifted(at))
  {
    CoversMore(lines, at, [0] + Shifted(at));
    AllReadLater(codec, lines, number, at, entries);
    AllReadMore(codec, lines, number, 0, e, Shifted(at), entries);
    AscendingMore(at);
  }

  lemma AllReadMore(codec: BodyCodec, lines: seq<string>, number: nat, i: nat, e: Entry, at: seq<nat>, entries: seq<Entry>)
    requires |at| == |entries| && AllReadAt(codec, lines, number, at, entries) && ReadAt(codec, lines, number, i, e)
    ensures AllReadAt(codec, lines, number, [i] + at, [e] + entries)
  {
    forall k | 0 <= k < |at| + 1 ensures ReadAt(codec, lines, number, ([i] + at)[k], ([e] + entries)[k]) {
      assert k > 0 ==> ([i] + at)[k] == at[k - 1] && ([e] + entries)[k] == entries[k - 1];
    }
  }

  lemma AscendingMore(at: seq<nat>)
    requires Ascending(at)
    ensures Ascending([0] + Shifted(at))
  {
  }

  /** The first bad line, or every entry of the text. */
  ghost predicate Read(codec: BodyCodec, lines: seq<string>, number: nat, r: Result<seq<Entry>, nat>, at: seq<nat>) {
    match r
    case Err(n) =>
      && number <= n < number + |lines| && Bad(codec, lines[n - number])
      && forall i :: 0 <= i < n - number ==> !Bad(codec, lines[i])
    case Ok(entries) =>
      (forall i :: 0 <= i < |lines| ==> !Bad(codec, lines[i])) && Transcribes(codec, lines, number, entries, at)
  }

  lemma ReadBlank(codec: BodyCodec, lines: seq<string>, number: nat, at: seq<nat>)
    requires lines != [] && Content(lines[0]) == ""
    requires Read(codec, lines[1..], number + 1, ParseFrom(codec, lines[1..], number + 1), at)
    ensures Read(codec, lines, number, ParseFrom(codec, lines, number), Shifted(at))
  {
    var rest := ParseFrom(codec, lines[1..], number + 1);
    ReadMore(codec, lines, number, rest, at);
    if rest.Ok? {
      TranscribesBlank(codec, lines, number, rest.value, at);
    }
  }

  lemma EntryIsRead(codec: BodyCodec, lines: seq<string>, number: nat, e: Entry)
    requires lines != [] && Content(lines[0]) != "" && EntryFrom(codec, Content(lines[0]), number) == Some(e)
    ensures ReadAt(codec, lines, number, 0, e) && !Bad(codec, lines[0])
  {
    EntryFromSays(codec, Content(lines[0]), number);
    assert Says(codec, Content(lines[0]), e);
  }

  lemma ReadEntry(codec: BodyCodec, lines: seq<string>, number: nat, e: Entry, rest: Result<seq<Entry>, nat>, at: seq<nat>)
    requires lines != [] && ReadAt(codec, lines, number, 0, e) && !Bad(codec, lines[0])
    requires Read(codec, lines[1..], number + 1, rest, at)
    ensures Read(codec, lines, number, Prepend([e], rest), [0] + Shifted(at))
  {
    ReadMore(codec, lines, number, rest, at);
    if rest.Ok? {
      TranscribesEntry(codec, lines, number, e, rest.value, at);
    }
  }

  lemma {:induction false} ParseReads(codec: BodyCodec, lines: seq<string>, number: nat) returns (at: seq<nat>)
    ensures Read(codec, lines, number, ParseFrom(codec, lines, number), at)
    decreases |lines|
  {
    at := [];
    if lines != [] {
      var later := ParseReads(codec, lines[1..], number + 1);
      var entry := EntryFrom(codec, Content(lines[0]), number);
      if Content(lines[0]) == "" {
        at := Shifted(later);
        ReadBlank(codec, lines, number, later);
      } else if entry.Some? {
        at := [0] + Shifted(later);
        EntryIsRead(codec, lines, number, entry.value);
        ReadEntry(codec, lines, number, entry.value, ParseFrom(codec, lines[1..], number + 1), later);
      } else {
        EntryFromSays(codec, Content(lines[0]), number);
      }
    }
  }

  lemma ReadMore(codec: BodyCodec, lines: seq<string>, number: nat, rest: Result<seq<Entry>, nat>, at: seq<nat>)
    requires lines != [] && !Bad(codec, lines[0]) && Read(codec, lines[1..], number + 1, rest, at)
    ensures rest.Err? ==> Read(codec, lines, number, rest, at)
    ensures rest.Ok? ==> forall i :: 0 <= i < |lines| ==> !Bad(codec, lines[i])
  {
    forall i | 0 < i < |lines| ensures lines[i] == lines[1..][i - 1] {
    }
  }

  /** Line `n`, counted from 1, is the first bad one. */
  ghost predicate FirstBad(codec: BodyCodec, lines: seq<string>, n: nat) {
    1 <= n <= |lines| && Bad(codec, lines[n - 1]) && forall i :: 0 <= i < n - 1 ==> !Bad(codec, lines[i])
  }

  lemma ReadDecides(codec: BodyCodec, lines: seq<string>, r: Result<seq<Entry>, nat>, at: seq<nat>, n: nat)
    requires Read(codec, lines, 1, r, at)
    ensures r == Err(n) <==> FirstBad(codec, lines, n)
  {
    if FirstBad(codec, lines, n) {
      assert Bad(codec, lines[n - 1]);
      if r.Err? {
        assert Bad(codec, lines[r.error - 1]);
      }
    }
  }

  /**
   Parsing, on the lines themselves: it fails with the number of the first line
   that is neither blank nor an entry, exactly when there is one; otherwise each
   line that is not blank yields its own entry, in order and with its number.
   */
  lemma ParseMeaning(codec: BodyCodec, input: string) returns (at: seq<nat>)
    ensures var lines, r := Lines(input), ParseFrom(codec, Lines(input), 1);
      && (forall n: nat :: r == Err(n) <==> FirstBad(codec, lines, n))
      && (r.Ok? ==> Transcribes(codec, lines, 1, r.value, at))
  {
    at := ParseReads(codec, Lines(input), 1);
    forall n: nat ensures ParseFrom(codec, Lines(input), 1) == Err(n) <==> FirstBad(codec, Lines(input), n) {
      ReadDecides(codec, Lines(input), ParseFrom(codec, Lines(input), 1), at, n);
    }
  }

  lemma OneRendered(e: Entry)
    ensures ToOpenssh([e]) == if e.publicKey == "" then "" else LineOf(e) + "\n"
  {
    assert [e][1..] == [];
    assert Rendered([e]) == if e.publicKey == "" then [] else [LineOf(e)];
  }

  /** The text of one entry, and the text of a store as that of its entries one after another. */
  lemma PrintedLine(e: Entry)
    ensures ToOpenssh([e]) ==
      if e.publicKey == "" then "" else
        (match e.marker case Unmarked => "" case CertificateAuthority => "@cert-authority " case RevokedKey => "@revoked ")
        + (e.hostPatterns + " " + e.publicKey) + "\n"
  {
    OneRendered(e);
    assert "@cert-authority" + " " == "@cert-authority " && "@revoked" + " " == "@revoked ";
  }

  lemma {:induction false} PrintedTogether(a: seq<Entry>, b: seq<Entry>)
    ensures ToOpenssh(a + b) == ToOpenssh(a) + ToOpenssh(b)
  {
    RenderedConcat(a, b);
    JoinConcat(Rendered(a), Rendered(b));
  }

  lemma {:induction false} RenderedConcat(a: seq<Entry>, b: seq<Entry>)
    ensures Rendered(a + b) == Rendered(a) + Rendered(b)
  {
    if a == [] {
      assert a + b == b;
    } else {
      assert (a + b)[1..] == a[1..] + b;
      RenderedConcat(a[1..], b);
    }
  }

  lemma {:induction false} JoinConcat(a: seq<string>, b: seq<string>)
    ensures Terminated(a + b) == Terminated(a) + Terminated(b)
  {
    if a == [] {
      assert a + b == b;
    } else {
      assert (a + b)[1..] == a[1..] + b;
      JoinConcat(a[1..], b);
      TerminatedMore(a);
      TerminatedMore(a + b);
    }
  }

  lemma TerminatedMore(lines: seq<string>)
    requires lines != []
    ensures Terminated(lines) == lines[0] + "\n" + Terminated(lines[1..])
  {
  }

  // ----- round trips -----

  /** A line that survives comment stripping, trimming and line splitting. */
  predicate Stored(line: string) {
    line != "" && '#' !in line && '\n' !in line && IsTrimmed(line)
  }

  /** The printed body of this entry is read back as its patterns and key. */
  predicate Reprints(codec: BodyCodec, e: Entry) {
    var text := PrintedBody(e.hostPatterns, e.publicKey);
    && e.publicKey != "" && Stored(text)
    && codec(text) == Some(Body(e.hostPatterns, PublicKey(e.publicKey, e.fingerprint)))
    && (e.marker == Unmarked ==> !StartsWith(text, "@"))
  }

  /** The one assumption about the codec: it can print what it read and read that again, and patterns come first. */
  ghost predicate Inverse(codec: BodyCodec) {
    forall text {:trigger codec(text)} :: '#' !in text && '\n' !in text && codec(text).Some? ==>
      var body := codec(text).value; var printed := PrintedBody(body.hostPatterns, body.key.openssh);
      && body.key.openssh != "" && Stored(printed)
      && text != "" && printed[0] == text[0]
      && codec(printed) == Some(body)
  }

  lemma FirstWord(word: string, text: string)
    requires ' ' !in word
    ensures var line := word + " " + text;
      IndexOf(line, ' ') == |word| && line[..|word|] == word && line[|word| + 1..] == text
  {
    var line := word + " " + text;
    assert line[..|word|] == word && line[|word| + 1..] == text;
    IndexOfUnique(line, ' ', |word|);
  }

  lemma MarkedSplit(word: string, marker: Marker, text: string)
    requires Stored(text) && StartsWith(word, "@") && ' ' !in word && '#' !in word && '\n' !in word
    requires MarkerOf(word) == Some(marker)
    ensures SplitMarker(word + " " + text) == Some((marker, text)) && Stored(word + " " + text)
  {
    var line := word + " " + text;
    assert line[0] == word[0] == word[..1][0] == '@' && line[|line| - 1] == text[|text| - 1];
    assert line[..1] == "@";
    FirstWord(word, text);
  }

  lemma MarkerSplit(marker: Marker, text: string)
    requires Stored(text) && (marker == Unmarked ==> !StartsWith(text, "@"))
    ensures SplitMarker(MarkerText(marker) + text) == Some((marker, text))
    ensures Stored(MarkerText(marker) + text)
  {
    if marker == Unmarked {
      assert "" + text == text;
    } else {
      assert MarkerWord(marker)[..1] == "@";
      MarkedSplit(MarkerWord(marker), marker, text);
    }
  }

  /** Marker and body of a printed line are told apart again. */
  lemma LineReadBack(codec: BodyCodec, e: Entry, number: nat)
    requires Reprints(codec, e)
    ensures Stored(LineOf(e)) && EntryFrom(codec, LineOf(e), number) == Some(e.(line := number))
  {
    MarkerSplit(e.marker, PrintedBody(e.hostPatterns, e.publicKey));
  }

  function Renumbered(entries: seq<Entry>, first: nat): (r: seq<Entry>)
    ensures |r| == |entries|
  {
    seq(|entries|, i requires 0 <= i < |entries| => entries[i].(line := first + i))
  }

  lemma {:induction false} LinesOfJoin(lines: seq<string>)
    requires lines != [] && forall l :: l in lines ==> '\n' !in l && IsTrimmed(l)
    ensures Lines(Join(lines, "\n") + "\n") == lines
    decreases |lines|
  {
    var l, rest := lines[0], if |lines| == 1 then "" else Join(lines[1..], "\n") + "\n";
    assert Join(lines, "\n") + "\n" == l + "\n" + rest;
    assert l in lines && StripReturn(l) == l;
    FirstLine(l, rest);
    if |lines| > 1 {
      LinesOfJoin(lines[1..]);
    }
    assert lines == [l] + lines[1..];
  }

  lemma ContentOfStored(line: string)
    requires Stored(line)
    ensures Content(line) == line
  {
    IndexOfUnique(line, '#', |line|);
    assert line[..|line|] == line;
  }

  lemma ReparseOne(codec: BodyCodec, e: Entry, lines: seq<string>, rest: seq<Entry>, number: nat)
    requires Reprints(codec, e)
    requires ParseFrom(codec, lines, number + 1) == Ok(Renumbered(rest, number + 1))
    ensures ParseFrom(codec, [LineOf(e)] + lines, number) == Ok(Renumbered([e] + rest, number))
  {
    assert Renumbered([e] + rest, number) == [e.(line := number)] + Renumbered(rest, number + 1);
    LineReadBack(codec, e, number);
    ContentOfStored(LineOf(e));
    assert ([LineOf(e)] + lines)[1..] == lines;
  }

  lemma {:induction false} RenderedStored(codec: BodyCodec, entries: seq<Entry>)
    requires forall e :: e in entries && e.publicKey != "" ==> Reprints(codec, e)
    ensures forall l :: l in Rendered(entries) ==> Stored(l)
    decreases |entries|
  {
    if entries != [] {
      RenderedStored(codec, entries[1..]);
      if entries[0].publicKey != "" {
        LineReadBack(codec, entries[0], 0);
      }
    }
  }

  lemma {:induction false} ReparseLines(codec: BodyCodec, entries: seq<Entry>, number: nat)
    requires forall e :: e in entries && e.publicKey != "" ==> Reprints(codec, e)
    ensures ParseFrom(codec, Rendered(entries), number) == Ok(Renumbered(Keyed(entries), number))
    decreases |entries|
  {
    if entries != [] {
      var e, rest := entries[0], entries[1..];
      if e.publicKey == "" {
        assert Rendered(entries) == Rendered(rest) && Keyed(entries) == Keyed(rest);
        ReparseLines(codec, rest, number);
      } else {
        assert Rendered(entries) == [LineOf(e)] + Rendered(rest) && Keyed(entries) == [e] + Keyed(rest);
        assert Reprints(codec, e);
        ReparseLines(codec, rest, number + 1);
        ReparseOne(codec, e, Rendered(rest), Keyed(rest), number);
      }
    }
  }

  /** Printing drops exactly the fingerprint-only entries; reading renumbers the rest. */
  lemma PrintedIsReadBack(codec: BodyCodec, entries: seq<Entry>)
    requires forall e :: e in entries && e.publicKey != "" ==> Reprints(codec, e)
    ensures ParseFrom(codec, Lines(ToOpenssh(entries)), 1) == Ok(Renumbered(Keyed(entries), 1))
  {
    ReparseLines(codec, entries, 1);
    RenderedStored(codec, entries);
    if Rendered(entries) != [] {
      LinesOfJoin(Rendered(entries));
    }
  }

  lemma {:induction false} TrimProps(s: string)
    ensures IsTrimmed(Trim(s)) && forall c :: c in Trim(s) ==> c in s
    decreases |s|
  {
    if s != "" {
      if IsWhitespace(s[0]) {
        TrimProps(s[1..]);
      } else if IsWhitespace(s[|s| - 1]) {
        TrimProps(s[..|s| - 1]);
      }
    }
  }

  lemma {:induction false} LinesHaveNoNewline(s: string)
    ensures forall l :: l in Lines(s) ==> '\n' !in l
    decreases |s|
  {
    if s != "" && IndexOf(s, '\n') < |s| {
      LinesHaveNoNewline(s[IndexOf(s, '\n') + 1..]);
    }
  }

  lemma {:induction false} ParsedReprint(codec: BodyCodec, lines: seq<string>, number: nat)
    requires Inverse(codec) && ParseFrom(codec, lines, number).Ok?
    requires forall l :: l in lines ==> '\n' !in l
    ensures forall e :: e in ParseFrom(codec, lines, number).value ==> Reprints(codec, e)
    decreases |lines|
  {
    if lines != [] {
      ParsedReprint(codec, lines[1..], number + 1);
      var raw := lines[0];
      TrimProps(raw[..IndexOf(raw, '#')]);
      assert raw in lines && forall c :: c in raw[..IndexOf(raw, '#')] ==> c in raw;
      if Content(raw) != "" {
        var text := SplitMarker(Content(raw)).value.1;
        assert codec(text).Some?;
        assert Reprints(codec, EntryFrom(codec, Content(raw), number).value);
      }
    }
  }

  lemma {:induction false} AllKeyed(entries: seq<Entry>)
    ensures (forall e :: e in entries ==> e.publicKey != "") <==> Keyed(entries) == entries
    ensures forall e :: e in Keyed(entries) <==> e in entries && e.publicKey != ""
    ensures |Keyed(entries)| <= |entries|
    decreases |entries|
  {
    if entries != [] {
      AllKeyed(entries[1..]);
      assert entries == [entries[0]] + entries[1..];
      if Keyed(entries) == entries && entries[0].publicKey != "" {
        assert Keyed(entries)[1..] == Keyed(entries[1..]) == entries[1..];
      }
    }
  }

  /** parse, print, parse: the same entries in the same order, lines renumbered from 1. */
  lemma ParsePrintParse(codec: BodyCodec, input: string)
    requires Inverse(codec) && ParseFrom(codec, Lines(input), 1).Ok?
    ensures var entries := ParseFrom(codec, Lines(input), 1).value;
      ParseFrom(codec, Lines(ToOpenssh(entries)), 1) == Ok(Renumbered(entries, 1))
  {
    var entries := ParseFrom(codec, Lines(input), 1).value;
    LinesHaveNoNewline(input);
    ParsedReprint(codec, Lines(input), 1);
    PrintedIsReadBack(codec, entries);
    AllKeyed(entries);
  }

  lemma {:induction false} DecideIgnoresLines(mac: Mac, entries: seq<Entry>, first: nat, candidate: string, fingerprint: string)
    ensures Seen(mac, Renumbered(entries, first), candidate, fingerprint) == Seen(mac, entries, candidate, fingerprint)
    ensures Decide(mac, Renumbered(entries, first), candidate, fingerprint) == Decide(mac, entries, candidate, fingerprint)
    decreases |entries|
  {
    if entries != [] {
      var n := |entries| - 1;
      DecideIgnoresLines(mac, entries[..n], first, candidate, fingerprint);
      assert Renumbered(entries, first)[..n] == Renumbered(entries[..n], first);
    }
    SeenDecides(mac, entries, candidate, fingerprint);
    SeenDecides(mac, Renumbered(entries, first), candidate, fingerprint);
  }

  lemma AfterRunReprints(codec: BodyCodec, mac: Mac, store: seq<Entry>, calls: seq<Call>)
    requires forall e :: e in store ==> Reprints(codec, e)
    requires forall c :: c in calls ==> Reprints(codec, Accepted(c.token, c.key))
    ensures forall e :: e in StoreAfter(mac, store, calls) ==> Reprints(codec, e)
  {
    var after := StoreAfter(mac, store, calls);
    RunsOnlyAppend(mac, store, calls);
    forall e | e in after
      ensures Reprints(codec, e)
    {
      assert after == store + after[|store|..];
      if e !in store {
        var c :| c in calls && e == Accepted(c.token, c.key);
      }
    }
  }

  /** Saving and loading a store whose entries can all be printed keeps every verdict. */
  lemma SavedKeepsVerdicts(codec: BodyCodec, mac: Mac, entries: seq<Entry>, candidate: string, fingerprint: string)
    requires forall e :: e in entries ==> Reprints(codec, e)
    ensures var loaded := ParseFrom(codec, Lines(ToOpenssh(entries)), 1);
      loaded.Ok? && Decide(mac, loaded.value, candidate, fingerprint) == Decide(mac, entries, candidate, fingerprint)
  {
    PrintedIsReadBack(codec, entries);
    AllKeyed(entries);
    DecideIgnoresLines(mac, entries, 1, candidate, fingerprint);
  }

  /**
   A trust-on-first-use session that starts from parsed text and is saved and
   loaded again answers every later question as before, when the keys it
   accepted can be printed.
   */
  lemma SavedRunKeepsVerdicts(codec: BodyCodec, mac: Mac, input: string, calls: seq<Call>, candidate: string, fingerprint: string)
    requires Inverse(codec) && ParseFrom(codec, Lines(input), 1).Ok?
    requires forall c :: c in calls ==> Reprints(codec, Accepted(c.token, c.key))
    ensures var after := StoreAfter(mac, ParseFrom(codec, Lines(input), 1).value, calls);
      var loaded := ParseFrom(codec, Lines(ToOpenssh(after)), 1);
      loaded.Ok? && Decide(mac, loaded.value, candidate, fingerprint) == Decide(mac, after, candidate, fingerprint)
  {
    var store := ParseFrom(codec, Lines(input), 1).value;
    LinesHaveNoNewline(input);
    ParsedReprint(codec, Lines(input), 1);
    AfterRunReprints(codec, mac, store, calls);
    SavedKeepsVerdicts(codec, mac, StoreAfter(mac, store, calls), candidate, fingerprint);
  }
}
