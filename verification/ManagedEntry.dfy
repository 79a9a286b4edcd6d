/** `plan_rust_managed_entry`: keyed entries inside a declared block of a Rust source file. */
module ManagedEntry {
  import opened Content
  import opened TextOrder
  import opened TextLines

  datatype ErrorKind =
    | InvalidInput
    | InvalidSource
    | MissingIntegrationPoint
    | AmbiguousIntegrationPoint
    | DuplicateRegistration
    | ReorderedRegistrations
    | ExistingOutsideManagedBlock

  datatype Result<+T> = Ok(value: T) | Err(kind: ErrorKind)
  datatype Outcome = Planned(text: string) | AlreadyPresent

  // ---- Markers ----

  const HEGIRA := "// hegira:"

  predicate IdentifierChar(c: char) {
    'a' <= c <= 'z' || '0' <= c <= '9' || c == '-' || c == '_'
  }

  predicate ValidIdentifier(value: string) {
    0 < |value| <= 128 && forall i :: 0 <= i < |value| ==> IdentifierChar(value[i])
  }

  function OuterStart(block: string): string { HEGIRA + block }
  function OuterEnd(block: string): string { HEGIRA + block + ":end" }
  function EntryPrefix(block: string): string { HEGIRA + block + ":" }
  function EntryStart(block: string, key: string): string { EntryPrefix(block) + key + ":start" }
  function EntryEnd(block: string, key: string): string { EntryPrefix(block) + key + ":end" }

  /** `strip_prefix(prefix)` and then `strip_suffix(":start")`. */
  function KeyOf(marker: string, block: string): Option<string> {
    var prefix := EntryPrefix(block);
    if prefix <= marker then
      var rest := marker[|prefix|..];
      if |rest| >= 6 && rest[|rest| - 6..] == ":start" then Some(rest[..|rest| - 6]) else None
    else None
  }

  lemma MarkersAreSolid(block: string, key: string)
    requires ValidIdentifier(block) && ValidIdentifier(key)
    ensures Solid(EntryStart(block, key)) && Solid(EntryEnd(block, key))
    ensures Plain(EntryStart(block, key)) && Plain(EntryEnd(block, key))
  {
    var start, end := EntryStart(block, key), EntryEnd(block, key);
    assert start[0] == '/' && end[0] == '/' && start[|start| - 1] == 't' && end[|end| - 1] == 'd';
    assert forall i :: 0 <= i < |block| ==> IdentifierChar(block[i]);
  }

  lemma KeyOfEntryStart(block: string, key: string)
    requires ValidIdentifier(key)
    ensures KeyOf(EntryStart(block, key), block) == Some(key) && EntryStart(block, key) != []
  {
    var prefix, start := EntryPrefix(block), EntryStart(block, key);
    assert start[|prefix|..] == key + ":start";
  }

  /** Entry markers are longer than the outer ones and begin with the entry prefix. */
  lemma MarkersAreApart(block: string, key: string)
    requires ValidIdentifier(key)
    ensures HEGIRA <= EntryPrefix(block) <= EntryEnd(block, key)
    ensures {EntryStart(block, key), EntryEnd(block, key)} !! {OuterStart(block), OuterEnd(block)}
  {
    var start, end := EntryStart(block, key), EntryEnd(block, key);
    assert |start| > |OuterStart(block)| && |end| > |OuterStart(block)|;
    assert |start| > |OuterEnd(block)| && |end| > |OuterEnd(block)|;
  }

  lemma {:induction false} SolidTrim(s: string)
    requires Solid(s)
    ensures Trim(s) == s
  {
  }

  // ---- The body of a block, cut into blank lines and keyed entries ----

  /** A blank line, or an entry with the lines of its markers. */
  datatype Segment = Blank(line: string) | Keyed(key: string, lines: seq<string>) {
    function Lines(): seq<string> {
      match this
      case Blank(line) => [line]
      case Keyed(_, lines) => lines
    }
  }

  function Unparse(segments: seq<Segment>): seq<string> {
    if segments == [] then [] else segments[0].Lines() + Unparse(segments[1..])
  }

  /** The first line whose trimmed text is the marker. */
  function Position(lines: seq<string>, marker: string): (r: Option<nat>)
    ensures r.Some? ==> r.value < |lines|
  {
    if lines == [] then None
    else if Trim(lines[0]) == marker then Some(0)
    else match Position(lines[1..], marker) case None => None case Some(i) => Some(i + 1)
  }

  lemma {:induction false} PositionHasMarker(lines: seq<string>, marker: string)
    ensures Position(lines, marker).Some? ==> Trim(lines[Position(lines, marker).value]) == marker
  {
    if lines != [] && Trim(lines[0]) != marker {
      PositionHasMarker(lines[1..], marker);
    }
  }

  predicate StartsEntry(line: string, block: string) {
    EntryPrefix(block) <= Trim(line)
  }

  /** A line of these looks like an entry marker. */
  predicate Nested(lines: seq<string>, block: string) {
    lines != [] && (StartsEntry(lines[0], block) || Nested(lines[1..], block))
  }

  /** The blank line or keyed entry that begins with this line, followed by these. */
  function FirstOf(head: string, rest: seq<string>, block: string): Result<Segment> {
    if Trim(head) == [] then Ok(Blank(head))
    else
      match KeyOf(Trim(head), block)
      case None => Err(AmbiguousIntegrationPoint)
      case Some(key) =>
        if !ValidIdentifier(key) then Err(AmbiguousIntegrationPoint)
        else
          match Position(rest, EntryEnd(block, key))
          case None => Err(AmbiguousIntegrationPoint)
          case Some(i) =>
            if Nested(rest[..i], block) then Err(AmbiguousIntegrationPoint)
            else Ok(Keyed(key, [head] + rest[..i + 1]))
  }

  /** The blank line or keyed entry that the body starts with. */
  function First(body: seq<string>, block: string): (r: Result<Segment>)
    requires body != []
    ensures r.Ok? ==> 0 < |r.value.Lines()| <= |body|
  {
    FirstOf(body[0], body[1..], block)
  }

  /** What the parser cuts off, and what it leaves, are the whole body. */
  lemma FirstIsPrefix(body: seq<string>, block: string)
    requires body != [] && First(body, block).Ok?
    ensures var g := First(body, block).value; g.Lines() == body[..|g.Lines()|]
  {
  }

  function Parse(body: seq<string>, block: string): Result<seq<Segment>>
    decreases |body|
  {
    if body == [] then Ok([])
    else
      match First(body, block)
      case Err(e) => Err(e)
      case Ok(g) => Behind([g], Parse(body[|g.Lines()|..], block))
  }

  /** What parsing the rest gives, behind the segments already found. */
  function Behind(done: seq<Segment>, rest: Result<seq<Segment>>): Result<seq<Segment>> {
    match rest
    case Err(e) => Err(e)
    case Ok(segments) => Ok(done + segments)
  }

  /** A segment the parser could have produced. */
  ghost predicate Proper(segment: Segment, block: string) {
    match segment
    case Blank(line) => Trim(line) == []
    case Keyed(key, lines) =>
      && ValidIdentifier(key) && |lines| >= 2
      && Trim(lines[0]) == EntryStart(block, key) && Trim(lines[|lines| - 1]) == EntryEnd(block, key)
      && !Nested(lines[1..|lines| - 1], block)
  }

  ghost predicate AllProper(segments: seq<Segment>, block: string) {
    segments == [] || (Proper(segments[0], block) && AllProper(segments[1..], block))
  }

  lemma KeyOfStart(marker: string, block: string)
    requires KeyOf(marker, block).Some?
    ensures marker == EntryStart(block, KeyOf(marker, block).value)
  {
    var prefix := EntryPrefix(block);
    var rest := marker[|prefix|..];
    assert marker == prefix + rest && rest == rest[..|rest| - 6] + ":start";
  }

  /** What the parser cuts off is a proper segment. */
  lemma FirstIsProper(body: seq<string>, block: string)
    requires body != [] && First(body, block).Ok?
    ensures Proper(First(body, block).value, block)
  {
    var head, rest := body[0], body[1..];
    if Trim(head) != [] {
      KeyOfStart(Trim(head), block);
      var key := KeyOf(Trim(head), block).value;
      PositionHasMarker(rest, EntryEnd(block, key));
      EntryInside(head, rest, Position(rest, EntryEnd(block, key)).value);
    }
  }

  lemma EntryInside(head: string, rest: seq<string>, i: nat)
    requires i < |rest|
    ensures var lines := [head] + rest[..i + 1];
            lines[0] == head && lines[1..|lines| - 1] == rest[..i] && lines[|lines| - 1] == rest[i]
  {
  }

  /** What the parser does with a body it accepts. */
  lemma ParseSplits(body: seq<string>, block: string) returns (g: Segment, rest: seq<string>)
    requires body != [] && Parse(body, block).Ok?
    ensures Proper(g, block) && |rest| < |body| && body == g.Lines() + rest
    ensures Parse(rest, block).Ok? && Parse(body, block).value == [g] + Parse(rest, block).value
  {
    FirstIsProper(body, block);
    FirstIsPrefix(body, block);
    g := First(body, block).value;
    rest := body[|g.Lines()|..];
  }

  lemma UnparseCons(first: Segment, rest: seq<Segment>, block: string)
    ensures Unparse([first] + rest) == first.Lines() + Unparse(rest)
    ensures Proper(first, block) && AllProper(rest, block) ==> AllProper([first] + rest, block)
  {
    assert ([first] + rest)[1..] == rest;
  }

  /** Parsing loses nothing. */
  lemma {:induction false} ParseThenUnparse(body: seq<string>, block: string)
    requires Parse(body, block).Ok?
    ensures Unparse(Parse(body, block).value) == body && AllProper(Parse(body, block).value, block)
    decreases |body|
  {
    if body != [] {
      var g, rest := ParseSplits(body, block);
      ParseThenUnparse(rest, block);
      UnparseCons(g, Parse(rest, block).value, block);
    }
  }

  /** An end marker behind lines that begin no entry is the first one, whatever follows. */
  lemma {:induction false} PositionBehind(inner: seq<string>, last: string, tail: seq<string>, block: string,
                                          key: string)
    requires !Nested(inner, block) && Trim(last) == EntryEnd(block, key)
    ensures Position(inner + [last] + tail, EntryEnd(block, key)) == Some(|inner|)
  {
    var rest := inner + [last] + tail;
    if inner == [] {
      assert rest[0] == last;
    } else {
      assert rest[0] == inner[0] && rest[1..] == inner[1..] + [last] + tail;
      PositionBehind(inner[1..], last, tail, block, key);
      EndStartsEntry(inner[0], block, key);
    }
  }

  lemma EndStartsEntry(line: string, block: string, key: string)
    ensures Trim(line) == EntryEnd(block, key) ==> StartsEntry(line, block)
  {
  }

  lemma FirstOneKeyed(g: Segment, tail: seq<string>, block: string)
    requires g.Keyed? && Proper(g, block) && ValidIdentifier(block)
    ensures First(g.lines + tail, block) == Ok(g)
  {
    var head, inner, last := g.lines[0], g.lines[1..|g.lines| - 1], g.lines[|g.lines| - 1];
    var body, rest := g.lines + tail, inner + [last] + tail;
    assert body[0] == head && body[1..] == rest;
    KeyOfEntryStart(block, g.key);
    PositionBehind(inner, last, tail, block, g.key);
    assert rest[..|inner|] == inner && [head] + rest[..|inner| + 1] == g.lines;
  }

  /** A proper segment in front of any text is cut off as itself. */
  lemma FirstOne(first: Segment, tail: seq<string>, block: string)
    requires Proper(first, block) && ValidIdentifier(block)
    ensures First(first.Lines() + tail, block) == Ok(first)
  {
    if first.Keyed? {
      FirstOneKeyed(first, tail, block);
    }
  }

  lemma ParseOne(body: seq<string>, g: Segment, rest: seq<string>, block: string)
    requires body != [] && First(body, block) == Ok(g) && body[|g.Lines()|..] == rest
    ensures Parse(body, block) == Behind([g], Parse(rest, block))
  {
  }

  /** A proper segment in front of any text is parsed before it. */
  lemma ParseBehind(first: Segment, tail: seq<string>, block: string)
    requires Proper(first, block) && ValidIdentifier(block)
    ensures Parse(first.Lines() + tail, block) == Behind([first], Parse(tail, block))
  {
    FirstOne(first, tail, block);
    ParseOne(first.Lines() + tail, first, tail, block);
  }

  /** Proper segments in front of any text are parsed before it. */
  lemma {:induction false} ParsePrefix(segments: seq<Segment>, tail: seq<string>, block: string)
    requires AllProper(segments, block) && ValidIdentifier(block)
    ensures Parse(Unparse(segments) + tail, block) == Behind(segments, Parse(tail, block))
  {
    if segments == [] {
      assert Unparse(segments) + tail == tail;
      BehindNothing(Parse(tail, block));
    } else {
      var first, rest := segments[0], segments[1..];
      assert Unparse(segments) + tail == first.Lines() + (Unparse(rest) + tail);
      ParsePrefix(rest, tail, block);
      ParseBehind(first, Unparse(rest) + tail, block);
      BehindCons(first, rest, Parse(tail, block));
      assert segments == [first] + rest;
    }
  }

  lemma BehindNothing(rest: Result<seq<Segment>>)
    ensures Behind([], rest) == rest
  {
    assert rest.Ok? ==> [] + rest.value == rest.value;
  }

  lemma BehindCons(first: Segment, done: seq<Segment>, rest: Result<seq<Segment>>)
    ensures Behind([first], Behind(done, rest)) == Behind([first] + done, rest)
  {
    assert rest.Ok? ==> [first] + (done + rest.value) == [first] + done + rest.value;
  }

  /** Printing proper segments and parsing them gives the same segments. */
  lemma UnparseThenParse(segments: seq<Segment>, block: string)
    requires AllProper(segments, block) && ValidIdentifier(block)
    ensures Parse(Unparse(segments), block) == Ok(segments)
  {
    ParsePrefix(segments, [], block);
    assert Unparse(segments) + [] == Unparse(segments);
    assert segments + [] == segments;
  }

  // ---- Keys and insertion ----

  function Keys(segments: seq<Segment>): seq<string> {
    if segments == [] then []
    else (if segments[0].Keyed? then [segments[0].key] else []) + Keys(segments[1..])
  }

  predicate Ascending(keys: seq<string>) {
    forall i :: 0 < i < |keys| ==> Less(keys[i - 1], keys[i])
  }

  /** Before the first entry with a greater key, or else at the end of the block. */
  function Insert(segments: seq<Segment>, entry: Segment): seq<Segment>
    requires entry.Keyed?
  {
    if segments == [] then [entry]
    else if segments[0].Keyed? && Less(entry.key, segments[0].key) then [entry] + segments
    else [segments[0]] + Insert(segments[1..], entry)
  }

  /** Insertion commutes for different keys, blank lines or not. */
  lemma {:induction false} InsertCommutes(segments: seq<Segment>, a: Segment, b: Segment)
    requires a.Keyed? && b.Keyed? && a.key != b.key
    ensures Insert(Insert(segments, a), b) == Insert(Insert(segments, b), a)
  {
    LessTotal(a.key, b.key);
    if Less(a.key, b.key) && Less(b.key, a.key) {
      LessTransitive(a.key, b.key, a.key);
      LessIrreflexive(a.key);
    }
    if segments == [] {
      assert [a][1..] == [] && [b][1..] == [];
    } else {
      var first, rest := segments[0], segments[1..];
      assert ([a] + segments)[1..] == segments && ([b] + segments)[1..] == segments;
      if first.Keyed? && Less(a.key, first.key) && Less(b.key, first.key) {
      } else if first.Keyed? && Less(a.key, first.key) {
        assert ([first] + Insert(rest, b))[0] == first;
      } else if first.Keyed? && Less(b.key, first.key) {
        assert ([first] + Insert(rest, a))[0] == first;
      } else {
        InsertCommutes(rest, a, b);
        assert ([first] + Insert(rest, a))[1..] == Insert(rest, a);
        assert ([first] + Insert(rest, b))[1..] == Insert(rest, b);
      }
      if first.Keyed? && Less(a.key, first.key) && !Less(b.key, first.key) && Less(b.key, a.key) {
        LessTransitive(b.key, a.key, first.key);
      }
      if first.Keyed? && Less(b.key, first.key) && !Less(a.key, first.key) && Less(a.key, b.key) {
        LessTransitive(a.key, b.key, first.key);
      }
    }
  }

  lemma {:induction false} InsertMembers(segments: seq<Segment>, entry: Segment)
    requires entry.Keyed?
    ensures forall g :: g in Insert(segments, entry) <==> g in segments || g == entry
    ensures forall k :: k in Keys(Insert(segments, entry)) <==> k in Keys(segments) || k == entry.key
    ensures forall line :: line in Unparse(Insert(segments, entry)) ==> line in Unparse(segments) || line in entry.lines
  {
    if segments == [] {
      assert [entry][1..] == [];
    } else if segments[0].Keyed? && Less(entry.key, segments[0].key) {
      assert ([entry] + segments)[1..] == segments;
    } else {
      InsertMembers(segments[1..], entry);
      var longer := [segments[0]] + Insert(segments[1..], entry);
      assert longer[1..] == Insert(segments[1..], entry);
      assert segments == [segments[0]] + segments[1..];
    }
  }

  lemma AscendingTail(keys: seq<string>)
    requires Ascending(keys) && keys != []
    ensures Ascending(keys[1..])
  {
    forall i | 0 < i < |keys[1..]| ensures Less(keys[1..][i - 1], keys[1..][i]) {
      assert Less(keys[i + 1 - 1], keys[i + 1]);
    }
  }

  /** The keys stay strictly sorted. */
  lemma {:induction false} InsertKeepsOrder(segments: seq<Segment>, entry: Segment)
    requires entry.Keyed? && Ascending(Keys(segments)) && entry.key !in Keys(segments)
    ensures Ascending(Keys(Insert(segments, entry)))
    ensures var keys, longer := Keys(segments), Keys(Insert(segments, entry));
            longer != [] && (keys != [] ==> longer[0] == if Less(entry.key, keys[0]) then entry.key else keys[0])
    ensures Keys(segments) == [] ==> Keys(Insert(segments, entry)) == [entry.key]
  {
    if segments == [] {
      assert [entry][1..] == [];
    } else if segments[0].Keyed? && Less(entry.key, segments[0].key) {
      assert ([entry] + segments)[1..] == segments;
    } else {
      var rest := segments[1..];
      var longer := [segments[0]] + Insert(rest, entry);
      assert longer[1..] == Insert(rest, entry);
      if segments[0].Keyed? {
        AscendingTail(Keys(segments));
        assert Keys(rest) == Keys(segments)[1..];
        InsertKeepsOrder(rest, entry);
        LessTotal(entry.key, segments[0].key);
      } else {
        assert Keys(segments) == Keys(rest);
        InsertKeepsOrder(rest, entry);
      }
    }
  }

  function Distinct(keys: seq<string>): nat {
    |set k | k in keys|
  }

  lemma {:induction false} AscendingPairs(keys: seq<string>, i: nat, j: nat)
    requires Ascending(keys) && i < j < |keys|
    ensures Less(keys[i], keys[j])
  {
    if i + 1 < j {
      AscendingPairs(keys, i, j - 1);
      LessTransitive(keys[i], keys[j - 1], keys[j]);
    }
  }

  lemma {:induction false} AscendingIsDistinct(keys: seq<string>)
    requires Ascending(keys)
    ensures Distinct(keys) == |keys|
  {
    if keys != [] {
      var init, last := keys[..|keys| - 1], keys[|keys| - 1];
      AscendingIsDistinct(init);
      if last in init {
        var i :| 0 <= i < |init| && init[i] == last;
        AscendingPairs(keys, i, |keys| - 1);
        LessIrreflexive(last);
        assert false;
      }
      assert (set k | k in keys) == (set k | k in init) + {last};
    }
  }

  // ---- The generated entry ----

  function IndentLine(indent: string, line: string): string {
    if line == [] then [] else indent + line
  }

  function IndentLines(indent: string, lines: seq<string>): (r: seq<string>)
    ensures |r| == |lines| && forall i :: 0 <= i < |r| ==> r[i] == IndentLine(indent, lines[i])
  {
    seq(|lines|, i requires 0 <= i < |lines| => IndentLine(indent, lines[i]))
  }

  function Generate(indent: string, block: string, key: string, entry: string): seq<string> {
    [indent + EntryStart(block, key)] + IndentLines(indent, Lines(entry)) + [indent + EntryEnd(block, key)]
  }

  /** The generated lines as one entry. */
  function Entry(indent: string, block: string, key: string, entry: string): (g: Segment)
    ensures g.Keyed? && g.key == key
  {
    Keyed(key, Generate(indent, block, key, entry))
  }

  predicate ValidRequest(block: string, key: string, entry: string) {
    && ValidIdentifier(block) && ValidIdentifier(key) && Trim(entry) != []
    && !Contains(entry, HEGIRA) && '\r' !in entry
  }

  predicate OuterMarker(line: string, block: string) {
    Trim(line) == OuterStart(block) || Trim(line) == OuterEnd(block)
  }

  /** A line of the entry's text never looks like a marker. */
  lemma EntryLineIsNoMarker(indent: string, entry: string, i: nat)
    requires AllWhite(indent) && !Contains(entry, HEGIRA) && i < |Lines(entry)|
    ensures !(HEGIRA <= Trim(IndentLine(indent, Lines(entry)[i])))
  {
    var line := Lines(entry)[i];
    TrimIndented(indent, line);
    if HEGIRA <= Trim(line) {
      TrimContains(line, HEGIRA);
      LineContains(entry, i, HEGIRA);
    }
  }

  /** Lines that do not look like markers begin no entry. */
  lemma {:induction false} NoneNested(lines: seq<string>, block: string)
    requires forall line :: line in lines ==> !(HEGIRA <= Trim(line))
    ensures !Nested(lines, block)
  {
    if lines != [] {
      PrefixTransitive(HEGIRA, EntryPrefix(block), Trim(lines[0]));
      NoneNested(lines[1..], block);
    }
  }

  lemma PrefixTransitive(a: string, b: string, c: string)
    requires a <= b
    ensures b <= c ==> a <= c
  {
  }

  /** Neither the markers of an entry nor lines that do not look like markers are outer markers. */
  lemma NoOuterInside(line: string, block: string, key: string)
    requires ValidIdentifier(key)
    requires Trim(line) in {EntryStart(block, key), EntryEnd(block, key)} || !(HEGIRA <= Trim(line))
    ensures !OuterMarker(line, block)
  {
    MarkersAreApart(block, key);
    assert HEGIRA <= OuterStart(block) && HEGIRA <= OuterEnd(block);
  }

  lemma GeneratedIsPlain(indent: string, block: string, key: string, entry: string)
    requires Plain(indent) && ValidRequest(block, key, entry)
    ensures forall line :: line in Generate(indent, block, key, entry) ==> Plain(line)
  {
    MarkersAreSolid(block, key);
    LinesPlain(entry);
    var inner := IndentLines(indent, Lines(entry));
    assert forall i :: 0 <= i < |inner| ==> Plain(inner[i]);
  }

  lemma GeneratedIsProper(indent: string, block: string, key: string, entry: string)
    requires AllWhite(indent) && ValidRequest(block, key, entry)
    ensures Proper(Entry(indent, block, key, entry), block)
    ensures forall line :: line in Generate(indent, block, key, entry) ==> !OuterMarker(line, block)
  {
    var start, end := EntryStart(block, key), EntryEnd(block, key);
    var inner := IndentLines(indent, Lines(entry));
    MarkersAreSolid(block, key);
    TrimSolid(indent, start);
    TrimSolid(indent, end);
    forall line | line in inner ensures !(HEGIRA <= Trim(line)) {
      var i :| 0 <= i < |inner| && inner[i] == line;
      EntryLineIsNoMarker(indent, entry, i);
    }
    NoneNested(inner, block);
    var lines := Generate(indent, block, key, entry);
    assert lines[1..|lines| - 1] == inner;
    forall line | line in Generate(indent, block, key, entry) ensures !OuterMarker(line, block) {
      assert line in inner || line == indent + start || line == indent + end;
      NoOuterInside(line, block, key);
    }
  }

  lemma TrimSolid(indent: string, s: string)
    requires AllWhite(indent) && Solid(s)
    ensures Trim(indent + s) == s
  {
    TrimIndented(indent, s);
    SolidTrim(s);
  }

  // ---- The block in its file ----

  function Positions(lines: seq<string>, marker: string): seq<nat> {
    if lines == [] then []
    else
      var n := |lines| - 1;
      Positions(lines[..n], marker) + if Trim(lines[n]) == marker then [n] else []
  }

  lemma {:induction false} PositionsAreMarkers(lines: seq<string>, marker: string)
    ensures forall p :: p in Positions(lines, marker) <==> 0 <= p < |lines| && Trim(lines[p]) == marker
  {
    if lines != [] {
      var n := |lines| - 1;
      PositionsAreMarkers(lines[..n], marker);
      assert forall p :: 0 <= p < n ==> lines[..n][p] == lines[p];
    }
  }

  lemma {:induction false} NoPosition(lines: seq<string>, marker: string)
    requires forall i :: 0 <= i < |lines| ==> Trim(lines[i]) != marker
    ensures Positions(lines, marker) == []
  {
    if lines != [] {
      NoPosition(lines[..|lines| - 1], marker);
    }
  }

  lemma {:induction false} OnlyPosition(lines: seq<string>, marker: string, at: nat)
    requires at < |lines| && forall i :: 0 <= i < |lines| ==> (Trim(lines[i]) == marker <==> i == at)
    ensures Positions(lines, marker) == [at]
  {
    var n := |lines| - 1;
    if at == n {
      NoPosition(lines[..n], marker);
    } else {
      OnlyPosition(lines[..n], marker, at);
    }
  }

  /** The lines up to and including the block's start, its body, and the lines from its end on. */
  datatype Block = Block(pre: seq<string>, body: seq<string>, post: seq<string>) {
    function Lines(): seq<string> {
      pre + body + post
    }
  }

  function Cut(lines: seq<string>, block: string): Result<Block> {
    var starts, ends := Positions(lines, OuterStart(block)), Positions(lines, OuterEnd(block));
    PositionsAreMarkers(lines, OuterStart(block));
    PositionsAreMarkers(lines, OuterEnd(block));
    if starts == [] || ends == [] then Err(MissingIntegrationPoint)
    else if |starts| != 1 || |ends| != 1 || starts[0] >= ends[0] then Err(AmbiguousIntegrationPoint)
    else
      assert starts[0] in starts && ends[0] in ends;
      Ok(Block(lines[..starts[0] + 1], lines[starts[0] + 1..ends[0]], lines[ends[0]..]))
  }

  ghost predicate NoOuter(lines: seq<string>, block: string) {
    forall i :: 0 <= i < |lines| ==> !OuterMarker(lines[i], block)
  }

  /** The block's markers are the last line before the body and the first one after it, and nowhere else. */
  ghost predicate Framed(b: Block, block: string) {
    && b.pre != [] && b.post != []
    && Trim(b.pre[|b.pre| - 1]) == OuterStart(block) && Trim(b.post[0]) == OuterEnd(block)
    && NoOuter(b.pre[..|b.pre| - 1], block) && NoOuter(b.post[1..], block)
  }

  /** A file split at its only two outer markers. */
  lemma FramedAt(lines: seq<string>, start: nat, end: nat, block: string)
    requires start < end < |lines| && Trim(lines[start]) == OuterStart(block) && Trim(lines[end]) == OuterEnd(block)
    requires forall i :: 0 <= i < |lines| && i != start && i != end ==> !OuterMarker(lines[i], block)
    ensures var b := Block(lines[..start + 1], lines[start + 1..end], lines[end..]);
            Framed(b, block) && NoOuter(b.body, block) && b.Lines() == lines
  {
  }

  /** Where the block was found. */
  lemma CutFound(lines: seq<string>, block: string) returns (start: nat, end: nat)
    requires Cut(lines, block).Ok?
    ensures Positions(lines, OuterStart(block)) == [start] && Positions(lines, OuterEnd(block)) == [end]
    ensures start < end < |lines|
    ensures Cut(lines, block) == Ok(Block(lines[..start + 1], lines[start + 1..end], lines[end..]))
  {
    start, end := Positions(lines, OuterStart(block))[0], Positions(lines, OuterEnd(block))[0];
    SoleMarker(lines, OuterEnd(block), end);
  }

  lemma SoleMarker(lines: seq<string>, marker: string, at: nat)
    requires Positions(lines, marker) == [at]
    ensures at < |lines| && forall i :: 0 <= i < |lines| ==> (Trim(lines[i]) == marker <==> i == at)
  {
    PositionsAreMarkers(lines, marker);
    assert forall i: nat :: i in [at] <==> i == at;
  }

  lemma CutFrames(lines: seq<string>, block: string)
    requires Cut(lines, block).Ok?
    ensures Framed(Cut(lines, block).value, block) && NoOuter(Cut(lines, block).value.body, block)
    ensures Cut(lines, block).value.Lines() == lines
  {
    var start, end := CutFound(lines, block);
    SoleMarker(lines, OuterStart(block), start);
    SoleMarker(lines, OuterEnd(block), end);
    FramedAt(lines, start, end, block);
  }

  /** Replacing the body by lines without outer markers moves nothing else. */
  lemma Recut(b: Block, block: string)
    requires Framed(b, block) && NoOuter(b.body, block)
    ensures Cut(b.Lines(), block) == Ok(b)
  {
    var lines, start, end := b.Lines(), |b.pre| - 1, |b.pre| + |b.body|;
    forall i | 0 <= i < |lines|
      ensures Trim(lines[i]) == OuterStart(block) <==> i == start
      ensures Trim(lines[i]) == OuterEnd(block) <==> i == end
    {
      OuterMarkerAt(b, block, i);
    }
    OnlyPosition(lines, OuterStart(block), start);
    OnlyPosition(lines, OuterEnd(block), end);
    BlockSlices(b);
  }

  /** Line `i` of a framed block is an outer marker only where the frame says. */
  lemma OuterMarkerAt(b: Block, block: string, i: nat)
    requires Framed(b, block) && NoOuter(b.body, block) && i < |b.Lines()|
    ensures Trim(b.Lines()[i]) == OuterStart(block) <==> i == |b.pre| - 1
    ensures Trim(b.Lines()[i]) == OuterEnd(block) <==> i == |b.pre| + |b.body|
  {
    var start, end := |b.pre| - 1, |b.pre| + |b.body|;
    assert |OuterStart(block)| != |OuterEnd(block)|;
    if i < start {
      assert b.Lines()[i] == b.pre[..start][i];
    } else if start < i < end {
      assert b.Lines()[i] == b.body[i - |b.pre|];
    } else if end < i {
      assert b.Lines()[i] == b.post[1..][i - end - 1];
    }
  }

  lemma BlockSlices(b: Block)
    ensures var (lines, end) := (b.Lines(), |b.pre| + |b.body|);
            lines[..|b.pre|] == b.pre && lines[|b.pre|..end] == b.body && lines[end..] == b.post
  {
  }

  // ---- Planning ----

  /** The entry's markers stand outside the block. */
  predicate ExistsOutside(b: Block, block: string, key: string)
    requires b.pre != [] && b.post != []
  {
    var outside := b.pre[..|b.pre| - 1] + b.post[1..];
    exists i :: 0 <= i < |outside| && Trim(outside[i]) in {EntryStart(block, key), EntryEnd(block, key)}
  }

  /** The segments of a block whose keys are unique and sorted. */
  function Sorted(body: seq<string>, block: string): Result<seq<Segment>> {
    match Parse(body, block)
    case Err(e) => Err(e)
    case Ok(segments) =>
      if Distinct(Keys(segments)) != |Keys(segments)| then Err(DuplicateRegistration)
      else if !Ascending(Keys(segments)) then Err(ReorderedRegistrations)
      else Ok(segments)
  }

  function NewEntry(b: Block, block: string, key: string, entry: string): (e: Segment)
    requires b.pre != []
    ensures e.Keyed? && e.key == key
  {
    Entry(Indentation(b.pre[|b.pre| - 1]), block, key, entry)
  }

  /** The block after planning, or nothing if the key is already there. */
  function PlanBlock(b: Block, block: string, key: string, entry: string): Result<Option<Block>>
    requires b.pre != [] && b.post != []
  {
    if ExistsOutside(b, block, key) then Err(ExistingOutsideManagedBlock)
    else
      match Sorted(b.body, block)
      case Err(e) => Err(e)
      case Ok(segments) =>
        if key in Keys(segments) then Ok(None)
        else Ok(Some(b.(body := Unparse(Insert(segments, NewEntry(b, block, key, entry))))))
  }

  function Plan(text: string, block: string, key: string, entry: string): Result<Outcome> {
    if !ValidRequest(block, key, entry) then Err(InvalidInput)
    else
      match Read(text)
      case None => Err(InvalidSource)
      case Some(source) =>
        match Cut(source.lines, block)
        case Err(e) => Err(e)
        case Ok(b) =>
          CutFrames(source.lines, block);
          match PlanBlock(b, block, key, entry)
          case Err(e) => Err(e)
          case Ok(None) => Ok(AlreadyPresent)
          case Ok(Some(after)) => Ok(Planned(Write(source.(lines := after.Lines()))))
  }

  /** Everything a successful plan is made of. */
  ghost predicate PlannedFrom(text: string, block: string, key: string, entry: string,
                              source: Source, b: Block, segments: seq<Segment>, result: string)
  {
    && ValidRequest(block, key, entry) && Read(text) == Some(source) && WellFormed(source) && Write(source) == text
    && Cut(source.lines, block) == Ok(b) && Framed(b, block) && b.Lines() == source.lines
    && !ExistsOutside(b, block, key)
    && Sorted(b.body, block) == Ok(segments) && Unparse(segments) == b.body && AllProper(segments, block)
    && key !in Keys(segments)
    && result == Write(source.(lines := b.(body := Unparse(Insert(segments, NewEntry(b, block, key, entry)))).Lines()))
  }

  lemma ExplainPlan(text: string, block: string, key: string, entry: string)
    returns (source: Source, b: Block, segments: seq<Segment>)
    requires Plan(text, block, key, entry).Ok? && Plan(text, block, key, entry).value.Planned?
    ensures PlannedFrom(text, block, key, entry, source, b, segments, Plan(text, block, key, entry).value.text)
  {
    ReadThenWrite(text);
    source := Read(text).value;
    CutFrames(source.lines, block);
    b := Cut(source.lines, block).value;
    segments := Sorted(b.body, block).value;
    ParseThenUnparse(b.body, block);
  }

  lemma {:induction false} InsertProper(segments: seq<Segment>, e: Segment, block: string)
    requires AllProper(segments, block) && e.Keyed? && Proper(e, block)
    ensures AllProper(Insert(segments, e), block)
  {
    if segments == [] {
      assert [e][1..] == [];
    } else if segments[0].Keyed? && Less(e.key, segments[0].key) {
      assert ([e] + segments)[1..] == segments;
    } else {
      InsertProper(segments[1..], e, block);
      assert ([segments[0]] + Insert(segments[1..], e))[1..] == Insert(segments[1..], e);
    }
  }

  /** The longer segment list is what parsing its printed form gives. */
  lemma ReparseInserted(segments: seq<Segment>, e: Segment, block: string)
    requires ValidIdentifier(block) && AllProper(segments, block) && Ascending(Keys(segments))
    requires e.Keyed? && Proper(e, block) && e.key !in Keys(segments)
    ensures Sorted(Unparse(Insert(segments, e)), block) == Ok(Insert(segments, e))
  {
    var longer := Insert(segments, e);
    InsertProper(segments, e, block);
    UnparseThenParse(longer, block);
    InsertKeepsOrder(segments, e);
    AscendingIsDistinct(Keys(longer));
  }

  /** Lines with a new body in the middle are still regular. */
  lemma RegularSplice(b: Block, body: seq<string>, final: bool)
    requires b.pre != [] && b.post != [] && Regular(b.Lines(), final)
    requires forall line :: line in body ==> Plain(line)
    ensures Regular(b.(body := body).Lines(), final) && |b.(body := body).Lines()| >= 2
  {
    var lines, old_ := b.(body := body).Lines(), b.Lines();
    forall i | 0 <= i < |lines| ensures Plain(lines[i]) {
      if i < |b.pre| {
        assert lines[i] == old_[i];
      } else if i < |b.pre| + |body| {
        assert lines[i] == body[i - |b.pre|];
      } else {
        assert lines[i] == old_[i - |body| + |b.body|];
      }
    }
    assert lines[|lines| - 1] == old_[|old_| - 1];
  }

  lemma RecutInserted(b: Block, block: string, segments: seq<Segment>, e: Segment)
    requires Framed(b, block) && NoOuter(b.body, block) && Unparse(segments) == b.body
    requires e.Keyed? && forall line :: line in e.lines ==> !OuterMarker(line, block)
    ensures var after := b.(body := Unparse(Insert(segments, e)));
            Cut(after.Lines(), block) == Ok(after) && Framed(after, block)
  {
    var after := b.(body := Unparse(Insert(segments, e)));
    InsertMembers(segments, e);
    forall i | 0 <= i < |after.body| ensures !OuterMarker(after.body[i], block) {
      assert after.body[i] in Unparse(Insert(segments, e));
      if after.body[i] in b.body {
        var j :| 0 <= j < |b.body| && b.body[j] == after.body[i];
      }
    }
    Recut(after, block);
  }

  lemma PlainInserted(b: Block, segments: seq<Segment>, e: Segment, final: bool)
    requires b.pre != [] && b.post != [] && Regular(b.Lines(), final) && Unparse(segments) == b.body
    requires e.Keyed? && forall line :: line in e.lines ==> Plain(line)
    ensures var after := b.(body := Unparse(Insert(segments, e)));
            Regular(after.Lines(), final) && |after.Lines()| >= 2
  {
    InsertMembers(segments, e);
    var body := Unparse(Insert(segments, e));
    forall line | line in body ensures Plain(line) {
      if line in b.body {
        var j :| 0 <= j < |b.body| && b.body[j] == line;
        assert b.body[j] == b.Lines()[|b.pre| + j];
      }
    }
    RegularSplice(b, body, final);
  }

  /** The new entry is proper, harmless to the outer markers, and made of plain lines. */
  lemma NewEntryIsProper(b: Block, block: string, key: string, entry: string, final: bool)
    requires b.pre != [] && Regular(b.Lines(), final) && ValidRequest(block, key, entry)
    ensures var e := NewEntry(b, block, key, entry);
            Proper(e, block) && forall line :: line in e.lines ==> !OuterMarker(line, block) && Plain(line)
  {
    var startLine := b.pre[|b.pre| - 1];
    assert startLine == b.Lines()[|b.pre| - 1] && Plain(startLine);
    GeneratedIsProper(Indentation(startLine), block, key, entry);
    GeneratedIsPlain(Indentation(startLine), block, key, entry);
  }

  /** The planned file is read, cut and parsed again as the old block with one more segment. */
  lemma RereadPlan(text: string, block: string, key: string, entry: string,
                   source: Source, b: Block, segments: seq<Segment>, result: string)
    requires PlannedFrom(text, block, key, entry, source, b, segments, result)
    ensures var longer := Insert(segments, NewEntry(b, block, key, entry));
            var after := b.(body := Unparse(longer));
            && Read(result) == Some(source.(lines := after.Lines()))
            && Cut(after.Lines(), block) == Ok(after) && Framed(after, block)
            && Sorted(after.body, block) == Ok(longer)
  {
    var e := NewEntry(b, block, key, entry);
    NewEntryIsProper(b, block, key, entry, source.final);
    ReparseInserted(segments, e, block);
    assert NoOuter(b.body, block) by {
      CutFrames(source.lines, block);
    }
    RecutInserted(b, block, segments, e);
    PlainInserted(b, segments, e, source.final);
    WriteThenRead(source.(lines := b.(body := Unparse(Insert(segments, e))).Lines()));
  }
}
