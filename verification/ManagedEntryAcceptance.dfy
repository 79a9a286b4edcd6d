/** Which files and requests `plan_rust_managed_entry` accepts, and why it refuses the others. */
module ManagedEntryAcceptance {
  import opened Content
  import opened TextLines
  import opened ManagedEntry
  import opened ManagedEntryPlanner

  /** The block's markers stand on these two lines and nowhere else. */
  ghost predicate BlockAt(lines: seq<string>, block: string, start: nat, end: nat) {
    && start < end < |lines|
    && (forall i :: 0 <= i < |lines| ==> (Trim(lines[i]) == OuterStart(block) <==> i == start))
    && (forall i :: 0 <= i < |lines| ==> (Trim(lines[i]) == OuterEnd(block) <==> i == end))
  }

  /** No marker of the key's entry stands before or behind the block. */
  ghost predicate NoneOutside(lines: seq<string>, block: string, start: nat, end: nat, key: string) {
    forall i :: 0 <= i < |lines| && (i < start || end < i) ==>
      Trim(lines[i]) != EntryStart(block, key) && Trim(lines[i]) != EntryEnd(block, key)
  }

  /** The lines of the block are blank lines and well-formed entries with strictly ascending keys. */
  ghost predicate Entries(lines: seq<string>, block: string, start: nat, end: nat, segments: seq<Segment>) {
    && start < end <= |lines| && Unparse(segments) == lines[start + 1..end]
    && AllProper(segments, block) && Ascending(Keys(segments))
  }

  lemma CutAt(lines: seq<string>, block: string, start: nat, end: nat)
    requires BlockAt(lines, block, start, end)
    ensures Cut(lines, block) == Ok(Block(lines[..start + 1], lines[start + 1..end], lines[end..]))
  {
    OnlyPosition(lines, OuterStart(block), start);
    OnlyPosition(lines, OuterEnd(block), end);
  }

  lemma CutIsAt(lines: seq<string>, block: string) returns (start: nat, end: nat)
    requires Cut(lines, block).Ok?
    ensures BlockAt(lines, block, start, end)
    ensures Cut(lines, block) == Ok(Block(lines[..start + 1], lines[start + 1..end], lines[end..]))
  {
    start, end := CutFound(lines, block);
    SoleMarker(lines, OuterStart(block), start);
    SoleMarker(lines, OuterEnd(block), end);
  }

  /** The check for markers outside the block, line by line. */
  lemma OutsideExactly(lines: seq<string>, block: string, start: nat, end: nat, key: string)
    requires start < end < |lines|
    ensures ExistsOutside(Block(lines[..start + 1], lines[start + 1..end], lines[end..]), block, key) <==>
            !NoneOutside(lines, block, start, end, key)
  {
    var b := Block(lines[..start + 1], lines[start + 1..end], lines[end..]);
    var outside := b.pre[..|b.pre| - 1] + b.post[1..];
    var markers := {EntryStart(block, key), EntryEnd(block, key)};
    if ExistsOutside(b, block, key) {
      var j :| 0 <= j < |outside| && Trim(outside[j]) in markers;
      assert outside[j] == lines[if j < start then j else j - start + end + 1];
    }
    if !NoneOutside(lines, block, start, end, key) {
      var i :| 0 <= i < |lines| && (i < start || end < i) && Trim(lines[i]) in markers;
      var j := if i < start then i else start + i - end - 1;
      assert outside[j] == lines[i];
    }
  }

  /** What planning says of a block with these entries. */
  lemma PlanOfEntries(text: string, block: string, key: string, entry: string, start: nat, end: nat,
                      segments: seq<Segment>)
    requires ValidRequest(block, key, entry) && Read(text).Some?
    requires BlockAt(Read(text).value.lines, block, start, end)
    requires NoneOutside(Read(text).value.lines, block, start, end, key)
    requires Entries(Read(text).value.lines, block, start, end, segments)
    ensures Plan(text, block, key, entry).Ok?
    ensures Plan(text, block, key, entry).value.AlreadyPresent? <==> key in Keys(segments)
  {
    var lines := Read(text).value.lines;
    CutAt(lines, block, start, end);
    CutFrames(lines, block);
    OutsideExactly(lines, block, start, end, key);
    UnparseThenParse(segments, block);
    AscendingIsDistinct(Keys(segments));
    PlanOf(text, block, key, entry, Read(text).value, Cut(lines, block).value, segments);
  }

  /**
   * Planning succeeds exactly for a valid request on consistently terminated text with one block, none of the key's
   * markers outside it, and well-formed entries in order inside; the key is then inserted exactly if it is absent.
   */
  lemma PlanAccepts(text: string, block: string, key: string, entry: string, start: nat, end: nat,
                    segments: seq<Segment>)
    requires ValidRequest(block, key, entry) && ('\r' !in text || Paired(text))
    ensures Read(text).Some?
    ensures var lines := Read(text).value.lines;
            BlockAt(lines, block, start, end) && NoneOutside(lines, block, start, end, key)
            && Entries(lines, block, start, end, segments) ==>
              && Plan(text, block, key, entry).Ok?
              && (Plan(text, block, key, entry).value.Planned? <==> key !in Keys(segments))
  {
    ReadExactly(text);
    var lines := Read(text).value.lines;
    if BlockAt(lines, block, start, end) && NoneOutside(lines, block, start, end, key)
       && Entries(lines, block, start, end, segments) {
      PlanOfEntries(text, block, key, entry, start, end, segments);
    }
  }

  /** And it succeeds for nothing else. */
  lemma PlanAcceptsOnly(text: string, block: string, key: string, entry: string)
    returns (start: nat, end: nat, segments: seq<Segment>)
    requires Plan(text, block, key, entry).Ok?
    ensures ValidRequest(block, key, entry) && ('\r' !in text || Paired(text)) && Read(text).Some?
    ensures BlockAt(Read(text).value.lines, block, start, end)
    ensures NoneOutside(Read(text).value.lines, block, start, end, key)
    ensures Entries(Read(text).value.lines, block, start, end, segments)
  {
    ReadExactly(text);
    var lines := Read(text).value.lines;
    CutFrames(lines, block);
    start, end := CutIsAt(lines, block);
    OutsideExactly(lines, block, start, end, key);
    var body := lines[start + 1..end];
    segments := Sorted(body, block).value;
    ParseThenUnparse(body, block);
  }

  /** A short name of lower-case letters, digits, hyphens and underscores. */
  ghost predicate MarkerName(value: string) {
    && 0 < |value| <= 128
    && forall c :: c in value ==> 'a' <= c <= 'z' || '0' <= c <= '9' || c in {'-', '_'}
  }

  /** Some text other than white space, without carriage returns and without anything that looks like a marker. */
  ghost predicate EntryText(entry: string) {
    && (exists c :: c in entry && !IsWhite(c)) && '\r' !in entry
    && forall before, behind :: entry != before + HEGIRA + behind
  }

  /** A request is refused as such exactly if a name or the entry is not of the form required. */
  lemma InvalidInputExactly(text: string, block: string, key: string, entry: string)
    ensures Plan(text, block, key, entry) == Err(InvalidInput) <==>
            !(MarkerName(block) && MarkerName(key) && EntryText(entry))
  {
    NameExactly(block);
    NameExactly(key);
    EntryTextExactly(entry);
    if ValidRequest(block, key, entry) {
      LaterErrors(text, block, key, entry);
    }
  }

  lemma NameExactly(value: string)
    ensures ValidIdentifier(value) <==> MarkerName(value)
  {
    if MarkerName(value) {
      forall i | 0 <= i < |value| ensures IdentifierChar(value[i]) {
        assert value[i] in value;
      }
    }
  }

  lemma EntryTextExactly(entry: string)
    ensures EntryText(entry) <==> Trim(entry) != [] && !Contains(entry, HEGIRA) && '\r' !in entry
  {
    BlankExactly(entry);
    ContainsExactly(entry, HEGIRA);
  }

  lemma BlankExactly(s: string)
    ensures Trim(s) != [] <==> exists c :: c in s && !IsWhite(c)
  {
    var before, behind := TrimExactly(s);
    if Trim(s) != [] {
      assert Trim(s)[0] in s;
    } else {
      assert s == before + behind;
    }
  }

  lemma ContainsExactly(s: string, part: string)
    ensures Contains(s, part) <==> exists before, behind :: s == before + part + behind
  {
    if Contains(s, part) {
      var i :| 0 <= i <= |s| && OccursAt(s, i, part);
      assert s == s[..i] + part + s[i + |part|..];
    }
    if exists before, behind :: s == before + part + behind {
      var before, behind :| s == before + part + behind;
      assert s[|before|..] == part + behind;
      assert OccursAt(s, |before|, part);
    }
  }

  /** A text is refused as such exactly if its newlines are mixed. */
  lemma InvalidSourceExactly(text: string, block: string, key: string, entry: string)
    requires ValidRequest(block, key, entry)
    ensures Plan(text, block, key, entry) == Err(InvalidSource) <==> '\r' in text && !Paired(text)
  {
    ReadExactly(text);
    LaterErrors(text, block, key, entry);
  }

  /** A block is reported missing exactly if no line is its start, or none its end. */
  lemma MissingBlockExactly(text: string, block: string, key: string, entry: string)
    requires ValidRequest(block, key, entry) && Read(text).Some?
    ensures Plan(text, block, key, entry) == Err(MissingIntegrationPoint) <==>
            Absent(Read(text).value.lines, OuterStart(block)) || Absent(Read(text).value.lines, OuterEnd(block))
  {
    CutMissing(Read(text).value.lines, block);
    LaterErrors(text, block, key, entry);
  }

  lemma CutMissing(lines: seq<string>, block: string)
    ensures Cut(lines, block) == Err(MissingIntegrationPoint) <==>
            Absent(lines, OuterStart(block)) || Absent(lines, OuterEnd(block))
  {
    AbsentExactly(lines, OuterStart(block));
    AbsentExactly(lines, OuterEnd(block));
  }

  /** The errors left once the request is valid. */
  lemma LaterErrors(text: string, block: string, key: string, entry: string)
    requires ValidRequest(block, key, entry)
    ensures Read(text).None? ==> Plan(text, block, key, entry) == Err(InvalidSource)
    ensures Read(text).Some? && Cut(Read(text).value.lines, block).Err? ==>
              Plan(text, block, key, entry) == Err(Cut(Read(text).value.lines, block).kind)
    ensures Read(text).Some? && Cut(Read(text).value.lines, block).Ok? && Plan(text, block, key, entry).Err? ==>
              Plan(text, block, key, entry).kind in BODY_ERRORS
  {
    if Read(text).Some? && Cut(Read(text).value.lines, block).Ok? {
      var lines := Read(text).value.lines;
      CutFrames(lines, block);
      var b := Cut(lines, block).value;
      PlanVia(text, block, key, entry, Read(text).value, b);
      BlockErrors(b, block, key, entry);
    }
  }

  const BODY_ERRORS :=
    {ExistingOutsideManagedBlock, AmbiguousIntegrationPoint, DuplicateRegistration, ReorderedRegistrations}

  lemma BlockErrors(b: Block, block: string, key: string, entry: string)
    requires b.pre != [] && b.post != []
    ensures PlanBlock(b, block, key, entry).Err? ==> PlanBlock(b, block, key, entry).kind in BODY_ERRORS
    ensures PlanBlock(b, block, key, entry) == Err(ExistingOutsideManagedBlock) <==> ExistsOutside(b, block, key)
  {
    if !ExistsOutside(b, block, key) {
      PlanBlockParsed(b, block, key, entry);
      ParseErrors(b.body, block);
    }
  }

  ghost predicate Absent(lines: seq<string>, marker: string) {
    forall i :: 0 <= i < |lines| ==> Trim(lines[i]) != marker
  }

  lemma AbsentExactly(lines: seq<string>, marker: string)
    ensures Positions(lines, marker) == [] <==> Absent(lines, marker)
  {
    PositionsAreMarkers(lines, marker);
    if Positions(lines, marker) != [] {
      assert Positions(lines, marker)[0] in Positions(lines, marker);
    }
  }

  /** A marker of the entry outside its block is refused as such. */
  lemma OutsideIsRefused(text: string, block: string, key: string, entry: string, start: nat, end: nat)
    requires ValidRequest(block, key, entry) && Read(text).Some?
    requires BlockAt(Read(text).value.lines, block, start, end)
    ensures Plan(text, block, key, entry) == Err(ExistingOutsideManagedBlock) <==>
            !NoneOutside(Read(text).value.lines, block, start, end, key)
  {
    var lines := Read(text).value.lines;
    var b := Block(lines[..start + 1], lines[start + 1..end], lines[end..]);
    CutAt(lines, block, start, end);
    OutsideExactly(lines, block, start, end, key);
    PlanVia(text, block, key, entry, Read(text).value, b);
    BlockErrors(b, block, key, entry);
  }

  lemma {:induction false} ParseErrors(body: seq<string>, block: string)
    ensures Parse(body, block).Err? ==> Parse(body, block).kind == AmbiguousIntegrationPoint
    decreases |body|
  {
    if body != [] && First(body, block).Ok? {
      ParseErrors(body[|First(body, block).value.Lines()|..], block);
    }
  }

  /** Keys are refused as duplicate exactly if one occurs twice, and as reordered exactly if they only do not ascend. */
  lemma KeysRefusedExactly(keys: seq<string>, key: string)
    ensures Present(keys, key) == Err(DuplicateRegistration) <==> Repeated(keys)
    ensures Present(keys, key) == Err(ReorderedRegistrations) <==> !Repeated(keys) && !Ascending(keys)
    ensures Present(keys, key).Ok? ==> Present(keys, key).value == (key in keys)
  {
    DistinctExactly(keys);
  }

  ghost predicate Repeated(keys: seq<string>) {
    exists i, j :: 0 <= i < j < |keys| && keys[i] == keys[j]
  }

  lemma {:induction false} DistinctExactly(keys: seq<string>)
    ensures Distinct(keys) <= |keys|
    ensures Distinct(keys) == |keys| <==> !Repeated(keys)
  {
    if keys != [] {
      var init, last := keys[..|keys| - 1], keys[|keys| - 1];
      DistinctExactly(init);
      DistinctSnoc(init, last);
      RepeatedSnoc(init, last);
      assert keys == init + [last];
    }
  }

  lemma DistinctSnoc(init: seq<string>, last: string)
    ensures Distinct(init + [last]) == Distinct(init) + if last in init then 0 else 1
  {
    var few := set k | k in init;
    assert (set k | k in init + [last]) == few + {last};
    assert last in init <==> last in few;
    assert last in few ==> few + {last} == few;
  }

  lemma RepeatedSnoc(init: seq<string>, last: string)
    ensures Repeated(init + [last]) <==> Repeated(init) || last in init
  {
    var keys := init + [last];
    if Repeated(keys) {
      var i, j :| 0 <= i < j < |keys| && keys[i] == keys[j];
      if j < |init| {
        assert init[i] == init[j];
      } else {
        assert init[i] == last;
      }
    }
    if Repeated(init) {
      var i, j :| 0 <= i < j < |init| && init[i] == init[j];
      assert keys[i] == keys[j];
    } else if last in init {
      var i :| 0 <= i < |init| && init[i] == last;
      assert keys[i] == keys[|init|];
    }
  }
}
