/** The planner's cursor loop, and what its plans guarantee about whole files. */
module ManagedEntryPlanner {
  import opened Content
  import opened TextOrder
  import opened TextLines
  import opened ManagedEntry

  // ---- Where the new lines go ----

  /** The number of body lines before the insertion point. */
  function Offset(segments: seq<Segment>, key: string): nat {
    if segments == [] then 0
    else if segments[0].Keyed? && Less(key, segments[0].key) then 0
    else |segments[0].Lines()| + Offset(segments[1..], key)
  }

  /** `longer` is `body` with `run` inserted after `k` lines. */
  ghost predicate Spliced(body: seq<string>, k: nat, run: seq<string>, longer: seq<string>) {
    k <= |body| && longer == body[..k] + run + body[k..]
  }

  lemma {:induction false} InsertSplits(segments: seq<Segment>, e: Segment)
    requires e.Keyed?
    ensures Spliced(Unparse(segments), Offset(segments, e.key), e.lines, Unparse(Insert(segments, e)))
  {
    if segments == [] {
      assert [e][1..] == [];
      assert Unparse([e]) == e.lines;
    } else if segments[0].Keyed? && Less(e.key, segments[0].key) {
      assert ([e] + segments)[1..] == segments;
      assert Unparse([e] + segments) == e.lines + Unparse(segments);
    } else {
      InsertSplits(segments[1..], e);
      var head, rest := segments[0].Lines(), Insert(segments[1..], e);
      assert ([segments[0]] + rest)[1..] == rest;
      assert Unparse([segments[0]] + rest) == head + Unparse(rest);
      SplitBehind(head, Unparse(segments[1..]), Offset(segments[1..], e.key), e.lines, Unparse(rest));
    }
  }

  lemma SplitBehind(head: seq<string>, body: seq<string>, k: nat, run: seq<string>, longer: seq<string>)
    requires Spliced(body, k, run, longer)
    ensures Spliced(head + body, |head| + k, run, head + longer)
  {
    assert (head + body)[..|head| + k] == head + body[..k];
    assert (head + body)[|head| + k..] == body[k..];
  }

  // ---- Guarantees of a plan ----

  /** The white space a line begins with. */
  ghost predicate Indents(indent: string, line: string) {
    AllWhite(indent) && indent <= line && |indent| < |line| && !IsWhite(line[|indent|])
  }

  /** The lines of an entry between its markers, all indented; empty lines stay empty. */
  ghost predicate EntryWritten(run: seq<string>, indent: string, block: string, key: string, entry: string) {
    && |run| == |Lines(entry)| + 2
    && run[0] == indent + EntryStart(block, key) && run[|run| - 1] == indent + EntryEnd(block, key)
    && forall i :: 0 <= i < |Lines(entry)| ==>
         run[i + 1] == if Lines(entry)[i] == [] then [] else indent + Lines(entry)[i]
  }

  /**
   * A planned file is the original with one contiguous run of lines inserted inside the block; deleting that run
   * gives the original bytes back, with the same newline style and the same last newline. The run is the entry's
   * text, line by line, between its markers and with the indentation of the block; joining the lines gives the entry
   * back.
   */
  lemma PlanInsertsOneRun(text: string, block: string, key: string, entry: string)
    returns (at: nat, run: seq<string>, indent: string)
    requires Plan(text, block, key, entry).Ok? && Plan(text, block, key, entry).value.Planned?
    ensures
      var result := Plan(text, block, key, entry).value.text;
      && result != text && Read(text).Some? && Read(result).Some?
      && var (before, after) := (Read(text).value, Read(result).value);
      && before.newline == after.newline && before.final == after.final
      && |run| >= 2 && RunInserted(before.lines, after.lines, at, run)
      && Write(after.(lines := after.lines[..at] + after.lines[at + |run|..])) == text
      && Cut(before.lines, block).Ok?
      && var (pre, post) := (Cut(before.lines, block).value.pre, Cut(before.lines, block).value.post);
      && |pre| <= at <= |before.lines| - |post|
      && pre != [] && Indents(indent, pre[|pre| - 1])
    ensures EntryWritten(run, indent, block, key, entry)
    ensures Restore(Lines(entry), "\n", EndsLf(entry)) == entry
  {
    var source, b, segments := ExplainPlan(text, block, key, entry);
    at, run, indent := OneRun(text, block, key, entry, source, b, segments, Plan(text, block, key, entry).value.text);
    LinesRestore(entry);
  }

  lemma OneRun(text: string, block: string, key: string, entry: string,
               source: Source, b: Block, segments: seq<Segment>, result: string)
    returns (at: nat, run: seq<string>, indent: string)
    requires PlannedFrom(text, block, key, entry, source, b, segments, result)
    ensures EntryWritten(run, indent, block, key, entry) && Indents(indent, b.pre[|b.pre| - 1])
    ensures |b.pre| <= at <= |b.pre| + |b.body|
    ensures Read(result).Some?
    ensures Read(result).value.newline == source.newline && Read(result).value.final == source.final
    ensures RunInserted(source.lines, Read(result).value.lines, at, run)
  {
    RereadPlan(text, block, key, entry, source, b, segments, result);
    run := NewEntry(b, block, key, entry).lines;
    indent := WritesTheEntry(b, block, key, entry);
    at := InsertedRun(b, segments, NewEntry(b, block, key, entry));
  }

  lemma WritesTheEntry(b: Block, block: string, key: string, entry: string) returns (indent: string)
    requires Framed(b, block)
    ensures EntryWritten(NewEntry(b, block, key, entry).lines, indent, block, key, entry)
    ensures Indents(indent, b.pre[|b.pre| - 1])
  {
    var line := b.pre[|b.pre| - 1];
    indent := Indentation(line);
    IndentationIndents(line, block);
    var run, inner := NewEntry(b, block, key, entry).lines, IndentLines(indent, Lines(entry));
    assert forall i :: 0 <= i < |inner| ==> run[i + 1] == inner[i];
  }

  lemma IndentationIndents(line: string, block: string)
    requires Trim(line) == OuterStart(block)
    ensures Indents(Indentation(line), line)
  {
    TrimStartSplit(line);
    TrimStartStops(line);
    assert TrimStart(line) != [];
  }

  /** `after` is `before` with `run` inserted at `at`. */
  ghost predicate RunInserted(before: seq<string>, after: seq<string>, at: nat, run: seq<string>) {
    at + |run| <= |after| && after[at..at + |run|] == run && before == after[..at] + after[at + |run|..]
  }

  lemma InsertedRun(b: Block, segments: seq<Segment>, e: Segment) returns (at: nat)
    requires e.Keyed? && Unparse(segments) == b.body
    ensures |b.pre| <= at <= |b.pre| + |b.body|
    ensures RunInserted(b.Lines(), b.(body := Unparse(Insert(segments, e))).Lines(), at, e.lines)
  {
    InsertSplits(segments, e);
    at := RunIn(b, Offset(segments, e.key), e.lines, Unparse(Insert(segments, e)));
  }

  lemma RunIn(b: Block, k: nat, run: seq<string>, longer: seq<string>) returns (at: nat)
    requires Spliced(b.body, k, run, longer)
    ensures |b.pre| <= at <= |b.pre| + |b.body| && RunInserted(b.Lines(), b.(body := longer).Lines(), at, run)
  {
    at := |b.pre| + k;
    SpliceRemoves(b.pre, b.body, k, run, longer, b.post);
  }

  /** Deleting an inserted run gives the lines back. */
  lemma SpliceRemoves(pre: seq<string>, body: seq<string>, k: nat, run: seq<string>, longer: seq<string>,
                      post: seq<string>)
    requires Spliced(body, k, run, longer)
    ensures RunInserted(pre + body + post, pre + longer + post, |pre| + k, run)
  {
    var lines, at := pre + longer + post, |pre| + k;
    assert lines[..at] == pre + body[..k];
    assert lines[at + |run|..] == body[k..] + post;
    assert body == body[..k] + body[k..];
  }

  /** The keys of the block are the old ones and the new one, strictly sorted. */
  lemma PlannedKeysStaySorted(text: string, block: string, key: string, entry: string)
    requires Plan(text, block, key, entry).Ok? && Plan(text, block, key, entry).value.Planned?
    ensures
      var result := Plan(text, block, key, entry).value.text;
      && Read(text).Some? && Read(result).Some?
      && var (old_, new_) := (Cut(Read(text).value.lines, block), Cut(Read(result).value.lines, block));
      && old_.Ok? && new_.Ok?
      && Parse(old_.value.body, block).Ok? && Parse(new_.value.body, block).Ok?
      && var (was, now) := (Keys(Parse(old_.value.body, block).value), Keys(Parse(new_.value.body, block).value));
      && Ascending(was) && Ascending(now) && key !in was && forall k :: k in now <==> k in was || k == key
  {
    var source, b, segments := ExplainPlan(text, block, key, entry);
    RereadPlan(text, block, key, entry, source, b, segments, Plan(text, block, key, entry).value.text);
    InsertMembers(segments, NewEntry(b, block, key, entry));
  }

  /** What planning gives on a file that has been read, cut and parsed. */
  lemma PlanOf(text: string, block: string, key: string, entry: string, source: Source, b: Block,
               segments: seq<Segment>)
    requires ValidRequest(block, key, entry) && Read(text) == Some(source)
    requires Cut(source.lines, block) == Ok(b) && Framed(b, block) && !ExistsOutside(b, block, key)
    requires Sorted(b.body, block) == Ok(segments)
    ensures var after := b.(body := Unparse(Insert(segments, NewEntry(b, block, key, entry))));
            Plan(text, block, key, entry) ==
            if key in Keys(segments) then Ok(AlreadyPresent)
            else Ok(Planned(Write(source.(lines := after.Lines()))))
  {
  }

  /** What stands outside a block does not depend on its body. */
  lemma OutsideKept(b: Block, body: seq<string>, block: string, key: string, entry: string)
    requires b.pre != [] && b.post != []
    ensures ExistsOutside(b.(body := body), block, key) == ExistsOutside(b, block, key)
    ensures NewEntry(b.(body := body), block, key, entry) == NewEntry(b, block, key, entry)
  {
  }

  /** Planning the same key on the planned file, with whatever entry, finds it already present. */
  lemma PlanningAgainFindsTheEntry(text: string, block: string, key: string, entry: string, again: string)
    requires Plan(text, block, key, entry).Ok? && Plan(text, block, key, entry).value.Planned?
    requires ValidRequest(block, key, again)
    ensures Plan(Plan(text, block, key, entry).value.text, block, key, again) == Ok(AlreadyPresent)
  {
    var source, b, segments := ExplainPlan(text, block, key, entry);
    PlanAgain(text, block, key, entry, again, source, b, segments, Plan(text, block, key, entry).value.text);
  }

  lemma PlanAgain(text: string, block: string, key: string, entry: string, again: string,
                  source: Source, b: Block, segments: seq<Segment>, result: string)
    requires PlannedFrom(text, block, key, entry, source, b, segments, result) && ValidRequest(block, key, again)
    ensures Plan(result, block, key, again) == Ok(AlreadyPresent)
  {
    RereadPlan(text, block, key, entry, source, b, segments, result);
    InsertMembers(segments, NewEntry(b, block, key, entry));
    var longer := Insert(segments, NewEntry(b, block, key, entry));
    var after := b.(body := Unparse(longer));
    OutsideKept(b, after.body, block, key, again);
    PlanOf(result, block, key, again, source.(lines := after.Lines()), after, longer);
  }

  /** Planning a second key on the planned file inserts it into the longer segment list. */
  lemma PlanSecond(text: string, block: string, a: string, entryA: string, b: string, entryB: string,
                   source: Source, cut: Block, segments: seq<Segment>, first: string)
    requires PlannedFrom(text, block, a, entryA, source, cut, segments, first)
    requires ValidRequest(block, b, entryB) && a != b && b !in Keys(segments) && !ExistsOutside(cut, block, b)
    ensures var both := Insert(Insert(segments, NewEntry(cut, block, a, entryA)), NewEntry(cut, block, b, entryB));
            Plan(first, block, b, entryB) == Ok(Planned(Write(source.(lines := cut.(body := Unparse(both)).Lines()))))
  {
    RereadPlan(text, block, a, entryA, source, cut, segments, first);
    InsertMembers(segments, NewEntry(cut, block, a, entryA));
    var longer := Insert(segments, NewEntry(cut, block, a, entryA));
    var after := cut.(body := Unparse(longer));
    OutsideKept(cut, after.body, block, b, entryB);
    PlanOf(first, block, b, entryB, source.(lines := after.Lines()), after, longer);
  }

  /** Two absent keys planned into one block in either order give byte-identical files. */
  lemma PlansCommute(text: string, block: string, a: string, entryA: string, b: string, entryB: string)
    requires a != b
    requires Plan(text, block, a, entryA).Ok? && Plan(text, block, a, entryA).value.Planned?
    requires Plan(text, block, b, entryB).Ok? && Plan(text, block, b, entryB).value.Planned?
    ensures
      var ab := Plan(Plan(text, block, a, entryA).value.text, block, b, entryB);
      var ba := Plan(Plan(text, block, b, entryB).value.text, block, a, entryA);
      ab.Ok? && ab.value.Planned? && ab == ba
  {
    var source, cut, segments := ExplainPlan(text, block, a, entryA);
    var source', cut', segments' := ExplainPlan(text, block, b, entryB);
    PlanSecond(text, block, a, entryA, b, entryB, source, cut, segments, Plan(text, block, a, entryA).value.text);
    PlanSecond(text, block, b, entryB, a, entryA, source, cut, segments, Plan(text, block, b, entryB).value.text);
    InsertCommutes(segments, NewEntry(cut, block, a, entryA), NewEntry(cut, block, b, entryB));
  }

  // ---- The cursor loop ----

  /** A keyed entry found by the loop: its key and the indices of its first and last line. */
  datatype Found = Found(key: string, start: nat, end: int)

  /** The entry a segment that begins at line `base` stands for, if any. */
  function Located(g: Segment, base: nat): Option<Found> {
    if g.Keyed? then Some(Found(g.key, base, base + |g.Lines()| - 1)) else None
  }

  function IndexOne(g: Segment, base: nat): seq<Found> {
    if Located(g, base).Some? then [Located(g, base).value] else []
  }

  /** The entries of some segments that begin at line `base`. */
  function Index(segments: seq<Segment>, base: nat): seq<Found> {
    if segments == [] then []
    else IndexOne(segments[0], base) + Index(segments[1..], base + |segments[0].Lines()|)
  }

  lemma {:induction false} UnparseSnoc(segments: seq<Segment>, g: Segment)
    ensures Unparse(segments + [g]) == Unparse(segments) + g.Lines()
  {
    if segments == [] {
      assert segments + [g] == [g] && [g][1..] == [];
    } else {
      assert (segments + [g])[1..] == segments[1..] + [g];
      UnparseSnoc(segments[1..], g);
    }
  }

  lemma IndexCons(first: Segment, rest: seq<Segment>, base: nat)
    ensures Index([first] + rest, base) == IndexOne(first, base) + Index(rest, base + |first.Lines()|)
  {
    assert ([first] + rest)[1..] == rest;
  }

  lemma {:induction false} IndexSnoc(segments: seq<Segment>, g: Segment, base: nat)
    ensures Index(segments + [g], base) == Index(segments, base) + IndexOne(g, base + |Unparse(segments)|)
  {
    if segments == [] {
      assert segments + [g] == [g] + [];
      IndexCons(g, [], base);
    } else {
      var first, rest := segments[0], segments[1..];
      var next := base + |first.Lines()|;
      assert segments + [g] == [first] + (rest + [g]);
      IndexCons(first, rest + [g], base);
      IndexSnoc(rest, g, next);
      Associate(IndexOne(first, base), Index(rest, next), IndexOne(g, next + |Unparse(rest)|));
    }
  }

  lemma Associate(a: seq<Found>, b: seq<Found>, c: seq<Found>)
    ensures a + (b + c) == (a + b) + c
  {
  }

  /** The keys found by the loop. */
  function FoundKeys(entries: seq<Found>): seq<string> {
    if entries == [] then [] else [entries[0].key] + FoundKeys(entries[1..])
  }

  lemma {:induction false} IndexKeys(segments: seq<Segment>, base: nat)
    ensures FoundKeys(Index(segments, base)) == Keys(segments)
  {
    if segments != [] {
      var more := Index(segments[1..], base + |segments[0].Lines()|);
      IndexKeys(segments[1..], base + |segments[0].Lines()|);
      FoundKeysBehind(IndexOne(segments[0], base), more);
    }
  }

  lemma FoundKeysBehind(one: seq<Found>, more: seq<Found>)
    requires |one| <= 1
    ensures FoundKeys(one + more) == (if one == [] then [] else [one[0].key]) + FoundKeys(more)
  {
    if one == [] {
      assert one + more == more;
    } else {
      assert (one + more)[1..] == more;
    }
  }

  /** The start of the first entry with a greater key, or the given end. */
  function InsertionPoint(entries: seq<Found>, key: string, end: nat): nat {
    if entries == [] then end
    else if Less(key, entries[0].key) then entries[0].start
    else InsertionPoint(entries[1..], key, end)
  }

  lemma {:induction false} InsertionPointIsOffset(segments: seq<Segment>, key: string, base: nat)
    ensures InsertionPoint(Index(segments, base), key, base + |Unparse(segments)|) == base + Offset(segments, key)
  {
    if segments != [] {
      var n := |segments[0].Lines()|;
      InsertionPointIsOffset(segments[1..], key, base + n);
      if segments[0].Keyed? {
        assert Index(segments, base)[1..] == Index(segments[1..], base + n);
      } else {
        assert Index(segments, base) == Index(segments[1..], base + n);
      }
    }
  }

  /** What the parser cuts off at the cursor. */
  lemma FirstAt(lines: seq<string>, cursor: nat, end: nat, block: string)
    requires cursor < end <= |lines|
    ensures First(lines[cursor..end], block) == FirstOf(lines[cursor], lines[cursor + 1..end], block)
    ensures First(lines[cursor..end], block).Ok? ==>
              var g := First(lines[cursor..end], block).value;
              Proper(g, block) && cursor + |g.Lines()| <= end && g.Lines() == lines[cursor..cursor + |g.Lines()|]
  {
    SliceOfSlice(lines, cursor, cursor + 1, end);
    if First(lines[cursor..end], block).Ok? {
      FirstIsProper(lines[cursor..end], block);
      FirstIsPrefix(lines[cursor..end], block);
      PrefixOfSlice(lines, cursor, cursor + |First(lines[cursor..end], block).value.Lines()|, end);
    }
  }

  lemma PrefixOfSlice(lines: seq<string>, a: nat, b: nat, c: nat)
    requires a <= b <= c <= |lines|
    ensures lines[a..c][..b - a] == lines[a..b]
  {
  }

  /** The tests on the line at the cursor: a blank line, or a keyed entry with its line indices. */
  method ScanLine(lines: seq<string>, cursor: nat, end: nat, block: string)
    returns (r: Result<Option<Found>>, next: nat)
    requires cursor < end <= |lines|
    ensures match FirstOf(lines[cursor], lines[cursor + 1..end], block)
            case Err(e) => r == Err(e)
            case Ok(g) => r == Ok(Located(g, cursor)) && next == cursor + |g.Lines()|
  {
    var head, rest := lines[cursor], lines[cursor + 1..end];
    next := cursor + 1;
    if Trim(head) == [] {
      return Ok(None), next;
    }
    var key := KeyOf(Trim(head), block);
    if key.None? || !ValidIdentifier(key.value) {
      return Err(AmbiguousIntegrationPoint), next;
    }
    var relative := Position(rest, EntryEnd(block, key.value));
    if relative.None? || Nested(rest[..relative.value], block) {
      return Err(AmbiguousIntegrationPoint), next;
    }
    next := cursor + relative.value + 2;
    return Ok(Some(Found(key.value, cursor, next - 1))), next;
  }

  /** One turn of the loop extends what has been printed and indexed. */
  lemma AdvanceIndex(lines: seq<string>, base: nat, cursor: nat, next: nat, done: seq<Segment>, g: Segment)
    requires base <= cursor <= next <= |lines| && g.Lines() == lines[cursor..next]
    requires Unparse(done) == lines[base..cursor]
    ensures Unparse(done + [g]) == lines[base..next]
    ensures Index(done + [g], base) == Index(done, base) + IndexOne(g, cursor)
  {
    UnparseSnoc(done, g);
    IndexSnoc(done, g, base);
    JoinSlices(lines, base, cursor, next);
  }

  lemma JoinSlices(lines: seq<string>, a: nat, b: nat, c: nat)
    requires a <= b <= c <= |lines|
    ensures lines[a..b] + lines[b..c] == lines[a..c]
  {
  }

  lemma SliceOfSlice(lines: seq<string>, a: nat, b: nat, c: nat)
    requires a <= b <= c <= |lines|
    ensures lines[a..c][b - a..] == lines[b..c]
  {
  }

  /** The line at the cursor, with the segment that begins there. */
  method ScanSegment(lines: seq<string>, cursor: nat, end: nat, block: string)
    returns (r: Result<Option<Found>>, next: nat, ghost g: Segment)
    requires cursor < end <= |lines|
    ensures r.Err? ==> Parse(lines[cursor..end], block) == Err(r.kind)
    ensures r.Ok? ==> r.value == Located(g, cursor) && Proper(g, block)
    ensures r.Ok? ==> cursor < next <= end && g.Lines() == lines[cursor..next]
  {
    r, next := ScanLine(lines, cursor, end, block);
    FirstAt(lines, cursor, end, block);
    g := if r.Ok? then First(lines[cursor..end], block).value else Blank([]);
  }

  /** One turn of the loop. */
  method ScanOne(lines: seq<string>, base: nat, cursor: nat, end: nat, block: string,
                 entries: seq<Found>, ghost segments: seq<Segment>)
    returns (r: Result<seq<Found>>, next: nat, ghost longer: seq<Segment>)
    requires base <= cursor < end <= |lines| && ValidIdentifier(block)
    requires Scanned(lines, base, cursor, block, segments, entries)
    ensures r.Err? ==> Parse(lines[base..end], block) == Err(r.kind)
    ensures r.Ok? ==> cursor < next <= end && Scanned(lines, base, next, block, longer, r.value)
  {
    var step, following, g := ScanSegment(lines, cursor, end, block);
    next, longer := following, segments + [g];
    if step.Err? {
      ScanFails(lines, base, cursor, end, block, segments, entries);
      return Err(step.kind), next, longer;
    }
    ScanTurn(lines, base, cursor, next, block, segments, entries, g);
    r := Ok(if step.value.Some? then entries + [step.value.value] else entries);
    assert entries + [] == entries;
  }

  /** The loop over the body: every keyed entry with its line indices. */
  method ScanEntries(lines: seq<string>, start: nat, end: nat, block: string)
    returns (r: Result<seq<Found>>, ghost segments: seq<Segment>)
    requires start < end <= |lines| && ValidIdentifier(block)
    ensures r.Err? ==> Parse(lines[start + 1..end], block) == Err(r.kind)
    ensures r.Ok? ==> Parse(lines[start + 1..end], block) == Ok(segments) && r.value == Index(segments, start + 1)
  {
    var entries: seq<Found> := [];
    var cursor := start + 1;
    segments := [];
    while cursor < end
      invariant start + 1 <= cursor <= end && Scanned(lines, start + 1, cursor, block, segments, entries)
      decreases end - cursor
    {
      var step, next, longer := ScanOne(lines, start + 1, cursor, end, block, entries, segments);
      if step.Err? {
        return Err(step.kind), segments;
      }
      entries, cursor, segments := step.value, next, longer;
    }
    assert cursor == end;
    ScanEnds(lines, start + 1, end, block, segments, entries);
    return Ok(entries), segments;
  }

  /** The loop has cut the lines before the cursor into proper segments and found their entries. */
  ghost predicate Scanned(lines: seq<string>, base: nat, cursor: nat, block: string,
                          segments: seq<Segment>, entries: seq<Found>)
    requires base <= cursor <= |lines|
  {
    Unparse(segments) == lines[base..cursor] && AllProper(segments, block) && entries == Index(segments, base)
  }

  lemma ScanTurn(lines: seq<string>, base: nat, cursor: nat, next: nat, block: string,
                 segments: seq<Segment>, entries: seq<Found>, g: Segment)
    requires base <= cursor <= next <= |lines| && Scanned(lines, base, cursor, block, segments, entries)
    requires Proper(g, block) && g.Lines() == lines[cursor..next]
    ensures Scanned(lines, base, next, block, segments + [g], entries + IndexOne(g, cursor))
  {
    AdvanceIndex(lines, base, cursor, next, segments, g);
    ProperSnoc(segments, g, block);
  }

  lemma {:induction false} ProperSnoc(segments: seq<Segment>, g: Segment, block: string)
    requires AllProper(segments, block) && Proper(g, block)
    ensures AllProper(segments + [g], block)
  {
    if segments == [] {
      assert segments + [g] == [g] && [g][1..] == [];
    } else {
      assert (segments + [g])[1..] == segments[1..] + [g];
      ProperSnoc(segments[1..], g, block);
    }
  }

  /** A body scanned to its end is parsed. */
  lemma ScanEnds(lines: seq<string>, base: nat, end: nat, block: string, segments: seq<Segment>, entries: seq<Found>)
    requires base <= end <= |lines| && ValidIdentifier(block) && Scanned(lines, base, end, block, segments, entries)
    ensures Parse(lines[base..end], block) == Ok(segments)
  {
    UnparseThenParse(segments, block);
  }

  /** If the parser refuses the lines at the cursor, it refuses the body. */
  lemma ScanFails(lines: seq<string>, base: nat, cursor: nat, end: nat, block: string,
                  segments: seq<Segment>, entries: seq<Found>)
    requires base <= cursor < end <= |lines| && ValidIdentifier(block)
    requires Scanned(lines, base, cursor, block, segments, entries)
    requires Parse(lines[cursor..end], block).Err?
    ensures Parse(lines[base..end], block) == Parse(lines[cursor..end], block)
  {
    ParsePrefix(segments, lines[cursor..end], block);
    JoinSlices(lines, base, cursor, end);
  }

  /** The index the loop finds is the line where a segment with this key is inserted. */
  lemma InsertionIndex(lines: seq<string>, base: nat, end: nat, segments: seq<Segment>, key: string)
    requires base <= end <= |lines| && Unparse(segments) == lines[base..end]
    ensures InsertionPoint(Index(segments, base), key, end) == base + Offset(segments, key)
  {
    assert base + |Unparse(segments)| == end;
    InsertionPointIsOffset(segments, key, base);
  }

  /** Splicing lines at that index is the insertion of a segment. */
  lemma SpliceIsInsertion(lines: seq<string>, base: nat, end: nat, segments: seq<Segment>, e: Segment, at: nat)
    requires base <= end <= |lines| && Unparse(segments) == lines[base..end] && e.Keyed?
    requires at == base + Offset(segments, e.key)
    ensures at <= end
    ensures lines[..at] + e.lines + lines[at..] == lines[..base] + Unparse(Insert(segments, e)) + lines[end..]
  {
    InsertSplits(segments, e);
    SpliceAtOffset(lines, base, end, Offset(segments, e.key), e.lines, Unparse(Insert(segments, e)));
  }

  lemma SpliceAtOffset(lines: seq<string>, base: nat, end: nat, k: nat, run: seq<string>, longer: seq<string>)
    requires base <= end <= |lines| && Spliced(lines[base..end], k, run, longer)
    ensures lines[..base + k] + run + lines[base + k..] == lines[..base] + longer + lines[end..]
  {
    var body := lines[base..end];
    assert lines[..base + k] == lines[..base] + body[..k];
    assert lines[base + k..] == body[k..] + lines[end..];
  }

  /** The checks on the keys of a block: an error, or whether the key is already there. */
  function Present(keys: seq<string>, key: string): Result<bool> {
    if Distinct(keys) != |keys| then Err(DuplicateRegistration)
    else if !Ascending(keys) then Err(ReorderedRegistrations)
    else Ok(key in keys)
  }

  /** What planning gives for a body that has been parsed. */
  function PlanParsed(b: Block, block: string, key: string, entry: string, segments: seq<Segment>)
    : Result<Option<Block>>
    requires b.pre != []
  {
    match Present(Keys(segments), key)
    case Err(e) => Err(e)
    case Ok(true) => Ok(None)
    case Ok(false) => Ok(Some(b.(body := Unparse(Insert(segments, NewEntry(b, block, key, entry))))))
  }

  /** The same for a block given by its line indices. */
  lemma PlanParsedAt(lines: seq<string>, start: nat, end: nat, block: string, key: string, entry: string,
                     segments: seq<Segment>)
    requires start < end < |lines|
    ensures var b := Block(lines[..start + 1], lines[start + 1..end], lines[end..]);
            var e := Entry(Indentation(lines[start]), block, key, entry);
            PlanParsed(b, block, key, entry, segments) ==
            match Present(Keys(segments), key)
            case Err(kind) => Err(kind)
            case Ok(true) => Ok(None)
            case Ok(false) => Ok(Some(Block(lines[..start + 1], Unparse(Insert(segments, e)), lines[end..])))
  {
    assert lines[..start + 1][start] == lines[start];
  }

  lemma PlanBlockParsed(b: Block, block: string, key: string, entry: string)
    requires b.pre != [] && b.post != [] && !ExistsOutside(b, block, key)
    ensures var parsed := Parse(b.body, block);
            PlanBlock(b, block, key, entry) ==
            if parsed.Err? then Err(parsed.kind) else PlanParsed(b, block, key, entry, parsed.value)
  {
  }

  method CheckKeys(keys: seq<string>, key: string) returns (r: Result<bool>)
    ensures r == Present(keys, key)
  {
    if Distinct(keys) != |keys| {
      return Err(DuplicateRegistration);
    }
    if !Ascending(keys) {
      return Err(ReorderedRegistrations);
    }
    return Ok(key in keys);
  }

  /** Splicing at the insertion point found by index gives the lines of the block with the segment inserted. */
  lemma SplicePrints(lines: seq<string>, start: nat, end: nat, segments: seq<Segment>, e: Segment)
    requires start < end < |lines| && Unparse(segments) == lines[start + 1..end] && e.Keyed?
    ensures var at := InsertionPoint(Index(segments, start + 1), e.key, end);
            at <= end && lines[..at] + e.lines + lines[at..] ==
                         Block(lines[..start + 1], Unparse(Insert(segments, e)), lines[end..]).Lines()
  {
    InsertionIndex(lines, start + 1, end, segments, e.key);
    SpliceIsInsertion(lines, start + 1, end, segments, e, InsertionPoint(Index(segments, start + 1), e.key, end));
  }

  /** The insertion into a block whose keys allow it. */
  method SpliceEntry(lines: seq<string>, start: nat, end: nat, block: string, key: string, entry: string,
                     entries: seq<Found>, ghost segments: seq<Segment>) returns (r: seq<string>)
    requires start < end < |lines| && Unparse(segments) == lines[start + 1..end]
    requires entries == Index(segments, start + 1)
    ensures var e := Entry(Indentation(lines[start]), block, key, entry);
            r == Block(lines[..start + 1], Unparse(Insert(segments, e)), lines[end..]).Lines()
  {
    var generated := Entry(Indentation(lines[start]), block, key, entry);
    var insertion := InsertionPoint(entries, key, end);
    SplicePrints(lines, start, end, segments, generated);
    return lines[..insertion] + generated.lines + lines[insertion..];
  }

  /** The checks on the entries found, and the insertion. */
  method PlanEntries(lines: seq<string>, start: nat, end: nat, block: string, key: string, entry: string,
                     entries: seq<Found>, ghost segments: seq<Segment>) returns (r: Result<Option<seq<string>>>)
    requires start < end < |lines| && Unparse(segments) == lines[start + 1..end]
    requires entries == Index(segments, start + 1)
    ensures var b := Block(lines[..start + 1], lines[start + 1..end], lines[end..]);
            match PlanParsed(b, block, key, entry, segments)
            case Err(e) => r == Err(e)
            case Ok(None) => r == Ok(None)
            case Ok(Some(after)) => r == Ok(Some(after.Lines()))
  {
    IndexKeys(segments, start + 1);
    PlanParsedAt(lines, start, end, block, key, entry, segments);
    var present := CheckKeys(FoundKeys(entries), key);
    match present {
      case Err(e) => return Err(e);
      case Ok(true) => return Ok(None);
      case Ok(false) =>
        var spliced := SpliceEntry(lines, start, end, block, key, entry, entries, segments);
        return Ok(Some(spliced));
    }
  }

  /** The part of planning that follows the location of the block. */
  method PlanInBlock(lines: seq<string>, start: nat, end: nat, block: string, key: string, entry: string)
    returns (r: Result<Option<seq<string>>>)
    requires start < end < |lines| && ValidIdentifier(block)
    ensures match PlanBlock(Block(lines[..start + 1], lines[start + 1..end], lines[end..]), block, key, entry)
            case Err(e) => r == Err(e)
            case Ok(None) => r == Ok(None)
            case Ok(Some(after)) => r == Ok(Some(after.Lines()))
  {
    ghost var b := Block(lines[..start + 1], lines[start + 1..end], lines[end..]);
    var outside := lines[..start] + lines[end + 1..];
    assert outside == b.pre[..|b.pre| - 1] + b.post[1..];
    if exists i :: 0 <= i < |outside| && Trim(outside[i]) in {EntryStart(block, key), EntryEnd(block, key)} {
      return Err(ExistingOutsideManagedBlock);
    }
    PlanBlockParsed(b, block, key, entry);
    var scanned, segments := ScanEntries(lines, start, end, block);
    if scanned.Err? {
      return Err(scanned.kind);
    }
    ParseThenUnparse(b.body, block);
    r := PlanEntries(lines, start, end, block, key, entry, scanned.value, segments);
  }

  /** The search for the two outer markers. */
  method LocateBlock(lines: seq<string>, block: string) returns (r: Result<(nat, nat)>)
    ensures match r
            case Err(e) => Cut(lines, block) == Err(e)
            case Ok((start, end)) =>
              && start < end < |lines|
              && Cut(lines, block) == Ok(Block(lines[..start + 1], lines[start + 1..end], lines[end..]))
  {
    var starts, ends := Positions(lines, OuterStart(block)), Positions(lines, OuterEnd(block));
    if starts == [] || ends == [] {
      return Err(MissingIntegrationPoint);
    }
    if |starts| != 1 || |ends| != 1 || starts[0] >= ends[0] {
      return Err(AmbiguousIntegrationPoint);
    }
    ghost var start, end := CutFound(lines, block);
    return Ok((starts[0], ends[0]));
  }

  /** What planning a file comes to once its block is located. */
  lemma PlanVia(text: string, block: string, key: string, entry: string, source: Source, b: Block)
    requires ValidRequest(block, key, entry) && Read(text) == Some(source) && Cut(source.lines, block) == Ok(b)
    requires b.pre != [] && b.post != []
    ensures Plan(text, block, key, entry) ==
            match PlanBlock(b, block, key, entry)
            case Err(e) => Err(e)
            case Ok(None) => Ok(AlreadyPresent)
            case Ok(Some(after)) => Ok(Planned(Write(source.(lines := after.Lines()))))
  {
  }

  /** `plan_rust_managed_entry` on decoded text. */
  method PlanRustManagedEntry(text: string, block: string, key: string, entry: string) returns (r: Result<Outcome>)
    ensures r == Plan(text, block, key, entry)
  {
    if !ValidRequest(block, key, entry) {
      return Err(InvalidInput);
    }
    var source := Read(text);
    if source.None? {
      return Err(InvalidSource);
    }
    var lines := source.value.lines;
    var located := LocateBlock(lines, block);
    if located.Err? {
      return Err(located.kind);
    }
    var (start, end) := located.value;
    PlanVia(text, block, key, entry, source.value, Block(lines[..start + 1], lines[start + 1..end], lines[end..]));
    var planned := PlanInBlock(lines, start, end, block, key, entry);
    match planned {
      case Err(e) => return Err(e);
      case Ok(None) => return Ok(AlreadyPresent);
      case Ok(Some(after)) => return Ok(Planned(Write(source.value.(lines := after))));
    }
  }
}
