/** The SQLite handler, which takes no per-document lock; one worker at a time keeps deliveries apart. */
module SqliteProjection {
  import opened Content
  import opened SearchProjection

  datatype Result = Applied | AlreadyApplied | Failed

  /** The version rows and the external index around one handler. */
  datatype Tables = Tables(rows: map<Document, int>, index: map<Document, Option<Bytes>>)

  /** What one delivery may do: nothing, the index call, or the index call and the row. */
  ghost predicate Outcome(before: Tables, after: Tables, document: Document, revision: int, operation: Operation,
                          r: Result)
  {
    var stale := document in before.rows && before.rows[document] >= revision;
    var indexed := before.(index := before.index[document := Shows(operation)]);
    var recorded := indexed.(rows := before.rows[document := revision]);
    match r
    case Applied => !stale && after == recorded
    case AlreadyApplied => stale && after == before
    case Failed => after == before || (!stale && (after == indexed || after == recorded))
  }

  class Handler {
    /** No call fails. */
    const reliable: bool
    var rows: map<Document, int>
    var index: map<Document, Option<Bytes>>

    constructor (reliable: bool)
      ensures rows == map[] && index == map[] && this.reliable == reliable
    {
      this.reliable, rows, index := reliable, map[], map[];
    }

    /** A call that may fail; a failing one may still have taken effect. */
    method Attempt() returns (ok: bool, tookEffect: bool)
      ensures ok ==> tookEffect
      ensures reliable ==> ok
    {
      ok, tookEffect := *, *;
      ok := ok || reliable;
      tookEffect := tookEffect || ok;
    }

    method ApplyRevisioned(document: Document, revision: int, operation: Operation) returns (r: Result)
      modifies this
      ensures Outcome(Tables(old(rows), old(index)), Tables(rows, index), document, revision, operation, r)
      ensures reliable ==>
                r == if document in old(rows) && old(rows[document]) >= revision then AlreadyApplied else Applied
      ensures r.Applied? ==> Get(rows, document) == Some(revision)
      ensures r.Applied? ==>
                Get(index, document) == Some(match operation case Upsert(body) => Some(body) case Delete => None)
      ensures forall d :: d != document ==> Get(rows, d) == Get(old(rows), d) && Get(index, d) == Get(old(index), d)
    {
      var ok, effect := Attempt(); // begin
      if !ok { return Failed; }
      ok, effect := Attempt(); // read the version row
      if !ok { return Failed; }
      if document in rows && rows[document] >= revision {
        ok, effect := Attempt(); // commit
        return if ok then AlreadyApplied else Failed;
      }
      ok, effect := Attempt(); // the index call
      if effect { index := index[document := Shows(operation)]; }
      if !ok { return Failed; }
      ok, effect := Attempt(); // write the version row
      if !ok { return Failed; }
      ok, effect := Attempt(); // commit
      if effect { rows := rows[document := revision]; }
      return if ok then Applied else Failed;
    }
  }

  /** One delivery after another, each with some outcome. */
  datatype Handled = Handled(document: Document, revision: int, result: Result)

  ghost predicate Serial(tables: seq<Tables>, log: seq<Handled>, commands: Commands) {
    && |tables| == |log| + 1 && tables[0] == Tables(map[], map[])
    && forall i :: 0 <= i < |log| ==>
         Outcome(tables[i], tables[i + 1], log[i].document, log[i].revision,
                 commands(log[i].document, log[i].revision), log[i].result)
  }

  ghost predicate RevisionsUpTo(log: seq<Handled>, document: Document, highest: int) {
    forall i :: 0 <= i < |log| && log[i].document == document ==> log[i].revision <= highest
  }

  // ---- Serial handlers are an instance of the general protocol ----

  /** The tables of a world, with no delivery in flight. */
  ghost predicate Rests(w: World, t: Tables) {
    w.rows == t.rows && w.index == t.index && w.flight == map[]
  }

  /** At most one worker is ever at work, so the deliveries of every document are apart. */
  ghost predicate Solo(worlds: seq<World>) {
    forall k :: 0 <= k < |worlds| ==> worlds[k].flight.Keys <= {0}
  }

  /** A run of one worker that ends in the given world. */
  ghost predicate SoloRun(worlds: seq<World>, actions: seq<Action>, commands: Commands, last: World) {
    Run(worlds, actions, commands) && Solo(worlds) && worlds[|actions|] == last
  }

  /** One more step of the worker. */
  lemma Go(worlds: seq<World>, actions: seq<Action>, commands: Commands, w: World, a: Action, w': World)
    returns (worlds': seq<World>, actions': seq<Action>)
    requires SoloRun(worlds, actions, commands, w) && Enabled(w, a) && w' == Next(w, a, commands) && a.worker == 0
    ensures SoloRun(worlds', actions', commands, w') && worlds' == worlds + [w'] && actions' == actions + [a]
  {
    RunSnoc(worlds, actions, commands, a, w');
    worlds', actions' := worlds + [w'], actions + [a];
  }

  /** A world in which the only worker has this delivery. */
  function Holding(w: World, d: Document, revision: int, phase: Phase): World {
    w.(flight := map[0 := Delivery(d, revision, phase)])
  }

  function PhaseAfterReading(w: World, d: Document, revision: int): Phase {
    if d in w.rows && w.rows[d] >= revision then Stale else Fresh
  }

  lemma TakingUp(w: World, d: Document, revision: int, commands: Commands)
    requires w.flight == map[]
    ensures Enabled(w, Deliver(0, d, revision))
    ensures Next(w, Deliver(0, d, revision), commands) == Holding(w, d, revision, Waiting)
    ensures Next(Holding(w, d, revision, Waiting), Begin(0), commands) == Holding(w, d, revision, Begun)
    ensures Next(Holding(w, d, revision, Begun), ReadRow(0), commands) ==
            Holding(w, d, revision, PhaseAfterReading(w, d, revision))
  {
  }

  /** The worker takes the delivery up and reads the row. */
  lemma TakesUp(worlds: seq<World>, actions: seq<Action>, commands: Commands, w: World, d: Document, revision: int)
    returns (worlds': seq<World>, actions': seq<Action>)
    requires SoloRun(worlds, actions, commands, w) && w.flight == map[]
    ensures worlds <= worlds' && Delivers(actions, actions', d, revision)
    ensures SoloRun(worlds', actions', commands, Holding(w, d, revision, PhaseAfterReading(w, d, revision)))
  {
    TakingUp(w, d, revision, commands);
    var w1, w2 := Holding(w, d, revision, Waiting), Holding(w, d, revision, Begun);
    worlds', actions' := Go(worlds, actions, commands, w, Deliver(0, d, revision), w1);
    worlds', actions' := Go(worlds', actions', commands, w1, Begin(0), w2);
    worlds', actions' := Go(worlds', actions', commands, w2, ReadRow(0), Next(w2, ReadRow(0), commands));
    ThreeMore(actions, Deliver(0, d, revision), Begin(0), ReadRow(0), d, revision);
  }

  lemma ThreeMore(actions: seq<Action>, a: Action, b: Action, c: Action, d: Document, revision: int)
    requires (a.Deliver? ==> a == Deliver(0, d, revision)) && !b.Deliver? && !c.Deliver?
    ensures Delivers(actions, actions + [a] + [b] + [c], d, revision)
  {
  }

  /** The longer run delivers this revision of this document, and nothing else. */
  ghost predicate Delivers(actions: seq<Action>, more: seq<Action>, d: Document, revision: int) {
    actions <= more && forall i :: |actions| <= i < |more| && more[i].Deliver? ==> more[i] == Deliver(0, d, revision)
  }

  /** Whatever one call of the handler does, its steps are steps of the general protocol. */
  lemma HandledIsARun(worlds: seq<World>, actions: seq<Action>, commands: Commands, w: World, before: Tables,
                      after: Tables, h: Handled)
    returns (worlds': seq<World>, actions': seq<Action>, w': World)
    requires SoloRun(worlds, actions, commands, w) && Rests(w, before)
    requires Outcome(before, after, h.document, h.revision, commands(h.document, h.revision), h.result)
    ensures SoloRun(worlds', actions', commands, w') && Rests(w', after)
    ensures worlds <= worlds' && Delivers(actions, actions', h.document, h.revision)
  {
    var (d, revision) := (h.document, h.revision);
    worlds', actions' := TakesUp(worlds, actions, commands, w, d, revision);
    var taken := worlds'[|actions'|];
    if d in w.rows && w.rows[d] >= revision {
      w' := w;
      worlds', actions' := Go(worlds', actions', commands, taken, CommitStale(0), w');
    } else if after == before {
      w' := w;
      worlds', actions' := Go(worlds', actions', commands, taken, Abandon(0), w');
    } else {
      worlds', actions', w' := FreshIsARun(worlds', actions', commands, w, before, after, h);
    }
  }

  lemma FreshIsARun(worlds: seq<World>, actions: seq<Action>, commands: Commands, w: World, before: Tables,
                    after: Tables, h: Handled)
    returns (worlds': seq<World>, actions': seq<Action>, w': World)
    requires SoloRun(worlds, actions, commands, Holding(w, h.document, h.revision, Fresh)) && Rests(w, before)
    requires var indexed := before.(index := before.index[h.document := Shows(commands(h.document, h.revision))]);
             after == indexed || after == indexed.(rows := before.rows[h.document := h.revision])
    ensures SoloRun(worlds', actions', commands, w') && Rests(w', after)
    ensures worlds <= worlds' && Delivers(actions, actions', h.document, h.revision)
  {
    var (d, revision) := (h.document, h.revision);
    var taken := Holding(w, d, revision, Fresh);
    Applying(w, d, revision, commands);
    if after.rows == before.rows {
      w' := Reaching(w, d, revision, commands);
      worlds', actions' := Go(worlds, actions, commands, taken, IndexFails(0, true), w');
    } else {
      var w1 := Holding(Reaching(w, d, revision, commands), d, revision, Indexed);
      var w2 := Holding(Reaching(w, d, revision, commands), d, revision, Recorded);
      var last := if h.result.Failed? then CommitFails(0, true) else Commit(0);
      w' := Next(w2, last, commands);
      worlds', actions' := Go(worlds, actions, commands, taken, CallIndex(0), w1);
      worlds', actions' := Go(worlds', actions', commands, w1, WriteRow(0), w2);
      worlds', actions' := Go(worlds', actions', commands, w2, last, w');
      ThreeMore(actions, CallIndex(0), WriteRow(0), last, d, revision);
    }
  }

  /** The world once the index call has taken effect. */
  function Reaching(w: World, d: Document, revision: int, commands: Commands): World {
    w.(index := w.index[d := Shows(commands(d, revision))], shown := w.shown[d := revision])
  }

  lemma Applying(w: World, d: Document, revision: int, commands: Commands)
    requires w.flight == map[]
    ensures var indexed := Reaching(w, d, revision, commands);
            && Next(Holding(w, d, revision, Fresh), IndexFails(0, true), commands) == indexed
            && Next(Holding(w, d, revision, Fresh), CallIndex(0), commands) == Holding(indexed, d, revision, Indexed)
            && Next(Holding(indexed, d, revision, Indexed), WriteRow(0), commands) ==
               Holding(indexed, d, revision, Recorded)
            && Next(Holding(indexed, d, revision, Recorded), Commit(0), commands) ==
               indexed.(rows := w.rows[d := revision])
            && Next(Holding(indexed, d, revision, Recorded), CommitFails(0, true), commands) ==
               indexed.(rows := w.rows[d := revision])
  {
  }

  /** Some serial deliveries as one run of the general protocol, with the worlds in which the handlers rest. */
  lemma {:induction false} SerialIsARun(tables: seq<Tables>, log: seq<Handled>, commands: Commands, d: Document,
                                        highest: int, n: nat)
    returns (worlds: seq<World>, actions: seq<Action>, marks: seq<nat>)
    requires Serial(tables, log, commands) && RevisionsUpTo(log, d, highest) && n < |tables|
    ensures Run(worlds, actions, commands) && Solo(worlds) && Bounded(actions, d, highest)
    ensures |marks| == n + 1 && marks[n] == |actions|
    ensures forall i :: 0 <= i <= n ==> marks[i] < |worlds| && Rests(worlds[marks[i]], tables[i])
  {
    if n == 0 {
      worlds, actions, marks := [START], [], [0];
    } else {
      worlds, actions, marks := SerialIsARun(tables, log, commands, d, highest, n - 1);
      var h := log[n - 1];
      assert Outcome(tables[n - 1], tables[n], h.document, h.revision, commands(h.document, h.revision), h.result);
      var longer, more, w := HandledIsARun(worlds, actions, commands, worlds[|actions|], tables[n - 1], tables[n], h);
      forall i | 0 <= i < |more| && more[i].Deliver? && more[i].document == d ensures more[i].revision <= highest {
        assert i < |actions| ==> more[i] == actions[i];
      }
      forall i | 0 <= i < n ensures marks[i] < |longer| && Rests(longer[marks[i]], tables[i]) {
        assert Rests(worlds[marks[i]], tables[i]) && longer[marks[i]] == worlds[marks[i]];
      }
      worlds, actions, marks := longer, more, marks + [|more|];
    }
  }

  lemma SoloIsApart(worlds: seq<World>, d: Document)
    requires Solo(worlds)
    ensures AlwaysApart(worlds, d)
  {
    forall k | 0 <= k < |worlds| ensures Apart(worlds[k], d) {
      assert worlds[k].flight.Keys <= {0};
    }
  }

  /** With one worker at a time, recorded revisions never go down. */
  lemma SerialRowsGrow(tables: seq<Tables>, log: seq<Handled>, commands: Commands, d: Document, m: nat, n: nat)
    requires Serial(tables, log, commands) && m <= n < |tables| && d in tables[m].rows
    ensures d in tables[n].rows && tables[m].rows[d] <= tables[n].rows[d]
  {
    var highest := Highest(log, d);
    var worlds, actions, marks := SerialIsARun(tables, log, commands, d, highest, n);
    SoloIsApart(worlds, d);
    assert Rests(worlds[marks[m]], tables[m]) && Rests(worlds[marks[n]], tables[n]);
    RecordedRevisionsGrow(worlds, actions, commands, d, marks[m], marks[n]);
  }

  lemma {:induction false} Highest(log: seq<Handled>, d: Document) returns (highest: int)
    ensures RevisionsUpTo(log, d, highest)
  {
    highest := 0;
    if log != [] {
      var init, last := log[..|log| - 1], log[|log| - 1];
      highest := Highest(init, d);
      if highest < last.revision {
        highest := last.revision;
      }
      assert forall i :: 0 <= i < |init| ==> log[i] == init[i];
    }
  }

  /** With one worker at a time, the recorded highest revision and its effect stay for good. */
  lemma SerialHighestRevisionStays(tables: seq<Tables>, log: seq<Handled>, commands: Commands, d: Document,
                                   highest: int, m: nat, n: nat)
    requires Serial(tables, log, commands) && RevisionsUpTo(log, d, highest) && m <= n < |tables|
    requires Get(tables[m].rows, d) == Some(highest)
    ensures Get(tables[n].rows, d) == Some(highest)
    ensures Get(tables[n].index, d) == Some(Shows(commands(d, highest)))
  {
    var worlds, actions, marks := SerialIsARun(tables, log, commands, d, highest, n);
    SoloIsApart(worlds, d);
    assert Rests(worlds[marks[m]], tables[m]) && Rests(worlds[marks[n]], tables[n]);
    HighestRevisionStays(worlds, actions, commands, d, highest, marks[m], marks[n]);
  }

  /** The recorded row is never above the highest delivered revision. */
  lemma SerialRowsStayBelow(tables: seq<Tables>, log: seq<Handled>, commands: Commands, d: Document, highest: int,
                            n: nat)
    requires Serial(tables, log, commands) && RevisionsUpTo(log, d, highest) && n < |tables|
    ensures d in tables[n].rows ==> tables[n].rows[d] <= highest
  {
    var worlds, actions, marks := SerialIsARun(tables, log, commands, d, highest, n);
    SoloIsApart(worlds, d);
    assert Rests(worlds[marks[n]], tables[n]);
    RunStaysConsistent(worlds, actions, commands, d, marks[n]);
    RunStaysBelow(worlds, actions, commands, d, highest, marks[n]);
  }

  /**
   * A delivery of the highest revision whose call succeeds, as every call does where nothing fails, is recorded from
   * then on, and the index shows its body, or nothing after a deletion.
   */
  lemma SerialDeliveryWins(tables: seq<Tables>, log: seq<Handled>, commands: Commands, d: Document, highest: int,
                           k: nat, n: nat)
    requires Serial(tables, log, commands) && RevisionsUpTo(log, d, highest) && k < n < |tables|
    requires log[k].document == d && log[k].revision == highest && !log[k].result.Failed?
    ensures Get(tables[n].rows, d) == Some(highest)
    ensures match commands(d, highest)
            case Upsert(body) => Get(tables[n].index, d) == Some(Some(body))
            case Delete => Get(tables[n].index, d) == Some(None)
  {
    assert Outcome(tables[k], tables[k + 1], d, highest, commands(d, highest), log[k].result);
    SerialRowsStayBelow(tables, log, commands, d, highest, k + 1);
    SerialHighestRevisionStays(tables, log, commands, d, highest, k + 1, n);
  }
}
