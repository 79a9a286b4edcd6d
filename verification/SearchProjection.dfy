/** The revisioned search projection: at-least-once delivery, an external index, a version row, and a Postgres lock. */
module SearchProjection {
  import opened Content

  datatype Document = Document(index: string, id: string)
  datatype Operation = Upsert(body: Bytes) | Delete

  /** What the external index shows for a document after an operation. */
  function Shows(operation: Operation): Option<Bytes> {
    match operation
    case Upsert(body) => Some(body)
    case Delete => None
  }

  /** The command that each revision of each document stands for. */
  type Commands = (Document, int) -> Operation

  /**
   * Where one delivery stands: before its critical section, inside it, past reading the version row, past the index
   * call, past writing the row inside the transaction.
   */
  datatype Phase = Waiting | Begun | Stale | Fresh | Indexed | Recorded
  datatype Delivery = Delivery(document: Document, revision: int, phase: Phase)

  /**
   * The committed version rows, the external index and the deliveries in flight. `shown` records which revision last
   * reached the index.
   */
  datatype World = World(
    rows: map<Document, int>,
    index: map<Document, Option<Bytes>>,
    shown: map<Document, int>,
    flight: map<nat, Delivery>)

  const START := World(map[], map[], map[], map[])

  /** One step of one worker; any call may fail, and a failed index call or commit may or may not have taken effect. */
  datatype Action =
    | Deliver(worker: nat, document: Document, revision: int)
    | Begin(worker: nat)
    | ReadRow(worker: nat)
    | CommitStale(worker: nat)
    | CallIndex(worker: nat)
    | IndexFails(worker: nat, tookEffect: bool)
    | WriteRow(worker: nat)
    | Commit(worker: nat)
    | CommitFails(worker: nat, tookEffect: bool)
    | Abandon(worker: nat)

  predicate At(w: World, worker: nat, phase: Phase) {
    worker in w.flight && w.flight[worker].phase == phase
  }

  /** The steps the handlers can take, whether or not anything keeps them apart. */
  predicate Enabled(w: World, a: Action) {
    match a
    case Deliver(p, _, _) => p !in w.flight
    case Begin(p) => At(w, p, Waiting)
    case ReadRow(p) => At(w, p, Begun)
    case CommitStale(p) => At(w, p, Stale)
    case CallIndex(p) => At(w, p, Fresh)
    case IndexFails(p, _) => At(w, p, Fresh)
    case WriteRow(p) => At(w, p, Indexed)
    case Commit(p) => At(w, p, Recorded)
    case CommitFails(p, _) => At(w, p, Recorded)
    case Abandon(p) => p in w.flight
  }

  function Move(w: World, worker: nat, phase: Phase): World
    requires worker in w.flight
  {
    w.(flight := w.flight[worker := w.flight[worker].(phase := phase)])
  }

  function Leave(w: World, worker: nat): World {
    w.(flight := w.flight - {worker})
  }

  function TouchIndex(w: World, worker: nat, commands: Commands): World
    requires worker in w.flight
  {
    var d := w.flight[worker];
    w.(
      index := w.index[d.document := Shows(commands(d.document, d.revision))],
      shown := w.shown[d.document := d.revision])
  }

  function TouchRow(w: World, worker: nat): World
    requires worker in w.flight
  {
    w.(rows := w.rows[w.flight[worker].document := w.flight[worker].revision])
  }

  function Next(w: World, a: Action, commands: Commands): World
    requires Enabled(w, a)
  {
    match a
    case Deliver(p, document, revision) => w.(flight := w.flight[p := Delivery(document, revision, Waiting)])
    case Begin(p) => Move(w, p, Begun)
    case ReadRow(p) =>
      var d := w.flight[p];
      Move(w, p, if d.document in w.rows && w.rows[d.document] >= d.revision then Stale else Fresh)
    case CommitStale(p) => Leave(w, p)
    case CallIndex(p) => Move(TouchIndex(w, p, commands), p, Indexed)
    case IndexFails(p, tookEffect) => Leave(if tookEffect then TouchIndex(w, p, commands) else w, p)
    case WriteRow(p) => Move(w, p, Recorded)
    case Commit(p) => Leave(TouchRow(w, p), p)
    case CommitFails(p, tookEffect) => Leave(if tookEffect then TouchRow(w, p) else w, p)
    case Abandon(p) => Leave(w, p)
  }

  // ---- The invariant, for one document whose deliveries are kept apart ----

  /** No two deliveries of the document are past waiting together. */
  ghost predicate Apart(w: World, d: Document) {
    forall p, q :: p in w.flight && q in w.flight && p != q && w.flight[p].document == d && w.flight[q].document == d
      ==> w.flight[p].phase == Waiting || w.flight[q].phase == Waiting
  }

  /** A stale delivery is not newer than the row; a fresh one is, and past the index call the index shows it. */
  ghost predicate Current(w: World, p: nat)
    requires p in w.flight
  {
    var d := w.flight[p];
    && (d.phase == Stale ==> d.document in w.rows && d.revision <= w.rows[d.document])
    && (d.phase in {Fresh, Indexed, Recorded} && d.document in w.rows ==> w.rows[d.document] < d.revision)
    && (d.phase in {Indexed, Recorded} ==> Get(w.shown, d.document) == Some(d.revision))
  }

  /** The index shows the revision last sent to it, which is never older than the row. */
  ghost predicate NotBehind(w: World, d: Document, commands: Commands) {
    && (d in w.shown ==> d in w.index && w.index[d] == Shows(commands(d, w.shown[d])))
    && (d in w.rows ==> d in w.shown && w.rows[d] <= w.shown[d])
  }

  ghost predicate Consistent(w: World, d: Document, commands: Commands) {
    && NotBehind(w, d, commands)
    && forall p :: p in w.flight && w.flight[p].document == d ==> Current(w, p)
  }

  /** A step keeps a document's rows and index consistent if its deliveries are apart. */
  lemma StepKeepsConsistent(w: World, a: Action, d: Document, commands: Commands)
    requires Consistent(w, d, commands) && Apart(w, d) && Enabled(w, a)
    ensures Consistent(Next(w, a, commands), d, commands)
  {
    var w' := Next(w, a, commands);
    if a.worker in w.flight && w.flight[a.worker].document == d {
      assert Current(w, a.worker);
    }
    forall q | q in w'.flight && w'.flight[q].document == d ensures Current(w', q) {
      if q == a.worker {
        OwnStepKeepsCurrent(w, a, commands);
      } else {
        assert Current(w, q);
        OtherStepKeepsCurrent(w, a, d, commands, q);
      }
    }
  }

  /** A worker's own step keeps what holds of its delivery. */
  lemma OwnStepKeepsCurrent(w: World, a: Action, commands: Commands)
    requires Enabled(w, a) && a.worker in Next(w, a, commands).flight
    requires a.worker in w.flight ==> Current(w, a.worker)
    ensures Current(Next(w, a, commands), a.worker)
  {
  }

  /** A worker that is not past waiting for the document leaves its row and its index entry alone. */
  lemma OutsideStep(w: World, a: Action, d: Document, commands: Commands)
    requires Enabled(w, a)
    requires a.worker in w.flight && w.flight[a.worker].document == d ==> w.flight[a.worker].phase == Waiting
    ensures var w' := Next(w, a, commands);
            Get(w'.rows, d) == Get(w.rows, d) && Get(w'.shown, d) == Get(w.shown, d)
  {
  }

  /** So such a step keeps what holds of another delivery. */
  lemma OtherStepKeepsCurrent(w: World, a: Action, d: Document, commands: Commands, q: nat)
    requires Enabled(w, a) && q != a.worker && q in w.flight && w.flight[q].document == d
    requires Apart(w, d) && Current(w, q)
    ensures q in Next(w, a, commands).flight && Current(Next(w, a, commands), q)
  {
    OthersStayInFlight(w, a, commands, q);
    if w.flight[q].phase != Waiting {
      OutsideStep(w, a, d, commands);
    }
  }

  lemma OthersStayInFlight(w: World, a: Action, commands: Commands, q: nat)
    requires Enabled(w, a) && q != a.worker
    ensures Get(Next(w, a, commands).flight, q) == Get(w.flight, q)
  {
  }

  /** A step that changes a version row raises it strictly. */
  lemma RowsMoveUp(w: World, a: Action, d: Document, commands: Commands)
    requires Consistent(w, d, commands) && Enabled(w, a)
    ensures RowRises(w, Next(w, a, commands), d)
  {
    if a.worker in w.flight && w.flight[a.worker].document == d {
      assert Current(w, a.worker);
    }
  }

  ghost predicate RowRises(w: World, w': World, d: Document) {
    Get(w'.rows, d) == Get(w.rows, d) || (d in w'.rows && (d in w.rows ==> w.rows[d] < w'.rows[d]))
  }

  // ---- Whole runs ----

  /** Steps from any world on. */
  ghost predicate RunFrom(worlds: seq<World>, actions: seq<Action>, commands: Commands) {
    && |worlds| == |actions| + 1
    && forall i :: 0 <= i < |actions| ==> StepAt(worlds, actions, commands, i)
  }

  ghost predicate StepAt(worlds: seq<World>, actions: seq<Action>, commands: Commands, i: nat)
    requires i < |actions| && |worlds| == |actions| + 1
  {
    Enabled(worlds[i], actions[i]) && worlds[i + 1] == Next(worlds[i], actions[i], commands)
  }

  ghost predicate Run(worlds: seq<World>, actions: seq<Action>, commands: Commands) {
    RunFrom(worlds, actions, commands) && worlds[0] == START
  }

  /** In every world of the run, the deliveries of the document are apart. */
  ghost predicate AlwaysApart(worlds: seq<World>, d: Document) {
    forall k :: 0 <= k < |worlds| ==> Apart(worlds[k], d)
  }

  /** No delivery of this document carries a revision above `highest`. */
  ghost predicate Bounded(actions: seq<Action>, d: Document, highest: int) {
    forall i :: 0 <= i < |actions| && actions[i].Deliver? && actions[i].document == d ==> actions[i].revision <= highest
  }

  lemma {:induction false} RunStaysConsistent(worlds: seq<World>, actions: seq<Action>, commands: Commands, d: Document,
                                              n: nat)
    requires Run(worlds, actions, commands) && AlwaysApart(worlds, d) && n < |worlds|
    ensures Consistent(worlds[n], d, commands)
  {
    if n > 0 {
      RunStaysConsistent(worlds, actions, commands, d, n - 1);
      assert StepAt(worlds, actions, commands, n - 1);
      StepKeepsConsistent(worlds[n - 1], actions[n - 1], d, commands);
    }
  }

  /** Neither a delivery in flight nor the index is ahead of the highest revision delivered. */
  ghost predicate Below(w: World, d: Document, highest: int) {
    && (forall p :: p in w.flight && w.flight[p].document == d ==> w.flight[p].revision <= highest)
    && (d in w.shown ==> w.shown[d] <= highest)
  }

  lemma StepStaysBelow(w: World, a: Action, commands: Commands, d: Document, highest: int)
    requires Below(w, d, highest) && Enabled(w, a) && (a.Deliver? && a.document == d ==> a.revision <= highest)
    ensures Below(Next(w, a, commands), d, highest)
  {
    var w' := Next(w, a, commands);
    forall p | p in w'.flight && w'.flight[p].document == d ensures w'.flight[p].revision <= highest {
      if p != a.worker || !a.Deliver? {
        assert p in w.flight && w.flight[p].document == d;
      }
    }
  }

  lemma {:induction false} RunStaysBelow(worlds: seq<World>, actions: seq<Action>, commands: Commands, d: Document,
                                         highest: int, n: nat)
    requires RunFrom(worlds, actions, commands) && Below(worlds[0], d, highest) && Bounded(actions, d, highest)
    requires n < |worlds|
    ensures Below(worlds[n], d, highest)
  {
    if n > 0 {
      RunStaysBelow(worlds, actions, commands, d, highest, n - 1);
      assert StepAt(worlds, actions, commands, n - 1);
      StepStaysBelow(worlds[n - 1], actions[n - 1], commands, d, highest);
    }
  }

  /** Every row of the document rises from one world to the next. */
  ghost predicate RowsRise(worlds: seq<World>, d: Document) {
    forall k :: 0 < k < |worlds| ==> RowRises(worlds[k - 1], worlds[k], d)
  }

  lemma {:induction false} RisingRowsGrow(worlds: seq<World>, d: Document, m: nat, n: nat)
    requires RowsRise(worlds, d) && m <= n < |worlds| && d in worlds[m].rows
    ensures d in worlds[n].rows && worlds[m].rows[d] <= worlds[n].rows[d]
  {
    if m < n {
      RisingRowsGrow(worlds, d, m, n - 1);
      assert RowRises(worlds[n - 1], worlds[n], d);
    }
  }

  /** Recorded revisions of a document whose deliveries are apart change only upwards, strictly. */
  lemma RecordedRevisionsGrow(worlds: seq<World>, actions: seq<Action>, commands: Commands, d: Document, m: nat, n: nat)
    requires Run(worlds, actions, commands) && AlwaysApart(worlds, d) && m <= n < |worlds|
    ensures RowsRise(worlds, d)
    ensures d in worlds[m].rows ==> d in worlds[n].rows && worlds[m].rows[d] <= worlds[n].rows[d]
  {
    forall k | 0 < k < |worlds| ensures RowRises(worlds[k - 1], worlds[k], d) {
      RunStaysConsistent(worlds, actions, commands, d, k - 1);
      assert StepAt(worlds, actions, commands, k - 1);
      RowsMoveUp(worlds[k - 1], actions[k - 1], d, commands);
    }
    if d in worlds[m].rows {
      RisingRowsGrow(worlds, d, m, n);
    }
  }

  /**
   * Convergence: if the deliveries of a document are apart, then once the highest delivered revision is recorded, the
   * index shows that command's effect and the row stays, in every later world, whatever duplicates, reorderings,
   * interleavings with other documents and failures follow.
   */
  lemma HighestRevisionStays(worlds: seq<World>, actions: seq<Action>, commands: Commands, d: Document, highest: int,
                             m: nat, n: nat)
    requires Run(worlds, actions, commands) && AlwaysApart(worlds, d) && Bounded(actions, d, highest)
    requires m <= n < |worlds| && Get(worlds[m].rows, d) == Some(highest)
    ensures Get(worlds[n].rows, d) == Some(highest)
    ensures Get(worlds[n].index, d) == Some(Shows(commands(d, highest)))
  {
    RecordedRevisionsGrow(worlds, actions, commands, d, m, n);
    RunStaysConsistent(worlds, actions, commands, d, n);
    RunStaysBelow(worlds, actions, commands, d, highest, n);
  }

  // ---- Deliveries that run through ----

  /** What the index holds for a document once a command has taken effect: its body, or nothing after a deletion. */
  ghost predicate Holds(w: World, d: Document, operation: Operation) {
    match operation
    case Upsert(body) => Get(w.index, d) == Some(Some(body))
    case Delete => Get(w.index, d) == Some(None)
  }

  /** Step `k` ends this delivery with a commit, without a failure. */
  ghost predicate Completes(worlds: seq<World>, actions: seq<Action>, k: nat, d: Document, revision: int)
    requires k < |actions| && |worlds| == |actions| + 1
  {
    && (actions[k].Commit? || actions[k].CommitStale?) && actions[k].worker in worlds[k].flight
    && worlds[k].flight[actions[k].worker].document == d && worlds[k].flight[actions[k].worker].revision == revision
  }

  /** A delivery that completes leaves its revision, or a newer one, recorded from then on. */
  lemma CompletedDeliveryIsRecorded(worlds: seq<World>, actions: seq<Action>, commands: Commands, d: Document,
                                    revision: int, k: nat, n: nat)
    requires Run(worlds, actions, commands) && AlwaysApart(worlds, d)
    requires k < |actions| && Completes(worlds, actions, k, d, revision) && k < n < |worlds|
    ensures d in worlds[n].rows && revision <= worlds[n].rows[d]
  {
    RunStaysConsistent(worlds, actions, commands, d, k);
    assert StepAt(worlds, actions, commands, k) && Current(worlds[k], actions[k].worker);
    RecordedRevisionsGrow(worlds, actions, commands, d, k + 1, n);
  }

  /** So once the highest delivered revision has completed, the row and that command's effect stay for good. */
  lemma HighestDeliveryWins(worlds: seq<World>, actions: seq<Action>, commands: Commands, d: Document, highest: int,
                            k: nat, n: nat)
    requires Run(worlds, actions, commands) && AlwaysApart(worlds, d) && Bounded(actions, d, highest)
    requires k < |actions| && Completes(worlds, actions, k, d, highest) && k < n < |worlds|
    ensures Get(worlds[n].rows, d) == Some(highest) && Holds(worlds[n], d, commands(d, highest))
  {
    CompletedDeliveryIsRecorded(worlds, actions, commands, d, highest, k, n);
    RunStaysConsistent(worlds, actions, commands, d, n);
    RunStaysBelow(worlds, actions, commands, d, highest, n);
  }

  /** The world after a delivery has run through by itself. */
  ghost predicate RanThrough(w: World, p: nat, w': World, commands: Commands)
    requires p in w.flight
  {
    var (d, revision) := (w.flight[p].document, w.flight[p].revision);
    && w'.flight == w.flight - {p}
    && (forall e :: e != d ==> Get(w'.rows, e) == Get(w.rows, e) && Get(w'.index, e) == Get(w.index, e))
    && if d in w.rows && revision <= w.rows[d] then w'.rows == w.rows && w'.index == w.index
       else Get(w'.rows, d) == Some(revision) && Holds(w', d, commands(d, revision))
  }

  /** Every waiting delivery can run through without a failing step, and applies exactly a newer revision. */
  lemma DeliveryRunsThrough(w: World, p: nat, commands: Commands) returns (worlds: seq<World>, actions: seq<Action>)
    requires At(w, p, Waiting)
    ensures RunFrom(worlds, actions, commands) && worlds[0] == w && RanThrough(w, p, worlds[|actions|], commands)
    ensures forall i :: 0 <= i < |actions| ==>
              actions[i] in {Begin(p), ReadRow(p), CommitStale(p), CallIndex(p), WriteRow(p), Commit(p)}
  {
    worlds, actions := [w], [];
    worlds, actions := OneMore(worlds, actions, commands, Begin(p));
    worlds, actions := OneMore(worlds, actions, commands, ReadRow(p));
    var read := worlds[|actions|];
    if At(read, p, Stale) {
      worlds, actions := OneMore(worlds, actions, commands, CommitStale(p));
    } else {
      worlds, actions := OneMore(worlds, actions, commands, CallIndex(p));
      worlds, actions := OneMore(worlds, actions, commands, WriteRow(p));
      worlds, actions := OneMore(worlds, actions, commands, Commit(p));
    }
  }

  lemma OneMore(worlds: seq<World>, actions: seq<Action>, commands: Commands, a: Action)
    returns (worlds': seq<World>, actions': seq<Action>)
    requires RunFrom(worlds, actions, commands) && Enabled(worlds[|actions|], a)
    ensures RunFrom(worlds', actions', commands) && actions' == actions + [a]
    ensures worlds' == worlds + [Next(worlds[|actions|], a, commands)]
  {
    var w := Next(worlds[|actions|], a, commands);
    RunSnoc(worlds, actions, commands, a, w);
    worlds', actions' := worlds + [w], actions + [a];
  }

  // ---- Postgres: an advisory lock per document ----

  /** The advisory lock key of a document; different documents may share one. */
  type Hash = Document -> int

  /** The lock table beside a step: beginning takes a free key, and the end of the transaction releases it. */
  ghost predicate LockStep(locks: map<int, nat>, w: World, a: Action, w': World, locks': map<int, nat>, hash: Hash) {
    if a.Begin? && a.worker in w.flight then
      hash(w.flight[a.worker].document) !in locks && locks' == locks[hash(w.flight[a.worker].document) := a.worker]
    else if a.worker in w.flight && a.worker !in w'.flight && w.flight[a.worker].phase != Waiting then
      locks' == locks - {hash(w.flight[a.worker].document)}
    else
      locks' == locks
  }

  /** A run of the Postgres handlers, with the lock table beside every world. */
  ghost predicate LockedRun(worlds: seq<World>, locks: seq<map<int, nat>>, actions: seq<Action>, commands: Commands,
                            hash: Hash)
  {
    && Run(worlds, actions, commands) && |locks| == |worlds| && locks[0] == map[]
    && forall i :: 0 <= i < |actions| ==> LockStep(locks[i], worlds[i], actions[i], worlds[i + 1], locks[i + 1], hash)
  }

  /** Every delivery past waiting holds the lock of its document. */
  ghost predicate LocksHeld(w: World, locks: map<int, nat>, hash: Hash) {
    forall p :: p in w.flight && w.flight[p].phase != Waiting ==> Get(locks, hash(w.flight[p].document)) == Some(p)
  }

  lemma StepKeepsLocks(w: World, locks: map<int, nat>, a: Action, locks': map<int, nat>, commands: Commands, hash: Hash)
    requires LocksHeld(w, locks, hash) && Enabled(w, a) && LockStep(locks, w, a, Next(w, a, commands), locks', hash)
    ensures LocksHeld(Next(w, a, commands), locks', hash)
  {
    var w' := Next(w, a, commands);
    forall p | p in w'.flight && w'.flight[p].phase != Waiting
      ensures Get(locks', hash(w'.flight[p].document)) == Some(p)
    {
      if p != a.worker {
        assert p in w.flight && w.flight[p] == w'.flight[p];
        assert Get(locks, hash(w.flight[p].document)) == Some(p);
      }
    }
  }

  /** The lock keeps the deliveries of every document apart. */
  lemma {:induction false} LocksKeepApart(worlds: seq<World>, locks: seq<map<int, nat>>, actions: seq<Action>,
                                          commands: Commands, hash: Hash, n: nat)
    requires LockedRun(worlds, locks, actions, commands, hash) && n < |worlds|
    ensures LocksHeld(worlds[n], locks[n], hash) && forall d :: Apart(worlds[n], d)
  {
    if n > 0 {
      LocksKeepApart(worlds, locks, actions, commands, hash, n - 1);
      assert StepAt(worlds, actions, commands, n - 1);
      StepKeepsLocks(worlds[n - 1], locks[n - 1], actions[n - 1], locks[n], commands, hash);
    }
  }

  /** So the Postgres handlers converge on every document, in every run. */
  lemma PostgresConverges(worlds: seq<World>, locks: seq<map<int, nat>>, actions: seq<Action>, commands: Commands,
                          hash: Hash, d: Document, highest: int, m: nat, n: nat)
    requires LockedRun(worlds, locks, actions, commands, hash) && Bounded(actions, d, highest)
    requires m <= n < |worlds| && Get(worlds[m].rows, d) == Some(highest)
    ensures RowsRise(worlds, d)
    ensures Get(worlds[n].rows, d) == Some(highest)
    ensures Get(worlds[n].index, d) == Some(Shows(commands(d, highest)))
  {
    forall k | 0 <= k < |worlds| ensures Apart(worlds[k], d) {
      LocksKeepApart(worlds, locks, actions, commands, hash, k);
    }
    RecordedRevisionsGrow(worlds, actions, commands, d, m, n);
    HighestRevisionStays(worlds, actions, commands, d, highest, m, n);
  }

  /** And a highest revision that has completed is recorded and shown from then on. */
  lemma PostgresDelivers(worlds: seq<World>, locks: seq<map<int, nat>>, actions: seq<Action>, commands: Commands,
                         hash: Hash, d: Document, highest: int, k: nat, n: nat)
    requires LockedRun(worlds, locks, actions, commands, hash) && Bounded(actions, d, highest)
    requires k < |actions| && Completes(worlds, actions, k, d, highest) && k < n < |worlds|
    ensures Get(worlds[n].rows, d) == Some(highest) && Holds(worlds[n], d, commands(d, highest))
  {
    forall i | 0 <= i < |worlds| ensures Apart(worlds[i], d) {
      LocksKeepApart(worlds, locks, actions, commands, hash, i);
    }
    HighestDeliveryWins(worlds, actions, commands, d, highest, k, n);
  }

  // ---- Without anything that keeps deliveries apart ----

  /** The row holds one revision while the index shows another, and nothing in flight can change either. */
  ghost predicate Stuck(w: World, d: Document, shown: int, recorded: int, commands: Commands) {
    && Get(w.rows, d) == Some(recorded) && Get(w.index, d) == Some(Shows(commands(d, shown)))
    && forall p :: p in w.flight && w.flight[p].document == d ==>
         w.flight[p].revision <= recorded && w.flight[p].phase in {Waiting, Begun, Stale}
  }

  lemma StepStaysStuck(w: World, a: Action, d: Document, shown: int, recorded: int, commands: Commands)
    requires Stuck(w, d, shown, recorded, commands) && Enabled(w, a)
    requires a.Deliver? && a.document == d ==> a.revision <= recorded
    ensures Stuck(Next(w, a, commands), d, shown, recorded, commands)
  {
    var w' := Next(w, a, commands);
    forall p | p in w'.flight && w'.flight[p].document == d
      ensures w'.flight[p].revision <= recorded && w'.flight[p].phase in {Waiting, Begun, Stale}
    {
      if p != a.worker || !a.Deliver? {
        assert p in w.flight && w.flight[p].document == d;
      }
    }
  }

  /** Every later delivery is stale, so an old effect stays on show for good. */
  lemma {:induction false} StuckStaysStuck(worlds: seq<World>, actions: seq<Action>, commands: Commands, d: Document,
                                           shown: int, recorded: int, n: nat)
    requires RunFrom(worlds, actions, commands) && Stuck(worlds[0], d, shown, recorded, commands)
    requires Bounded(actions, d, recorded) && n < |worlds|
    ensures Stuck(worlds[n], d, shown, recorded, commands)
  {
    if n > 0 {
      StuckStaysStuck(worlds, actions, commands, d, shown, recorded, n - 1);
      assert StepAt(worlds, actions, commands, n - 1);
      StepStaysStuck(worlds[n - 1], actions[n - 1], d, shown, recorded, commands);
    }
  }

  /** Two deliveries of one document in some phases, the newer by worker 0; no phase once the delivery has left. */
  function Pair(d: Document, newer: int, older: int, first: Option<Phase>, second: Option<Phase>): map<nat, Delivery> {
    (match first case None => map[] case Some(phase) => map[0 := Delivery(d, newer, phase)])
    + (match second case None => map[] case Some(phase) => map[1 := Delivery(d, older, phase)])
  }

  lemma RunSnoc(worlds: seq<World>, actions: seq<Action>, commands: Commands, a: Action, w: World)
    requires RunFrom(worlds, actions, commands) && Enabled(worlds[|actions|], a)
    requires w == Next(worlds[|actions|], a, commands)
    ensures RunFrom(worlds + [w], actions + [a], commands)
  {
    forall i | 0 <= i <= |actions| ensures StepAt(worlds + [w], actions + [a], commands, i) {
      if i < |actions| {
        assert StepAt(worlds, actions, commands, i);
      }
    }
  }

  /** Both deliveries read the row before either has written it. */
  lemma BothRead(d: Document, older: int, newer: int, commands: Commands)
    returns (worlds: seq<World>, actions: seq<Action>)
    ensures RunFrom(worlds, actions, commands) && worlds[0] == START
    ensures worlds[|actions|] == START.(flight := Pair(d, newer, older, Some(Fresh), Some(Fresh)))
    ensures Bounded(actions, d, if older < newer then newer else older)
  {
    worlds, actions := [START], [];
    var w := START.(flight := Pair(d, newer, older, Some(Waiting), None));
    RunSnoc(worlds, actions, commands, Deliver(0, d, newer), w);
    worlds, actions := worlds + [w], actions + [Deliver(0, d, newer)];
    w := START.(flight := Pair(d, newer, older, Some(Waiting), Some(Waiting)));
    RunSnoc(worlds, actions, commands, Deliver(1, d, older), w);
    worlds, actions := worlds + [w], actions + [Deliver(1, d, older)];
    w := START.(flight := Pair(d, newer, older, Some(Begun), Some(Waiting)));
    RunSnoc(worlds, actions, commands, Begin(0), w);
    worlds, actions := worlds + [w], actions + [Begin(0)];
    w := START.(flight := Pair(d, newer, older, Some(Begun), Some(Begun)));
    RunSnoc(worlds, actions, commands, Begin(1), w);
    worlds, actions := worlds + [w], actions + [Begin(1)];
    w := START.(flight := Pair(d, newer, older, Some(Fresh), Some(Begun)));
    RunSnoc(worlds, actions, commands, ReadRow(0), w);
    worlds, actions := worlds + [w], actions + [ReadRow(0)];
    w := START.(flight := Pair(d, newer, older, Some(Fresh), Some(Fresh)));
    RunSnoc(worlds, actions, commands, ReadRow(1), w);
    worlds, actions := worlds + [w], actions + [ReadRow(1)];
  }

  /** The newer delivery reaches the index and records its revision. */
  lemma NewerGoesAhead(d: Document, older: int, newer: int, commands: Commands)
    returns (worlds: seq<World>, actions: seq<Action>)
    ensures Run(worlds, actions, commands) && Bounded(actions, d, if older < newer then newer else older)
    ensures worlds[|actions|] == World(map[d := newer], map[d := Shows(commands(d, newer))], map[d := newer],
                                       Pair(d, newer, older, None, Some(Fresh)))
  {
    worlds, actions := BothRead(d, older, newer, commands);
    var index, shown := map[d := Shows(commands(d, newer))], map[d := newer];
    var w := World(map[], index, shown, Pair(d, newer, older, Some(Indexed), Some(Fresh)));
    RunSnoc(worlds, actions, commands, CallIndex(0), w);
    worlds, actions := worlds + [w], actions + [CallIndex(0)];
    w := World(map[], index, shown, Pair(d, newer, older, Some(Recorded), Some(Fresh)));
    RunSnoc(worlds, actions, commands, WriteRow(0), w);
    worlds, actions := worlds + [w], actions + [WriteRow(0)];
    w := World(map[d := newer], index, shown, Pair(d, newer, older, None, Some(Fresh)));
    RunSnoc(worlds, actions, commands, Commit(0), w);
    worlds, actions := worlds + [w], actions + [Commit(0)];
  }

  /** The older delivery reaches the index after it, and fails to record its own revision. */
  lemma OlderReachesTheIndexLast(d: Document, older: int, newer: int, commands: Commands)
    returns (worlds: seq<World>, actions: seq<Action>)
    ensures Run(worlds, actions, commands) && Bounded(actions, d, if older < newer then newer else older)
    ensures worlds[|actions|] == World(map[d := newer], map[d := Shows(commands(d, older))], map[d := older], map[])
  {
    worlds, actions := NewerGoesAhead(d, older, newer, commands);
    var index, shown := map[d := Shows(commands(d, older))], map[d := older];
    var w := World(map[d := newer], index, shown, Pair(d, newer, older, None, Some(Indexed)));
    RunSnoc(worlds, actions, commands, CallIndex(1), w);
    worlds, actions := worlds + [w], actions + [CallIndex(1)];
    w := World(map[d := newer], index, shown, map[]);
    RunSnoc(worlds, actions, commands, Abandon(1), w);
    worlds, actions := worlds + [w], actions + [Abandon(1)];
  }

  /**
   * Being apart is needed: for any two revisions of a document there is a run of two overlapping deliveries that
   * records the newer and shows the older, and no continuation without a newer revision ever repairs it.
   */
  lemma OverlapLeavesTheOlderForGood(d: Document, older: int, newer: int, commands: Commands)
    returns (worlds: seq<World>, actions: seq<Action>)
    requires older < newer
    ensures Run(worlds, actions, commands) && Bounded(actions, d, newer)
    ensures Get(worlds[|actions|].rows, d) == Some(newer)
    ensures forall later: seq<World>, more: seq<Action>, n: int ::
              RunFrom(later, more, commands) && later[0] == worlds[|actions|]
              && Bounded(more, d, newer) && 0 <= n < |later|
              ==> Get(later[n].rows, d) == Some(newer) && Get(later[n].index, d) == Some(Shows(commands(d, older)))
  {
    worlds, actions := OlderReachesTheIndexLast(d, older, newer, commands);
    forall later: seq<World>, more: seq<Action>, n: int |
        RunFrom(later, more, commands) && later[0] == worlds[|actions|] && Bounded(more, d, newer) && 0 <= n < |later|
      ensures Get(later[n].rows, d) == Some(newer) && Get(later[n].index, d) == Some(Shows(commands(d, older)))
    {
      StuckStaysStuck(later, more, commands, d, older, newer, n);
    }
  }
}
