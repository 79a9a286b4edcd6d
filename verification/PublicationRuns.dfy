/** What holds over whole publication runs: crashes, other programs, several publishers, retries. */
module PublicationRuns {
  import opened Content
  import opened ChangePlans
  import opened FileTree
  import opened Publisher
  import OrderedMaps
  import CompositionMeaning
  import Composition

  // ---- Crashes ----

  /** The tree after the first `k` steps of a run. */
  ghost function StateAt(job: Job, history: seq<Step>, k: nat): Tree
    requires k <= |history|
  {
    job.Tip(history[..k])
  }

  /**
   * A process that stops after any number of steps leaves a sound tree; if the marker is gone, the tree is the
   * original one or the published one.
   */
  lemma CrashLeavesSoundTree(job: Job, history: seq<Step>, k: nat)
    requires job.Clean(history, true) && k <= |history|
    ensures 0 < k ==> job.Sound(StateAt(job, history, k))
    ensures MARKER !in StateAt(job, history, k) ==>
              StateAt(job, history, k) == job.origin || job.Published(StateAt(job, history, k))
  {
    if 0 < k {
      assert job.StepClean(history, k - 1, true);
    }
  }

  /** Only the last step of a run can remove the marker, and nothing happens before the first step creates it. */
  lemma MarkerSpansTheRun(job: Job, history: seq<Step>, quiet: bool, k: nat)
    requires job.Clean(history, quiet) && k < |history| && !history[0].foreign
    ensures MARKER !in job.origin && MARKER in history[0].after
    ensures 0 < k ==> MARKER in history[k].before && history[k].before == history[k - 1].after
    ensures k + 1 < |history| ==> MARKER in history[k].after
  {
    assert job.StepClean(history, 0, quiet) && job.StepClean(history, k, quiet);
    if k + 1 < |history| {
      assert job.StepClean(history, k + 1, quiet);
      assert history[..k + 1][k] == history[k];
    }
    if 0 < k {
      assert history[..k][k - 1] == history[k - 1];
    }
  }

  // ---- Other programs ----

  ghost function PutAt(job: Job, history: seq<Step>, k: nat): Put
    requires k <= |history|
  {
    job.TipPut(history[..k])
  }

  /** No other program changes `n` between the two points of the history. */
  ghost predicate LeftAlone(history: seq<Step>, n: Name, from: nat, to: nat)
    requires from <= to <= |history|
  {
    forall k :: from <= k < to && history[k].foreign ==> Get(history[k].after, n) == Get(history[k].before, n)
  }

  /**
   * Content another program has put at a name, which is neither what the run last left there nor, at a name the run
   * has not touched, what the plan's guard names, stays there through publication, commit and rollback until another
   * program changes it.
   */
  lemma {:induction false} ForeignContentSurvives(job: Job, history: seq<Step>, quiet: bool, n: Name, o: FileObject,
                                                  from: nat, to: nat)
    requires job.Clean(history, quiet) && from <= to <= |history| && LeftAlone(history, n, from, to)
    requires Get(StateAt(job, history, from), n) == Some(o) && !job.Entitled(n, o, PutAt(job, history, from))
    ensures Get(StateAt(job, history, to), n) == Some(o) && !job.Entitled(n, o, PutAt(job, history, to))
    ensures Get(PutAt(job, history, to), n) == Get(PutAt(job, history, from), n)
  {
    if from < to {
      ForeignContentSurvives(job, history, quiet, n, o, from, to - 1);
      var step := history[to - 1];
      assert job.StepClean(history, to - 1, quiet);
      assert history[..to][to - 1] == step;
      assert job.Respectful(step) && job.Accounted(step);
      assert Get(step.after, n) == Some(o);
      assert Get(step.put', n) == Get(step.put, n);
    }
  }

  /**
   * A change by another program at a path the run has not published yet, be it new content, a replaced file, other
   * permissions, a deletion or a creation, is caught: if it is left alone, the run never touches the path, so it
   * cannot end with a receipt, which promises that every result was put in place.
   */
  lemma EarlyForeignChangeIsCaught(job: Job, history: seq<Step>, quiet: bool, i: nat, k: nat)
    requires job.Clean(history, quiet) && i < |job.plan| && k <= |history|
    requires LeftAlone(history, job.Target(i), k, |history|)
    requires job.Target(i) !in PutAt(job, history, k) && !job.OldAt(i, StateAt(job, history, k))
    ensures Get(job.Tip(history), job.Target(i)) == Get(StateAt(job, history, k), job.Target(i))
    ensures job.Target(i) !in job.TipPut(history) && !job.PutInPlace(job.TipPut(history))
  {
    NeverTouched(job, history, quiet, i, k, |history|);
    assert history[..|history|] == history;
    assert !job.LeftAt(i, job.TipPut(history));
  }

  lemma {:induction false} NeverTouched(job: Job, history: seq<Step>, quiet: bool, i: nat, from: nat, to: nat)
    requires job.Clean(history, quiet) && i < |job.plan| && from <= to <= |history|
    requires LeftAlone(history, job.Target(i), from, to)
    requires job.Target(i) !in PutAt(job, history, from) && !job.OldAt(i, StateAt(job, history, from))
    ensures Get(StateAt(job, history, to), job.Target(i)) == Get(StateAt(job, history, from), job.Target(i))
    ensures job.Target(i) !in PutAt(job, history, to)
  {
    if from < to {
      NeverTouched(job, history, quiet, i, from, to - 1);
      var step, n := history[to - 1], job.Target(i);
      assert job.StepClean(history, to - 1, quiet);
      assert history[..to][to - 1] == step;
      assert n in step.put' ==> job.TakesEffect(i, step.before, step.after);
      assert Get(step.put', n) == Get(step.put, n);
    }
  }

  // ---- Several publishers ----

  /** One step of one of several publishers working on the same tree. */
  datatype Turn = Turn(run: nat, before: Tree, after: Tree)

  ghost function SharedTree(start: Tree, turns: seq<Turn>, k: nat): Tree
    requires k <= |turns|
  {
    if k == 0 then start else turns[k - 1].after
  }

  /** The latest turn of a run among the first `k`. */
  ghost function LastTurn(turns: seq<Turn>, k: nat, run: nat): Option<Turn>
    requires k <= |turns|
  {
    if k == 0 then None
    else if turns[k - 1].run == run then Some(turns[k - 1])
    else LastTurn(turns, k - 1, run)
  }

  /** A run that has started and has not removed its marker. */
  ghost predicate Open(turns: seq<Turn>, k: nat, run: nat)
    requires k <= |turns|
  {
    LastTurn(turns, k, run).Some? && MARKER in LastTurn(turns, k, run).value.after
  }

  /**
   * Each run, seen alone, behaves as `MarkerSpansTheRun` says: its first turn creates the marker exclusively and
   * it takes no turn after removing it. Nothing is assumed about how the runs interleave.
   */
  ghost predicate Interleaving(start: Tree, turns: seq<Turn>) {
    forall k :: 0 <= k < |turns| ==> LegalTurn(start, turns, k)
  }

  ghost predicate LegalTurn(start: Tree, turns: seq<Turn>, k: nat)
    requires k < |turns|
  {
    && turns[k].before == SharedTree(start, turns, k)
    && (LastTurn(turns, k, turns[k].run).None? ==> MARKER !in turns[k].before && MARKER in turns[k].after)
    && (LastTurn(turns, k, turns[k].run).Some? ==> Open(turns, k, turns[k].run))
  }

  /** At any point, a run that is open is the one that moved last, and the marker is in place. */
  lemma {:induction false} OnlyTheLastMoverIsOpen(start: Tree, turns: seq<Turn>, k: nat, run: nat)
    requires Interleaving(start, turns) && k <= |turns| && Open(turns, k, run)
    ensures 0 < k && run == turns[k - 1].run && MARKER in SharedTree(start, turns, k)
  {
    assert LegalTurn(start, turns, k - 1);
    if run != turns[k - 1].run {
      OnlyTheLastMoverIsOpen(start, turns, k - 1, run);
      var mover := turns[k - 1].run;
      if LastTurn(turns, k - 1, mover).Some? {
        OnlyTheLastMoverIsOpen(start, turns, k - 1, mover);
      }
    }
  }

  /**
   * Publishers exclude one another: two open runs are the same run, and the tree passes from one run to another
   * only after the first has removed its marker, so every interleaving is a sequence of whole runs.
   */
  lemma PublishersAreSerial(start: Tree, turns: seq<Turn>)
    requires Interleaving(start, turns)
    ensures forall k, a, b :: 0 <= k <= |turns| && Open(turns, k, a) && Open(turns, k, b) ==> a == b
    ensures forall k :: 0 < k < |turns| && turns[k].run != turns[k - 1].run ==>
              MARKER !in turns[k - 1].after && LastTurn(turns, k, turns[k].run).None?
  {
    forall k, a, b | 0 <= k <= |turns| && Open(turns, k, a) && Open(turns, k, b) ensures a == b {
      OnlyTheLastMoverIsOpen(start, turns, k, a);
      OnlyTheLastMoverIsOpen(start, turns, k, b);
    }
    forall k | 0 < k < |turns| && turns[k].run != turns[k - 1].run
      ensures MARKER !in turns[k - 1].after && LastTurn(turns, k, turns[k].run).None?
    {
      assert LegalTurn(start, turns, k);
      if LastTurn(turns, k, turns[k].run).Some? {
        OnlyTheLastMoverIsOpen(start, turns, k, turns[k].run);
      }
    }
  }

  /** A run that stops while open blocks every other publisher from then on. */
  lemma CrashedRunBlocksTheOthers(start: Tree, turns: seq<Turn>, k: nat, run: nat)
    requires Interleaving(start, turns) && k <= |turns| && Open(turns, k, run)
    requires forall j :: k <= j < |turns| ==> turns[j].run != run
    ensures k == |turns|
  {
    OnlyTheLastMoverIsOpen(start, turns, k, run);
    assert k < |turns| ==> turns[k].run != turns[k - 1].run;
    PublishersAreSerial(start, turns);
  }

  // ---- Serialisability ----

  /** The turns before `k` from `s` on are all the turns of one run so far. */
  ghost predicate Block(turns: seq<Turn>, s: nat, k: nat)
    requires s < k <= |turns|
  {
    LastTurn(turns, s, turns[s].run).None? && forall j :: s <= j < k ==> turns[j].run == turns[s].run
  }

  /** These turns are the steps of an undisturbed publication, complete or cut short. */
  ghost predicate Publication(job: Job, turns: seq<Turn>) {
    && ValidPlan(job.plan) && job.WellPosed()
    && exists history :: job.Clean(history, true) && Follows(turns, history)
  }

  ghost predicate Follows(turns: seq<Turn>, history: seq<Step>) {
    && |turns| == |history|
    && forall j :: 0 <= j < |turns| ==> turns[j].before == history[j].before && turns[j].after == history[j].after
  }

  ghost function JobOf(start: Tree, turns: seq<Turn>, s: nat, plans: nat -> seq<PlannedFileChange>, txns: nat -> string)
    : Job
    requires s < |turns|
  {
    Job(plans(turns[s].run), txns(turns[s].run), SharedTree(start, turns, s))
  }

  /** An interleaving in which every run, as long as nobody else takes a turn among its own, publishes its plan. */
  ghost predicate Publishing(start: Tree, turns: seq<Turn>, plans: nat -> seq<PlannedFileChange>, txns: nat -> string) {
    && Interleaving(start, turns)
    && forall s, k :: 0 <= s < k <= |turns| && Block(turns, s, k) ==>
         Publication(JobOf(start, turns, s, plans, txns), turns[s..k])
  }

  /** The first turn of a run among the first `k`. */
  ghost function FirstTurn(turns: seq<Turn>, k: nat, run: nat): (s: nat)
    requires k <= |turns| && LastTurn(turns, k, run).Some?
    ensures s < k && turns[s].run == run && LastTurn(turns, s, run).None?
  {
    if LastTurn(turns, k - 1, run).Some? then FirstTurn(turns, k - 1, run) else k - 1
  }

  /** In every interleaving, all turns of a run up to its latest follow one another, with the marker between them. */
  lemma {:induction false} TurnsAreTogether(start: Tree, turns: seq<Turn>, k: nat)
    requires Interleaving(start, turns) && 0 < k <= |turns|
    ensures var s := FirstTurn(turns, k, turns[k - 1].run);
            && Block(turns, s, k) && MARKER !in SharedTree(start, turns, s)
            && forall j :: s <= j < k - 1 ==> MARKER in turns[j].after
  {
    var run := turns[k - 1].run;
    assert LegalTurn(start, turns, k - 1);
    if LastTurn(turns, k - 1, run).Some? {
      OnlyTheLastMoverIsOpen(start, turns, k - 1, run);
      TurnsAreTogether(start, turns, k - 1);
    }
  }

  /** The runs that have removed their marker over a changed tree, in order. */
  ghost function PublishedRuns(start: Tree, turns: seq<Turn>, k: nat): seq<nat>
    requires k <= |turns|
  {
    if k == 0 then []
    else if MARKER !in turns[k - 1].after
         && turns[k - 1].after != SharedTree(start, turns, FirstTurn(turns, k, turns[k - 1].run))
    then PublishedRuns(start, turns, k - 1) + [turns[k - 1].run]
    else PublishedRuns(start, turns, k - 1)
  }

  lemma {:induction false} NothingPublishedWithin(start: Tree, turns: seq<Turn>, s: nat, k: nat)
    requires s <= k <= |turns| && forall j :: s <= j < k ==> MARKER in turns[j].after
    ensures PublishedRuns(start, turns, k) == PublishedRuns(start, turns, s)
  {
    if s < k {
      NothingPublishedWithin(start, turns, s, k - 1);
    }
  }

  ghost function PlansOf(plans: nat -> seq<PlannedFileChange>, runs: seq<nat>): seq<seq<PlannedFileChange>> {
    seq(|runs|, i requires 0 <= i < |runs| => plans(runs[i]))
  }

  /** An undisturbed run that has given its marker up restored the tree, or published with every guard met. */
  lemma OutcomeOfARun(job: Job, history: seq<Step>)
    requires job.WellPosed() && job.Clean(history, true) && MARKER !in job.origin && MARKER !in job.Tip(history)
    ensures job.Tip(history) == job.origin ||
            (job.Published(job.Tip(history)) && forall i :: 0 <= i < |job.plan| ==> job.GuardHolds(i))
  {
    var t := job.Tip(history);
    if t != job.origin {
      assert job.StepClean(history, |history| - 1, true);
      assert job.Published(t);
      if forall i :: 0 <= i < |job.plan| ==> job.OldAt(i, t) {
        job.SameTree(t);
        assert false;
      }
      var i :| 0 <= i < |job.plan| && !job.OldAt(i, t);
      job.ChangedIsTouched(history, job.Target(i));
      job.TouchedIsCarriedOut(history, true, i);
      var k :| 0 <= k < |history| && !history[k].foreign && job.TakesEffect(i, history[k].before, history[k].after);
    }
  }

  /** So its contents are those of its plan run on the original contents. */
  lemma ContentsAfterARun(job: Job, turns: seq<Turn>)
    requires Publication(job, turns) && turns != [] && MARKER !in job.origin && MARKER !in turns[|turns| - 1].after
    ensures var t := turns[|turns| - 1].after;
            t == job.origin || CompositionMeaning.Run(job.plan, Contents(job.origin)) == Some(Contents(t))
  {
    var history :| job.Clean(history, true) && Follows(turns, history);
    var t := turns[|turns| - 1].after;
    assert t == job.Tip(history);
    OutcomeOfARun(job, history);
    if t != job.origin {
      PublishedTreeIsTheMeaningOfThePlan(job, t);
    }
  }

  lemma ContentsAfterABlock(start: Tree, turns: seq<Turn>, plans: nat -> seq<PlannedFileChange>, txns: nat -> string,
                            s: nat, k: nat)
    requires Publishing(start, turns, plans, txns) && s < k <= |turns| && Block(turns, s, k)
    requires MARKER !in SharedTree(start, turns, s) && MARKER !in turns[k - 1].after
    ensures var before, after := SharedTree(start, turns, s), turns[k - 1].after;
            after == before || CompositionMeaning.Run(plans(turns[s].run), Contents(before)) == Some(Contents(after))
  {
    assert turns[s..k][k - s - 1] == turns[k - 1];
    ContentsAfterARun(JobOf(start, turns, s, plans, txns), turns[s..k]);
  }

  lemma OneMorePlan(plans: nat -> seq<PlannedFileChange>, runs: seq<nat>, run: nat, files: CompositionMeaning.Files,
                    now: CompositionMeaning.Files)
    requires CompositionMeaning.RunPlans(PlansOf(plans, runs), files) == Some(now)
    ensures CompositionMeaning.RunPlans(PlansOf(plans, runs + [run]), files) == CompositionMeaning.Run(plans(run), now)
  {
    var longer := PlansOf(plans, runs + [run]);
    assert longer[..|runs|] == PlansOf(plans, runs);
  }

  /**
   * Publishing is serialisable: for every interleaving of crashed, failed and completed runs, whenever no marker is
   * present, the application holds what running the plans of exactly the runs that published, in order, would leave.
   */
  lemma {:induction false} PublishingIsSerialisable(start: Tree, turns: seq<Turn>, plans: nat -> seq<PlannedFileChange>,
                                                    txns: nat -> string, k: nat)
    requires Publishing(start, turns, plans, txns) && k <= |turns|
    requires MARKER !in start && MARKER !in SharedTree(start, turns, k)
    ensures CompositionMeaning.RunPlans(PlansOf(plans, PublishedRuns(start, turns, k)), Contents(start)) ==
            Some(Contents(SharedTree(start, turns, k)))
  {
    if k > 0 {
      TurnsAreTogether(start, turns, k);
      var s := FirstTurn(turns, k, turns[k - 1].run);
      PublishingIsSerialisable(start, turns, plans, txns, s);
      ContentsAfterABlock(start, turns, plans, txns, s, k);
      PublishedAfterABlock(start, turns, s, k);
      AfterABlock(plans, PublishedRuns(start, turns, s), turns[s].run, Contents(start), SharedTree(start, turns, s),
                  turns[k - 1].after);
    }
  }

  lemma PublishedAfterABlock(start: Tree, turns: seq<Turn>, s: nat, k: nat)
    requires s < k <= |turns| && s == FirstTurn(turns, k, turns[k - 1].run) && MARKER !in turns[k - 1].after
    requires forall j :: s <= j < k - 1 ==> MARKER in turns[j].after
    ensures PublishedRuns(start, turns, k) ==
            PublishedRuns(start, turns, s)
            + if turns[k - 1].after == SharedTree(start, turns, s) then [] else [turns[s].run]
  {
    NothingPublishedWithin(start, turns, s, k - 1);
  }

  lemma AfterABlock(plans: nat -> seq<PlannedFileChange>, runs: seq<nat>, run: nat, files: CompositionMeaning.Files,
                    before: Tree, after: Tree)
    requires CompositionMeaning.RunPlans(PlansOf(plans, runs), files) == Some(Contents(before))
    requires after == before || CompositionMeaning.Run(plans(run), Contents(before)) == Some(Contents(after))
    ensures CompositionMeaning.RunPlans(PlansOf(plans, runs + if after == before then [] else [run]), files) ==
            Some(Contents(after))
  {
    if after == before {
      assert runs + [] == runs;
    } else {
      OneMorePlan(plans, runs, run, files, Contents(before));
    }
  }

  /** The hypothesis is met: the steps of every undisturbed run of the publisher are such an interleaving. */
  lemma PublicationTakesTurns(job: Job, history: seq<Step>, run: nat)
    requires job.Clean(history, true) && ValidPlan(job.plan) && job.WellPosed()
    ensures Publishing(job.origin, TurnsOf(history, run), _ => job.plan, _ => job.txn)
  {
    var turns := TurnsOf(history, run);
    forall k | 0 <= k < |turns| ensures LegalTurn(job.origin, turns, k) {
      assert job.StepClean(history, 0, true) && job.StepClean(history, k, true);
      MarkerSpansTheRun(job, history, true, k);
      LoneTurns(history, run, k);
    }
    forall s, k | 0 <= s < k <= |turns| && Block(turns, s, k)
      ensures Publication(JobOf(job.origin, turns, s, _ => job.plan, _ => job.txn), turns[s..k])
    {
      LoneTurns(history, run, s);
      job.CleanPrefix(history, true, k);
      assert Follows(turns[s..k], history[..k]);
    }
  }

  ghost function TurnsOf(history: seq<Step>, run: nat): seq<Turn> {
    seq(|history|, k requires 0 <= k < |history| => Turn(run, history[k].before, history[k].after))
  }

  lemma LoneTurns(history: seq<Step>, run: nat, k: nat)
    requires k <= |history|
    ensures LastTurn(TurnsOf(history, run), k, run) == if k == 0 then None else Some(TurnsOf(history, run)[k - 1])
  {
  }

  // ---- Retry ----

  /**
   * An undisturbed run with arbitrary faults, and a fault-free second run if the first has given the marker up:
   * whenever the first run restored the tree, the second one succeeds.
   */
  method RetryAfterRestoredRun(plan: seq<PlannedFileChange>, firstTxn: string, secondTxn: string, tree: Tree,
                               manifest: Bytes, noReplace: Directory -> Support, exchange: Directory -> Support)
    returns (first: Outcome, between: Tree, second: Option<Outcome>, after: Tree, ghost faults: nat)
    requires forall n :: n in tree && !n.Entry? ==> n.txn != firstTxn && n.txn != secondTxn
    requires plan != [] && ValidPlan(plan) && Job(plan, firstTxn, tree).Publishable(noReplace, exchange)
    ensures first.Receipt? ==> Job(plan, firstTxn, tree).Published(between)
    ensures MARKER !in between && !Job(plan, firstTxn, tree).Published(between) ==> between == tree
    ensures MARKER !in between && between == tree && faults == 0 ==>
              second == Some(Receipt(|plan|)) && Job(plan, secondTxn, tree).Published(after)
    ensures MARKER in between ==> second.None? && after == between
  {
    var job := Job(plan, firstTxn, tree);
    var run := new Publication(job, manifest, true, false, noReplace, exchange);
    first := run.Publish();
    between := run.tree;
    if MARKER in between || between != tree {
      return first, between, None, between, 0;
    }
    var again := Job(plan, secondTxn, between);
    assert again.Publishable(noReplace, exchange) by {
      forall i | 0 <= i < |plan| ensures again.GuardHolds(i) && again.SupportedAt(i, noReplace, exchange) {
        assert job.GuardHolds(i) && job.SupportedAt(i, noReplace, exchange);
      }
    }
    var retry := new Publication(again, manifest, true, true, noReplace, exchange);
    var outcome := retry.Publish();
    second := Some(outcome);
    after, faults := retry.tree, retry.faults;
  }

  // ---- What a published tree contains ----

  /** The contents of the application's files, by path. */
  ghost function Contents(t: Tree): CompositionMeaning.Files {
    map n | n in t && n.Entry? :: n.path := t[n].bytes
  }

  lemma ContentsAt(t: Tree, p: Path)
    ensures Get(Contents(t), p) == if Entry(p) in t then Some(t[Entry(p)].bytes) else None
  {
    if Entry(p) in t {
      assert Entry(p).path in Contents(t);
    }
  }

  /** The guards of the plan hold of the original contents. */
  lemma GuardsHoldOfContents(job: Job, m: Composition.ByPath)
    requires Composition.Lists(job.plan, m) && Composition.Filed(m)
    requires forall i :: 0 <= i < |job.plan| ==> job.GuardHolds(i)
    ensures CompositionMeaning.GuardsHold(m, Contents(job.origin))
  {
    forall p | p in m ensures CompositionMeaning.Holds(m[p].Precondition(), Get(Contents(job.origin), p)) {
      var i :| 0 <= i < |job.plan| && job.plan[i] == m[p];
      assert job.GuardHolds(i) && job.Target(i) == Entry(p);
      ContentsAt(job.origin, p);
    }
  }

  /** Each path of a published tree holds the plan's result, or what it held before. */
  lemma PublishedAtPath(job: Job, t: Tree, m: Composition.ByPath, p: Path)
    requires Composition.Lists(job.plan, m) && Composition.Filed(m) && job.Published(t) && MARKER !in job.origin
    ensures Get(Contents(t), p) == CompositionMeaning.ResultAt(m, Contents(job.origin), p)
  {
    ContentsAt(job.origin, p);
    ContentsAt(t, p);
    if p in m {
      var i :| 0 <= i < |job.plan| && job.plan[i] == m[p];
      assert job.FinalAt(i, t) && job.Target(i) == Entry(p);
    } else {
      NotATarget(job, m, p);
      assert Entry(p) == MARKER || Get(t, Entry(p)) == Get(job.origin, Entry(p));
    }
  }

  /** A published tree holds exactly what running the plan's changes one after another would leave. */
  lemma PublishedTreeIsTheMeaningOfThePlan(job: Job, t: Tree)
    requires ValidPlan(job.plan) && job.Published(t) && MARKER !in job.origin
    requires forall i :: 0 <= i < |job.plan| ==> job.GuardHolds(i)
    ensures CompositionMeaning.Run(job.plan, Contents(job.origin)) == Some(Contents(t))
  {
    CompositionMeaning.AddPlanToNothing(job.plan);
    Composition.AddAllFiled(map[], job.plan);
    var m := Composition.AddAll(map[], job.plan).value;
    GuardsHoldOfContents(job, m);
    forall p ensures Get(Contents(t), p) == CompositionMeaning.ResultAt(m, Contents(job.origin), p) {
      PublishedAtPath(job, t, m, p);
    }
    CompositionMeaning.RunIsDetermined(job.plan, Contents(job.origin), Contents(t));
  }

  lemma NotATarget(job: Job, m: Composition.ByPath, p: Path)
    requires Composition.Lists(job.plan, m) && p !in m
    ensures !job.IsTarget(Entry(p))
  {
    forall i | 0 <= i < |job.plan| ensures job.plan[i].Path() != p {
      assert Get(m, job.plan[i].Path()) == Some(job.plan[i]);
    }
  }

  /**
   * Publishing the composition of several plans leaves what running the plans in order would leave, for every tree
   * in which no path stood whose creation the plans retire again.
   */
  lemma PublishedCompositionIsThePlansInOrder(plans: seq<seq<PlannedFileChange>>, job: Job, t: Tree)
    requires forall i :: 0 <= i < |plans| ==> ValidPlan(plans[i])
    requires Composition.AddAll(map[], Composition.Flatten(plans)).Ok?
    requires job.plan == OrderedMaps.IntoValues(Composition.AddAll(map[], Composition.Flatten(plans)).value)
    requires job.Published(t) && MARKER !in job.origin
    requires forall i :: 0 <= i < |job.plan| ==> job.GuardHolds(i)
    requires CompositionMeaning.Cancelled(Composition.Flatten(plans)) !! Contents(job.origin).Keys
    ensures CompositionMeaning.RunPlans(plans, Contents(job.origin)) == Some(Contents(t))
  {
    CompositionMeaning.FlattenSealed(plans);
    Composition.AddAllFiled(map[], Composition.Flatten(plans));
    Composition.IntoValuesLists(Composition.AddAll(map[], Composition.Flatten(plans)).value);
    PublishedTreeIsTheMeaningOfThePlan(job, t);
    CompositionMeaning.CompositionPreservesMeaning(plans, Contents(job.origin), Contents(t));
  }
}
