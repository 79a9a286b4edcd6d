/** The application tree as the publisher sees it, and what one publication promises about it. */
module FileTree {
  import opened Content
  import opened ChangePlans

  type Directory = string

  datatype Side = First | Second

  /** A directory entry: application source, or a file private to one transaction. */
  datatype Name =
    | Entry(path: Path)
    | Temp(dir: Directory, txn: string, index: nat)
    | Probe(dir: Directory, txn: string, index: nat, side: Side)

  /** Identities are arbitrary numbers, so reuse of an inode number is covered. */
  datatype FileObject = FileObject(identity: nat, bytes: Bytes, mode: nat)

  type Tree = map<Name, FileObject>

  /** What a run last left at each name it has changed: an object, or nothing. */
  type Put = map<Name, Option<FileObject>>

  const MUTATION_MARKER: Path := ".hegira-mutation.lock"
  const MARKER := Entry(MUTATION_MARKER)
  const PRIVATE_MODE: nat := 384 // 0o600
  const CREATED_MODE: nat := 420 // 0o644
  const PERMISSIONS: nat := 512  // the permission bits are the mode modulo 0o1000

  /** The directory part of a path, empty for a file at the root. */
  function Parent(path: Path): Directory {
    if '/' !in path then ""
    else if path[|path| - 1] == '/' then path[..|path| - 1]
    else Parent(path[..|path| - 1])
  }

  /** The parent is everything before the last slash. */
  lemma {:induction false} ParentExactly(path: Path)
    ensures '/' !in path ==> Parent(path) == ""
    ensures '/' in path ==> exists name :: path == Parent(path) + "/" + name && '/' !in name
  {
    if '/' in path {
      var init, last := path[..|path| - 1], path[|path| - 1];
      if last == '/' {
        assert path == Parent(path) + "/" + "";
      } else {
        assert path == init + [last];
        ParentExactly(init);
        var name :| init == Parent(init) + "/" + name && '/' !in name;
        assert path == Parent(path) + "/" + (name + [last]);
      }
    }
  }

  datatype RenameFlag = NoReplace | Exchange

  /** How a filesystem treats a rename flag: it honours it, rejects the call, or ignores it and renames plainly. */
  datatype Support = Honoured | Rejected | Ignored

  /** The entry `source` takes the place of whatever `destination` held. */
  function Moved(t: Tree, source: Name, destination: Name): Tree
    requires source in t
  {
    (t - {source})[destination := t[source]]
  }

  function Swapped(t: Tree, source: Name, destination: Name): Tree
    requires source in t && destination in t
  {
    t[source := t[destination]][destination := t[source]]
  }

  /**
   * One filesystem step seen by a run: the trees around it, what the run itself had last put at each name before
   * and after it, and whether another program took the step.
   */
  datatype Step = Step(before: Tree, put: Put, after: Tree, put': Put, foreign: bool)

  /** What preparation observed and staged for one change of the plan, at the same index. */
  datatype PreparedChange = PreparedChange(original: Option<FileObject>, stagedIdentity: nat, published: bool)

  /** Two trees, and what was put in them, agree except at some names. */
  ghost predicate Agree(t: Tree, put: Put, t': Tree, put': Put, except: set<Name>) {
    forall n :: n !in except ==> Get(t', n) == Get(t, n) && Get(put', n) == Get(put, n)
  }

  /** One publication: the plan, the transaction identifier and the tree it starts from. */
  datatype Job = Job(plan: seq<PlannedFileChange>, txn: string, origin: Tree) {
    predicate Own(n: Name) {
      !n.Entry? && n.txn == txn
    }

    predicate Reserved(n: Name) {
      n == MARKER || Own(n)
    }

    function Dir(i: nat): Directory
      requires i < |plan|
    {
      Parent(plan[i].Path())
    }

    function Target(i: nat): Name
      requires i < |plan|
    {
      Entry(plan[i].Path())
    }

    function TempOf(i: nat): Name
      requires i < |plan|
    {
      Temp(Dir(i), txn, i)
    }

    function ProbeOf(i: nat, side: Side): Name
      requires i < |plan|
    {
      Probe(Dir(i), txn, i, side)
    }

    ghost predicate IsTarget(n: Name) {
      exists i :: 0 <= i < |plan| && n == Target(i)
    }

    /** The plan is valid and leaves the marker alone; transaction names are new. */
    ghost predicate WellPosed() {
      && (forall i, j :: 0 <= i < j < |plan| ==> plan[i].Path() != plan[j].Path())
      && (forall i :: 0 <= i < |plan| ==> plan[i].DigestAgrees())
      && (forall i :: 0 <= i < |plan| ==> plan[i].Path() != MUTATION_MARKER)
      && (forall n :: n in origin ==> !Own(n))
    }

    /** The digest guard of change `i` holds of the original tree. */
    ghost predicate GuardHolds(i: nat)
      requires i < |plan|
    {
      match plan[i].Precondition()
      case Absent => Target(i) !in origin
      case MatchesDigest(digest) => Target(i) in origin && Calculate(origin[Target(i)].bytes) == digest
    }

    ghost predicate OldAt(i: nat, t: Tree)
      requires i < |plan|
    {
      Get(t, Target(i)) == Get(origin, Target(i))
    }

    /** The permission bits of the published file. */
    ghost function FinalMode(i: nat): nat
      requires i < |plan|
    {
      if Target(i) in origin then origin[Target(i)].mode % PERMISSIONS else CREATED_MODE
    }

    /** The change shows its complete result; its permissions may still be private. */
    ghost predicate NewAt(i: nat, t: Tree)
      requires i < |plan|
    {
      match plan[i].ResultingContent()
      case None => Target(i) !in t
      case Some(content) =>
        Target(i) in t && t[Target(i)].bytes == content && t[Target(i)].mode in {PRIVATE_MODE, FinalMode(i)}
    }

    ghost predicate FinalAt(i: nat, t: Tree)
      requires i < |plan|
    {
      NewAt(i, t) && (!plan[i].Retire? ==> t[Target(i)].mode == FinalMode(i))
    }

    /** The original file object is parked under the transaction's temporary name. */
    ghost predicate BackupAt(i: nat, t: Tree)
      requires i < |plan|
    {
      !plan[i].Create? ==> Get(t, TempOf(i)) == Get(origin, Target(i))
    }

    /** Every change is either untouched, or applied with its original kept aside. */
    ghost predicate Tracked(t: Tree) {
      forall i :: 0 <= i < |plan| ==> OldAt(i, t) || (NewAt(i, t) && BackupAt(i, t))
    }

    ghost predicate AllFinal(t: Tree) {
      forall i :: 0 <= i < |plan| ==> FinalAt(i, t)
    }

    /** Everything outside the plan, the marker and the transaction's own names is as it was. */
    ghost predicate Framed(t: Tree) {
      forall n :: !Reserved(n) && !IsTarget(n) ==> Get(t, n) == Get(origin, n)
    }

    ghost predicate NoOwn(t: Tree) {
      forall n :: n in t ==> !Own(n)
    }

    /** Exactly the published tree: every result in place, nothing else changed, nothing left behind. */
    ghost predicate Published(t: Tree) {
      AllFinal(t) && Framed(t) && NoOwn(t) && MARKER !in t
    }

    /** What every intermediate tree of a run without other writers promises, crash or no crash. */
    ghost predicate Sound(t: Tree) {
      && (MARKER !in t ==> t == origin || Published(t))
      && (forall i :: 0 <= i < |plan| ==> OldAt(i, t) || NewAt(i, t))
      && ((forall i :: 0 <= i < |plan| ==> OldAt(i, t) || BackupAt(i, t)) || AllFinal(t))
    }

    /**
     * The run may change the object at `n`: it is the one the run last left there, or the run has not touched the
     * name yet and the object is the one the plan's guard names.
     */
    ghost predicate Entitled(n: Name, o: FileObject, put: Put) {
      if n in put then
        put[n].Some? && o.identity == put[n].value.identity && o.bytes == put[n].value.bytes
      else
        exists i :: 0 <= i < |plan| && n == Target(i) && plan[i].Precondition() == MatchesDigest(Calculate(o.bytes))
    }

    /** A step of the run replaces, moves or removes only objects it is entitled to. */
    ghost predicate Respectful(step: Step) {
      step.foreign ||
      forall n :: n in step.before && Get(step.after, n) != Some(step.before[n])
                  ==> Entitled(n, step.before[n], step.put)
    }

    /**
     * The run keeps account of exactly the names it changes: it records what it leaves there, and it changes a name
     * only over nothing or over an object it is entitled to.
     */
    ghost predicate Accounted(step: Step) {
      && (forall n :: Get(step.put', n) != Get(step.put, n) ==>
            && !step.foreign && Get(step.put', n) == Some(Get(step.after, n))
            && (n in step.before ==> Entitled(n, step.before[n], step.put)))
      && (!step.foreign ==>
            forall n :: Get(step.after, n) != Get(step.before, n) ==> Get(step.put', n) == Some(Get(step.after, n)))
    }

    /** The tree shows the result of change `i`, or its absence for a retirement. */
    ghost predicate ResultAt(i: nat, t: Tree)
      requires i < |plan|
    {
      match plan[i].ResultingContent()
      case None => Target(i) !in t
      case Some(content) => Target(i) in t && t[Target(i)].bytes == content
    }

    /** Change `i` takes effect between these trees, over its original object and with every guard of the plan met. */
    ghost predicate TakesEffect(i: nat, t: Tree, t': Tree)
      requires i < |plan|
    {
      OldAt(i, t) && ResultAt(i, t') && forall j :: 0 <= j < |plan| ==> GuardHolds(j)
    }

    /** Where a step touches a target for the first time, it carries out the whole change. */
    ghost predicate FirstTouches(t: Tree, put: Put, t': Tree, touched: set<Name>) {
      forall i :: 0 <= i < |plan| && Target(i) in touched && Target(i) !in put ==> TakesEffect(i, t, t')
    }

    /** The run's first step creates the marker, which was absent; every later step finds the marker in place. */
    ghost predicate Guarded(step: Step, first: bool) {
      if first && !step.foreign then
        && MARKER !in step.before && MARKER in step.after
        && forall n :: n != MARKER ==> Get(step.after, n) == Get(step.before, n)
      else
        MARKER in step.before && (step.foreign ==> Get(step.after, MARKER) == Get(step.before, MARKER))
    }

    /** What the run last left at every target is the result of its change. */
    ghost predicate PutInPlace(put: Put) {
      forall i :: 0 <= i < |plan| ==> LeftAt(i, put)
    }

    ghost predicate LeftAt(i: nat, put: Put)
      requires i < |plan|
    {
      Target(i) in put &&
      match plan[i].ResultingContent()
      case None => put[Target(i)].None?
      case Some(content) => put[Target(i)].Some? && put[Target(i)].value.bytes == content
    }

    lemma PutInPlaceKept(t: Tree, put: Put, t': Tree, put': Put, n: Name)
      requires PutInPlace(put) && WellPosed() && Agree(t, put, t', put', {n}) && Reserved(n)
      ensures PutInPlace(put')
    {
      forall i | 0 <= i < |plan| ensures LeftAt(i, put') {
        assert LeftAt(i, put) && Get(put', Target(i)) == Get(put, Target(i));
      }
    }

    /** One step of the run carried change `i` out, over its original object. */
    ghost predicate CarriedOutAt(i: nat, history: seq<Step>)
      requires i < |plan|
    {
      exists k :: 0 <= k < |history| && !history[k].foreign && TakesEffect(i, history[k].before, history[k].after)
    }

    ghost predicate CarriedOut(history: seq<Step>) {
      forall i :: 0 <= i < |plan| ==> CarriedOutAt(i, history)
    }

    /** What a clean history says of its last step. */
    lemma LastStep(history: seq<Step>, quiet: bool)
      requires Clean(history, quiet) && history != []
      ensures var past, step := history[..|history| - 1], history[|history| - 1];
              && Clean(past, quiet) && step.before == Tip(past) && step.put == TipPut(past)
              && Accounted(step) && FirstTouches(step.before, step.put, step.after, step.put'.Keys)
              && (quiet ==> !step.foreign)
    {
      assert StepClean(history, |history| - 1, quiet);
      CleanPrefix(history, quiet, |history| - 1);
    }

    /** A run that has touched a target has carried its change out, whatever other programs did. */
    lemma {:induction false} TouchedIsCarriedOut(history: seq<Step>, quiet: bool, i: nat)
      requires Clean(history, quiet) && i < |plan| && Target(i) in TipPut(history)
      ensures CarriedOutAt(i, history)
    {
      var past, step := history[..|history| - 1], history[|history| - 1];
      LastStep(history, quiet);
      if Target(i) in step.put {
        TouchedIsCarriedOut(past, quiet, i);
        var k :| 0 <= k < |past| && !past[k].foreign && TakesEffect(i, past[k].before, past[k].after);
        assert history[k] == past[k];
      } else {
        assert Get(step.put', Target(i)) != Get(step.put, Target(i));
        assert TakesEffect(i, step.before, step.after);
      }
    }

    lemma CleanPrefix(history: seq<Step>, quiet: bool, k: nat)
      requires Clean(history, quiet) && k <= |history|
      ensures Clean(history[..k], quiet)
    {
      forall j | 0 <= j < k ensures StepClean(history[..k], j, quiet) {
        assert StepClean(history, j, quiet) && history[..k][..j] == history[..j];
      }
    }

    /** What an undisturbed run has changed, it has touched. */
    lemma {:induction false} ChangedIsTouched(history: seq<Step>, n: Name)
      requires Clean(history, true) && Get(Tip(history), n) != Get(origin, n)
      ensures n in TipPut(history)
    {
      if history != [] {
        var past, step := history[..|history| - 1], history[|history| - 1];
        LastStep(history, true);
        if Get(step.before, n) != Get(origin, n) {
          ChangedIsTouched(past, n);
        }
        StepTouches(step, n);
      }
    }

    lemma StepTouches(step: Step, n: Name)
      requires Accounted(step) && !step.foreign && (n in step.put || Get(step.after, n) != Get(step.before, n))
      ensures n in step.put'
    {
      if Get(step.after, n) == Get(step.before, n) {
        assert Get(step.put', n) == Get(step.put, n) || Get(step.put', n) == Some(Get(step.after, n));
      } else {
        assert Get(step.put', n) == Some(Get(step.after, n));
      }
    }

    lemma PutMeansCarriedOut(history: seq<Step>, quiet: bool)
      requires Clean(history, quiet) && PutInPlace(TipPut(history))
      ensures CarriedOut(history)
    {
      forall i | 0 <= i < |plan| ensures CarriedOutAt(i, history) {
        assert LeftAt(i, TipPut(history));
        TouchedIsCarriedOut(history, quiet, i);
      }
    }

    /** The directories of the plan honour the rename flags their changes need. */
    ghost predicate Supported(noReplace: Directory -> Support, exchange: Directory -> Support) {
      forall i :: 0 <= i < |plan| ==> SupportedAt(i, noReplace, exchange)
    }

    ghost predicate SupportedAt(i: nat, noReplace: Directory -> Support, exchange: Directory -> Support)
      requires i < |plan|
    {
      SupportAt(i, noReplace, exchange) == Honoured
    }

    ghost function SupportAt(i: nat, noReplace: Directory -> Support, exchange: Directory -> Support): Support
      requires i < |plan|
    {
      if plan[i].Edit? then exchange(Dir(i)) else noReplace(Dir(i))
    }

    /** How the flag of the first change from `i` on whose flag is not honoured is treated, if there is one. */
    ghost function FirstUnsupported(i: nat, noReplace: Directory -> Support, exchange: Directory -> Support)
      : Option<Support>
      requires i <= |plan|
      decreases |plan| - i
    {
      if i == |plan| then None
      else if SupportedAt(i, noReplace, exchange) then FirstUnsupported(i + 1, noReplace, exchange)
      else Some(SupportAt(i, noReplace, exchange))
    }

    lemma {:induction false} SupportedThroughout(i: nat, noReplace: Directory -> Support,
                                                 exchange: Directory -> Support)
      requires i <= |plan|
      ensures FirstUnsupported(i, noReplace, exchange).None? <==>
              forall j :: i <= j < |plan| ==> SupportedAt(j, noReplace, exchange)
      ensures FirstUnsupported(i, noReplace, exchange) != Some(Honoured)
      decreases |plan| - i
    {
      if i < |plan| {
        SupportedThroughout(i + 1, noReplace, exchange);
      }
    }

    // ---- Whole histories ----

    ghost function Tip(history: seq<Step>): Tree {
      if history == [] then origin else history[|history| - 1].after
    }

    ghost function TipPut(history: seq<Step>): Put {
      if history == [] then map[] else history[|history| - 1].put'
    }

    /**
     * The steps follow one another from the original tree; each is guarded by the marker and respects other
     * programs; and if no other program acted, each leaves a sound tree.
     */
    ghost predicate Clean(history: seq<Step>, quiet: bool) {
      forall k :: 0 <= k < |history| ==> StepClean(history, k, quiet)
    }

    ghost predicate StepClean(history: seq<Step>, k: nat, quiet: bool)
      requires k < |history|
    {
      Extends(history[..k], history[k], quiet)
    }

    ghost predicate Extends(past: seq<Step>, step: Step, quiet: bool) {
      && step.before == Tip(past) && step.put == TipPut(past)
      && Guarded(step, past == [])
      && Respectful(step) && Accounted(step) && FirstTouches(step.before, step.put, step.after, step.put'.Keys)
      && (quiet ==> !step.foreign && Sound(step.after))
    }

    /** What the run has left at each name once it has changed the touched ones. */
    ghost function PutAfter(put: Put, next: Tree, touched: set<Name>): (put': Put)
      ensures forall n :: n in touched ==> Get(put', n) == Some(Get(next, n))
      ensures forall n :: n !in touched ==> Get(put', n) == Get(put, n)
      ensures put'.Keys == put.Keys + touched
    {
      put + map n | n in touched :: Get(next, n)
    }

    lemma OwnStep(past: seq<Step>, next: Tree, touched: set<Name>, quiet: bool)
      requires forall n :: n !in touched ==> Get(next, n) == Get(Tip(past), n)
      requires forall n :: n in touched && n in Tip(past) ==> Entitled(n, Tip(past)[n], TipPut(past))
      requires FirstTouches(Tip(past), TipPut(past), next, touched)
      requires quiet ==> Sound(next)
      requires Guarded(Step(Tip(past), TipPut(past), next, PutAfter(TipPut(past), next, touched), false), past == [])
      ensures Extends(past, Step(Tip(past), TipPut(past), next, PutAfter(TipPut(past), next, touched), false), quiet)
    {
      var step := Step(Tip(past), TipPut(past), next, PutAfter(TipPut(past), next, touched), false);
      forall n | n in step.before && Get(next, n) != Some(step.before[n])
        ensures Entitled(n, step.before[n], step.put)
      {
        assert n !in touched ==> Get(next, n) == Get(step.before, n);
      }
      forall n | Get(step.put', n) != Get(step.put, n)
        ensures Get(step.put', n) == Some(Get(step.after, n))
        ensures n in step.before ==> Entitled(n, step.before[n], step.put)
      {
        assert n in touched;
      }
    }

    lemma CleanSnoc(history: seq<Step>, step: Step, quiet: bool)
      requires Clean(history, quiet) && Extends(history, step, quiet)
      ensures Clean(history + [step], quiet)
    {
      var longer := history + [step];
      forall k | 0 <= k < |longer| ensures StepClean(longer, k, quiet) {
        assert longer[..k] == history[..k];
        assert k < |history| ==> StepClean(history, k, quiet);
        assert history[..|history|] == history;
      }
    }

    // ---- Phases of one change, in a tree `t` where the run has put `put` ----

    ghost predicate Faithful(c: PreparedChange, i: nat)
      requires i < |plan|
    {
      && c.original == Get(origin, Target(i))
      && GuardHolds(i)
      && (plan[i].Retire? ==> c.stagedIdentity == c.original.value.identity)
    }

    ghost predicate Untouched(t: Tree, put: Put, i: nat, quiet: bool)
      requires i < |plan|
    {
      Target(i) !in put && (quiet ==> OldAt(i, t))
    }

    /** Staged, not published. */
    ghost predicate Pending(t: Tree, put: Put, c: PreparedChange, i: nat, quiet: bool)
      requires i < |plan|
    {
      && Untouched(t, put, i, quiet)
      && Get(t, TempOf(i)) ==
         match plan[i].ResultingContent()
         case None => None
         case Some(content) => Some(FileObject(c.stagedIdentity, content, PRIVATE_MODE))
    }

    /** Published, with the original object under the temporary name. */
    ghost predicate Live(t: Tree, put: Put, c: PreparedChange, i: nat, quiet: bool)
      requires i < |plan|
    {
      && Get(t, TempOf(i)) == c.original
      && (match plan[i].ResultingContent()
          case None => Get(put, Target(i)) == Some(None)
          case Some(content) =>
            && Target(i) in put && put[Target(i)].Some?
            && put[Target(i)].value.identity == c.stagedIdentity && put[Target(i)].value.bytes == content)
      && (quiet ==> NewAt(i, t) && Get(put, Target(i)) == Some(Get(t, Target(i))))
    }

    /** The target still shows what the run put there, or still nothing after a retirement. */
    ghost predicate OursAt(t: Tree, c: PreparedChange, i: nat)
      requires i < |plan|
    {
      match plan[i].ResultingContent()
      case None => Target(i) !in t
      case Some(content) =>
        Target(i) in t && t[Target(i)].identity == c.stagedIdentity && t[Target(i)].bytes == content
    }

    /** Live, with its final permissions. */
    ghost predicate Settled(t: Tree, put: Put, c: PreparedChange, i: nat, quiet: bool)
      requires i < |plan|
    {
      c.published && Live(t, put, c, i, quiet) && (quiet ==> FinalAt(i, t))
    }

    /** Not published; what sits under the temporary name, if anything, is the staged file. */
    ghost predicate Idle(t: Tree, c: PreparedChange, i: nat, quiet: bool)
      requires i < |plan|
    {
      && (TempOf(i) in t ==> !plan[i].Retire? && t[TempOf(i)].identity == c.stagedIdentity)
      && (quiet ==> OldAt(i, t))
    }

    ghost predicate Phased(t: Tree, put: Put, c: PreparedChange, i: nat, quiet: bool)
      requires i < |plan|
    {
      if c.published then Live(t, put, c, i, quiet) else Pending(t, put, c, i, quiet)
    }

    /** No file of the transaction remains beyond the temporaries of the first `k` changes. */
    ghost predicate Confined(t: Tree, k: nat)
      requires k <= |plan|
    {
      forall n :: n in t && Own(n) ==> n.Temp? && n.index < k && n == TempOf(n.index)
    }

    /** The marker is ours and in place, and what was prepared records the original tree. */
    ghost predicate Steady(t: Tree, put: Put, prepared: seq<PreparedChange>, marker: nat, quiet: bool) {
      && WellPosed() && MARKER !in origin
      && MARKER in t && Get(put, MARKER) == Some(Some(t[MARKER])) && t[MARKER].identity == marker
      && |prepared| <= |plan|
      && (forall i :: 0 <= i < |prepared| ==> Faithful(prepared[i], i))
      && (forall i :: |prepared| <= i < |plan| ==> Untouched(t, put, i, quiet))
      && (quiet ==> Framed(t))
    }

    /** A run that has only created its marker is steady, and nothing is staged. */
    lemma SteadyStart(t: Tree, put: Put, marker: nat, quiet: bool)
      requires WellPosed() && MARKER !in origin
      requires MARKER in t && Get(put, MARKER) == Some(Some(t[MARKER])) && t[MARKER].identity == marker
      requires Agree(origin, map[], t, put, {MARKER})
      ensures Steady(t, put, [], marker, quiet) && Confined(t, 0)
      ensures forall i :: 0 <= i < |plan| ==> OldAt(i, t)
    {
      assert forall n :: n != MARKER ==> Get(t, n) == Get(origin, n) && Get(put, n) == None;
      forall i | 0 <= i < |plan| ensures Untouched(t, put, i, quiet) && OldAt(i, t) {
        assert Get(put, Target(i)) == None;
      }
      forall n | n in t && n != MARKER ensures !Own(n) {
        assert Get(t, n) == Get(origin, n);
      }
    }

    /** A change that is staged and records the original tree joins the prepared ones. */
    lemma PreparedOneMore(t: Tree, put: Put, prepared: seq<PreparedChange>, c: PreparedChange, marker: nat, quiet: bool)
      requires Steady(t, put, prepared, marker, quiet) && |prepared| < |plan|
      requires forall j :: 0 <= j < |prepared| ==> !prepared[j].published && Pending(t, put, prepared[j], j, quiet)
      requires !c.published && Faithful(c, |prepared|) && Pending(t, put, c, |prepared|, quiet)
      ensures var more := prepared + [c];
              && Steady(t, put, more, marker, quiet)
              && forall j :: 0 <= j < |more| ==> !more[j].published && Pending(t, put, more[j], j, quiet)
    {
    }

    /** Once everything is prepared, showing the result of change `i` over its original object carries it out. */
    lemma FirstTouch(t: Tree, put: Put, t': Tree, i: nat, prepared: seq<PreparedChange>, marker: nat, quiet: bool,
                     touched: set<Name>)
      requires Steady(t, put, prepared, marker, quiet) && i < |prepared| == |plan| && touched == {Target(i), TempOf(i)}
      requires Get(t, Target(i)) == prepared[i].original && ResultAt(i, t')
      ensures FirstTouches(t, put, t', touched)
    {
      forall j | 0 <= j < |plan| ensures GuardHolds(j) {
        assert Faithful(prepared[j], j);
      }
      forall j | 0 <= j < |plan| && Target(j) in touched ensures j == i {
      }
      assert Faithful(prepared[i], i);
    }

    /** Steps at own names and at targets already prepared keep a run steady. */
    lemma SteadyStep(t: Tree, put: Put, t': Tree, put': Put, names: set<Name>,
                     prepared: seq<PreparedChange>, marker: nat, quiet: bool)
      requires Steady(t, put, prepared, marker, quiet) && Agree(t, put, t', put', names)
      requires forall n :: n in names ==> Own(n) || exists i :: 0 <= i < |prepared| && n == Target(i)
      ensures Steady(t', put', prepared, marker, quiet)
    {
      assert MARKER !in names;
      forall i | |prepared| <= i < |plan| ensures Untouched(t', put', i, quiet) {
        assert Untouched(t, put, i, quiet) && Target(i) !in names;
      }
      forall n | quiet && !Reserved(n) && !IsTarget(n) ensures Get(t', n) == Get(origin, n) {
        assert n !in names;
      }
    }

    /** Staging the next change keeps the earlier ones staged. */
    lemma PendingKept(t: Tree, put: Put, t': Tree, put': Put, i: nat, prepared: seq<PreparedChange>, quiet: bool)
      requires i <= |prepared| <= |plan| && i < |plan| && Agree(t, put, t', put', {TempOf(i)})
      requires forall j :: 0 <= j < i ==> !prepared[j].published && Pending(t, put, prepared[j], j, quiet)
      ensures forall j :: 0 <= j < i ==> !prepared[j].published && Pending(t', put', prepared[j], j, quiet)
      ensures Untouched(t, put, i, quiet) ==> Untouched(t', put', i, quiet)
      ensures Confined(t, i) ==> Confined(t', i + 1) && (TempOf(i) !in t' ==> Confined(t', i))
    {
      forall j | 0 <= j <= i
        ensures j < i ==> Get(t', TempOf(j)) == Get(t, TempOf(j))
        ensures Get(t', Target(j)) == Get(t, Target(j)) && Get(put', Target(j)) == Get(put, Target(j))
      {
      }
      assert forall n :: n in t' && n != TempOf(i) ==> Get(t', n) == Get(t, n);
    }

    /** If the marker stays and change `i` is untouched or applied with a backup, the tree is still sound. */
    lemma TrackedStep(t: Tree, t': Tree, i: nat)
      requires WellPosed() && i < |plan| && MARKER in t' && Tracked(t)
      requires forall n :: n !in {Target(i), TempOf(i)} ==> Get(t', n) == Get(t, n)
      requires OldAt(i, t') || (NewAt(i, t') && BackupAt(i, t'))
      ensures Tracked(t') && Sound(t')
    {
      forall j | 0 <= j < |plan| ensures OldAt(j, t') || (NewAt(j, t') && BackupAt(j, t')) {
        if j != i {
          assert OldAt(j, t) || (NewAt(j, t) && BackupAt(j, t));
          assert Get(t', Target(j)) == Get(t, Target(j)) && Get(t', TempOf(j)) == Get(t, TempOf(j));
        }
      }
    }

    /** Steps away from every target and temporary, or on a temporary while nothing is published, stay sound. */
    lemma TrackedAway(t: Tree, t': Tree, names: set<Name>)
      requires WellPosed() && MARKER in t' && Tracked(t)
      requires forall m :: m !in names ==> Get(t', m) == Get(t, m)
      requires forall n :: n in names ==>
                 n == MARKER || n.Probe? || (n.Temp? && forall i :: 0 <= i < |plan| ==> OldAt(i, t))
      ensures Tracked(t') && Sound(t')
    {
      forall j | 0 <= j < |plan| ensures OldAt(j, t') || (NewAt(j, t') && BackupAt(j, t')) {
        assert OldAt(j, t) || (NewAt(j, t) && BackupAt(j, t));
        assert Get(t', Target(j)) == Get(t, Target(j));
        assert TempOf(j) in names || Get(t', TempOf(j)) == Get(t, TempOf(j));
      }
    }

    /** The phase of a change depends on its target and its temporary name only. */
    lemma PhaseKept(t: Tree, put: Put, t': Tree, put': Put, c: PreparedChange, j: nat, quiet: bool)
      requires j < |plan|
      requires Get(t', Target(j)) == Get(t, Target(j)) && Get(put', Target(j)) == Get(put, Target(j))
      requires Get(t', TempOf(j)) == Get(t, TempOf(j))
      ensures Pending(t, put, c, j, quiet) ==> Pending(t', put', c, j, quiet)
      ensures Live(t, put, c, j, quiet) ==> Live(t', put', c, j, quiet)
      ensures Settled(t, put, c, j, quiet) ==> Settled(t', put', c, j, quiet)
      ensures Idle(t, c, j, quiet) ==> Idle(t', c, j, quiet)
    {
    }

    /** A step at change `i` leaves the phase of every other change as it was. */
    lemma ElsewhereKept(t: Tree, put: Put, t': Tree, put': Put, i: nat, c: PreparedChange, j: nat, quiet: bool)
      requires WellPosed() && i < |plan| && j < |plan| && i != j
      requires Agree(t, put, t', put', {Target(i), TempOf(i)})
      ensures Pending(t, put, c, j, quiet) ==> Pending(t', put', c, j, quiet)
      ensures Live(t, put, c, j, quiet) ==> Live(t', put', c, j, quiet)
      ensures Settled(t, put, c, j, quiet) ==> Settled(t', put', c, j, quiet)
      ensures Idle(t, c, j, quiet) ==> Idle(t', c, j, quiet)
    {
      PhaseKept(t, put, t', put', c, j, quiet);
    }

    /** Removing the temporary of one idle change leaves the others idle and creates nothing. */
    lemma IdleKept(t: Tree, put: Put, t': Tree, put': Put, i: nat, prepared: seq<PreparedChange>, quiet: bool)
      requires WellPosed() && i < |prepared| <= |plan| && Agree(t, put, t', put', {TempOf(i)})
      requires forall j :: 0 <= j < |prepared| ==> Idle(t, prepared[j], j, quiet)
      requires Idle(t', prepared[i], i, quiet) && (TempOf(i) in t' ==> TempOf(i) in t)
      ensures forall j :: 0 <= j < |prepared| ==> Idle(t', prepared[j], j, quiet)
      ensures forall j :: 0 <= j < |plan| ==> Get(t', Target(j)) == Get(t, Target(j))
      ensures forall j :: 0 <= j < |prepared| && TempOf(j) !in t ==> TempOf(j) !in t'
      ensures forall n :: n in t' ==> n in t
    {
      forall j | 0 <= j < |prepared| && j != i ensures Idle(t', prepared[j], j, quiet) {
        assert Idle(t, prepared[j], j, quiet);
        ElsewhereKept(t, put, t', put', i, prepared[j], j, quiet);
      }
      forall n | n in t' ensures n in t {
        assert n != TempOf(i) ==> Get(t', n) == Get(t, n);
      }
    }

    /** The first `k` changes are published and settled, the others staged. */
    ghost predicate Stage(t: Tree, put: Put, prepared: seq<PreparedChange>, k: nat, quiet: bool) {
      && k <= |prepared| == |plan| && Confined(t, |plan|)
      && (forall j :: 0 <= j < k ==> Settled(t, put, prepared[j], j, quiet))
      && (forall j :: k <= j < |plan| ==> !prepared[j].published && Pending(t, put, prepared[j], j, quiet))
    }

    ghost predicate AllPhased(t: Tree, put: Put, prepared: seq<PreparedChange>, quiet: bool) {
      && |prepared| == |plan|
      && forall j :: 0 <= j < |plan| ==> Phased(t, put, prepared[j], j, quiet)
    }

    /** Steps at own names other than temporaries keep the stage. */
    lemma StageAway(t: Tree, put: Put, t': Tree, put': Put, names: set<Name>,
                    prepared: seq<PreparedChange>, k: nat, quiet: bool)
      requires WellPosed() && Stage(t, put, prepared, k, quiet) && Agree(t, put, t', put', names)
      requires forall n :: n in names ==> n.Probe?
      requires forall n :: n in names ==> n !in t'
      ensures Stage(t', put', prepared, k, quiet)
    {
      forall j | 0 <= j < |plan|
        ensures j < k ==> Settled(t', put', prepared[j], j, quiet)
        ensures k <= j ==> Pending(t', put', prepared[j], j, quiet)
      {
        PhaseKept(t, put, t', put', prepared[j], j, quiet);
      }
      assert forall n :: n in t' ==> Get(t', n) == Get(t, n);
    }

    /** Publishing change `i` moves the stage on, once its permissions are final. */
    lemma StageAdvance(t: Tree, put: Put, t': Tree, put': Put, prepared: seq<PreparedChange>, i: nat, quiet: bool)
      requires WellPosed() && i < |plan| && Stage(t, put, prepared, i, quiet)
      requires Agree(t, put, t', put', {Target(i), TempOf(i)})
      requires Live(t', put', prepared[i], i, quiet)
      ensures var after := prepared[i := prepared[i].(published := true)];
              && Confined(t', |plan|) && AllPhased(t', put', after, quiet)
              && ((quiet ==> FinalAt(i, t')) ==> Stage(t', put', after, i + 1, quiet))
    {
      forall j | 0 <= j < |plan| && j != i
        ensures j < i ==> Settled(t', put', prepared[j], j, quiet)
        ensures i < j ==> Pending(t', put', prepared[j], j, quiet)
      {
        ElsewhereKept(t, put, t', put', i, prepared[j], j, quiet);
      }
      assert forall n :: n in t' && n != Target(i) && n != TempOf(i) ==> Get(t', n) == Get(t, n);
    }

    /** The changes from `k` on have been walked back, all of them successfully if `complete`. */
    ghost predicate Unwinding(t: Tree, put: Put, prepared: seq<PreparedChange>, k: nat, complete: bool, quiet: bool) {
      && k <= |prepared| == |plan|
      && (forall j :: 0 <= j < k ==> Phased(t, put, prepared[j], j, quiet))
      && (complete ==> forall j :: k <= j < |plan| ==> Idle(t, prepared[j], j, quiet))
    }

    /** What was prepared, once change `i` is marked as published or not. */
    ghost function Marking(prepared: seq<PreparedChange>, i: nat, published: bool): seq<PreparedChange>
      requires i < |prepared|
    {
      prepared[i := prepared[i].(published := published)]
    }

    lemma MarkingKeepsSteady(t: Tree, put: Put, prepared: seq<PreparedChange>, i: nat, published: bool, marker: nat,
                             quiet: bool)
      requires i < |prepared| && Steady(t, put, prepared, marker, quiet)
      ensures Steady(t, put, Marking(prepared, i, published), marker, quiet)
    {
    }

    /** Undoing change `i` disturbs neither the changes still to undo nor those already undone. */
    lemma RollbackKept(t: Tree, put: Put, t': Tree, put': Put, prepared: seq<PreparedChange>, i: nat,
                       complete: bool, ok: bool, quiet: bool)
      requires WellPosed() && |prepared| == |plan| && i < |plan|
      requires Agree(t, put, t', put', {Target(i), TempOf(i)})
      requires Unwinding(t, put, prepared, i + 1, complete, quiet)
      requires ok ==> Idle(t', prepared[i], i, quiet)
      ensures ok ==> Unwinding(t', put', Marking(prepared, i, false), i, complete, quiet)
      ensures Unwinding(t', put', prepared, i, complete && ok, quiet)
      ensures Confined(t, |plan|) ==> Confined(t', |plan|)
    {
      forall j | 0 <= j < |plan| && j != i
        ensures j < i ==> Phased(t', put', prepared[j], j, quiet)
        ensures complete && i < j ==> Idle(t', prepared[j], j, quiet)
      {
        ElsewhereKept(t, put, t', put', i, prepared[j], j, quiet);
      }
      assert forall n :: n in t' && n != Target(i) && n != TempOf(i) ==> Get(t', n) == Get(t, n);
    }

    /** Probe files, even ones left behind, do not disturb any phase. */
    lemma ProbesPhased(t: Tree, put: Put, t': Tree, put': Put, names: set<Name>,
                       prepared: seq<PreparedChange>, quiet: bool)
      requires Stage(t, put, prepared, 0, quiet) && Agree(t, put, t', put', names)
      requires forall n :: n in names ==> n.Probe?
      ensures AllPhased(t', put', prepared, quiet)
    {
      forall j | 0 <= j < |plan|
        ensures Get(t', Target(j)) == Get(t, Target(j)) && Get(put', Target(j)) == Get(put, Target(j))
        ensures Get(t', TempOf(j)) == Get(t, TempOf(j))
      {
      }
    }

    /** Other programs acting at a hook point cannot disturb the stage of the transaction. */
    lemma StageHook(t: Tree, t': Tree, put: Put, prepared: seq<PreparedChange>, k: nat, quiet: bool)
      requires Stage(t, put, prepared, k, quiet) && (quiet ==> t' == t)
      requires forall n :: Reserved(n) ==> Get(t', n) == Get(t, n)
      ensures Stage(t', put, prepared, k, quiet)
    {
      forall j | 0 <= j < |plan| ensures Get(t', TempOf(j)) == Get(t, TempOf(j)) {
      }
      assert forall n :: n in t' && Own(n) ==> Get(t', n) == Get(t, n);
    }

    /** While every result is final, dropping a temporary keeps the tree sound. */
    lemma FinalStep(t: Tree, t': Tree, i: nat)
      requires i < |plan| && AllFinal(t) && MARKER in t' && forall n :: n != TempOf(i) ==> Get(t', n) == Get(t, n)
      ensures AllFinal(t') && Sound(t')
    {
      forall j | 0 <= j < |plan| ensures FinalAt(j, t') {
        assert FinalAt(j, t) && Get(t', Target(j)) == Get(t, Target(j));
      }
      AllFinalSound(t');
    }

    lemma AllFinalSound(t: Tree)
      requires AllFinal(t) && (MARKER !in t ==> Published(t))
      ensures Sound(t)
    {
      forall j | 0 <= j < |plan| ensures NewAt(j, t) {
        assert FinalAt(j, t);
      }
    }

    /** What a fault-free, undisturbed run needs, all of it checkable before the run. */
    ghost predicate Publishable(noReplace: Directory -> Support, exchange: Directory -> Support) {
      && MARKER !in origin
      && (forall i :: 0 <= i < |plan| ==> plan[i].Path() != MUTATION_MARKER)
      && (forall i :: 0 <= i < |plan| ==> GuardHolds(i))
      && Supported(noReplace, exchange)
    }

    /** A tree that differs from the original nowhere is the original, file objects included. */
    lemma SameTree(t: Tree)
      requires WellPosed() && MARKER !in origin && MARKER !in t
      requires Framed(t) && NoOwn(t) && forall i :: 0 <= i < |plan| ==> OldAt(i, t)
      ensures t == origin
    {
      forall n: Name ensures Get(t, n) == Get(origin, n) {
        if IsTarget(n) {
          var i :| 0 <= i < |plan| && n == Target(i);
          assert OldAt(i, t);
        }
      }
      assert forall n :: n in t <==> Get(t, n).Some?;
      assert forall n :: n in origin <==> Get(origin, n).Some?;
      assert forall n :: n in t ==> Get(t, n) == Some(t[n]);
      assert forall n :: n in origin ==> Get(origin, n) == Some(origin[n]);
    }

    /** Undoing every change and removing the marker gives the original tree back. */
    lemma RestoredTree(t: Tree)
      requires WellPosed() && MARKER !in origin && MARKER in t
      requires Framed(t) && NoOwn(t) && forall i :: 0 <= i < |plan| ==> OldAt(i, t)
      ensures t - {MARKER} == origin
    {
      var u := t - {MARKER};
      forall i | 0 <= i < |plan| ensures OldAt(i, u) {
        assert OldAt(i, t) && Target(i) != MARKER;
      }
      SameTree(u);
    }

    /** With every result final and the backups gone, removing the marker leaves the published tree. */
    lemma CommittedTree(t: Tree)
      requires WellPosed() && Framed(t) && NoOwn(t) && AllFinal(t)
      ensures Published(t - {MARKER})
    {
      forall i | 0 <= i < |plan| ensures FinalAt(i, t - {MARKER}) {
        assert FinalAt(i, t) && Target(i) != MARKER;
      }
    }
  }
}
