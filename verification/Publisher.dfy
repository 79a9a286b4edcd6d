/** The transactional publisher: marker, staging, probes, atomic renames, rollback and cleanup. */
module Publisher {
  import opened Content
  import opened ChangePlans
  import opened FileTree

  datatype ErrorKind =
    | InvalidPlan
    | UnsupportedPlatform
    | UnsafeRoot
    | RecoveryRequired
    | PreconditionFailed
    | PublicationFailed
    | RollbackIncomplete

  datatype Status = Done | Failed(kind: ErrorKind)
  datatype Outcome = Receipt(changedFiles: nat) | Refused(kind: ErrorKind)

  datatype OpenResult = Opened | AlreadyExists | OpenFailed
  datatype RenameResult = Renamed | Occupied | RenameFailed
  datatype StatResult = Present | Missing | Unknown

  /** One run of `publish_with` on one application tree. */
  class Publication {
    const job: Job
    /** The recovery text written into the marker. */
    const manifest: Bytes
    /** No other program acts at the hook points. */
    const quiet: bool
    /** No hook refuses to go on. */
    const obliging: bool
    /** How the filesystem of each directory treats NOREPLACE, respectively EXCHANGE. */
    const noReplace: Directory -> Support
    const exchange: Directory -> Support

    var tree: Tree
    var prepared: seq<PreparedChange>
    var markerIdentity: nat
    /** What this run last left at each name it has changed. */
    ghost var put: Put
    ghost var history: seq<Step>
    /** How many filesystem calls have failed for a reason of their own. */
    ghost var faults: nat

    /** The history is clean, ends in the current tree, and the transaction's files are as the run put them. */
    ghost predicate Valid()
      reads this`tree, this`put, this`history
    {
      && job.Clean(history, quiet)
      && tree == job.Tip(history) && put == job.TipPut(history)
      && (forall n :: n in tree && job.Own(n) ==> n in put && put[n] == Some(tree[n]))
    }

    constructor (job: Job, manifest: Bytes, quiet: bool, obliging: bool,
                 noReplace: Directory -> Support, exchange: Directory -> Support)
      requires forall n :: n in job.origin ==> !job.Own(n)
      ensures this.job == job && this.quiet == quiet && this.obliging == obliging
      ensures this.noReplace == noReplace && this.exchange == exchange
      ensures Valid() && tree == job.origin && history == [] && put == map[] && prepared == [] && faults == 0
    {
      this.job, this.manifest, this.quiet, this.obliging := job, manifest, quiet, obliging;
      this.noReplace, this.exchange := noReplace, exchange;
      tree, prepared, markerIdentity := job.origin, [], 0;
      put, history, faults := map[], [], 0;
    }

    // ---- Filesystem calls: each may fail without effect ----

    /** A call that changes nothing the model sees: a sync, a directory check, an identity query. */
    method Attempt() returns (ok: bool)
      modifies this`faults
      ensures faults == if ok then old(faults) else old(faults) + 1
    {
      ok := *;
      if !ok {
        faults := faults + 1;
      }
    }

    /** No call has failed meanwhile. */
    twostate predicate FaultFree()
      reads this`faults
    {
      faults == old(faults)
    }

    /** One atomic change of the tree at the given names. */
    method Apply(next: Tree, touched: set<Name>)
      requires Valid() && MayStep(next)
      requires forall n :: n !in touched ==> Get(next, n) == Get(tree, n)
      requires forall n :: n in touched && n in tree ==> job.Entitled(n, tree[n], put)
      requires job.FirstTouches(tree, put, next, touched)
      requires quiet ==> job.Sound(next)
      modifies this`tree, this`put, this`history
      ensures Valid() && tree == next
      ensures forall n :: n in touched ==> Get(put, n) == Some(Get(next, n))
      ensures forall n :: n !in touched ==> Get(put, n) == old(Get(put, n))
    {
      ghost var put' := job.PutAfter(put, next, touched);
      ghost var step := Step(tree, put, next, put', false);
      job.OwnStep(history, next, touched, quiet);
      job.CleanSnoc(history, step, quiet);
      forall n | n in next && job.Own(n) ensures n in put' && put'[n] == Some(next[n]) {
        assert Get(put', n) == Some(Get(next, n)) || Get(next, n) == Get(tree, n);
      }
      history, put, tree := history + [step], put', next;
    }

    /** Either the marker is in place, or this first step puts it there. */
    ghost predicate MayStep(next: Tree)
      reads this`tree, this`history
    {
      if history == [] then
        MARKER !in tree && MARKER in next && forall n :: n != MARKER ==> Get(next, n) == Get(tree, n)
      else MARKER in tree
    }

    /** `openat` with O_CREAT | O_EXCL: an empty private file under a name that must be free. */
    method OpenExclusive(n: Name, identity: nat) returns (r: OpenResult)
      requires Valid() && (quiet ==> job.Sound(tree[n := FileObject(identity, [], PRIVATE_MODE)]))
      requires n !in tree ==> MayStep(tree[n := FileObject(identity, [], PRIVATE_MODE)])
      requires !job.IsTarget(n)
      modifies this`tree, this`put, this`history, this`faults
      ensures old(faults) <= faults
      ensures Valid()
      ensures r.Opened? ==> n !in old(tree) && tree == old(tree)[n := FileObject(identity, [], PRIVATE_MODE)]
      ensures r.Opened? ==> Only({n})
      ensures !r.Opened? ==> Unchanged()
      ensures r.AlreadyExists? ==> n in tree
      ensures FaultFree() ==> r == if n in old(tree) then AlreadyExists else Opened
    {
      if n in tree {
        var ok := Attempt();
        return if ok then AlreadyExists else OpenFailed;
      }
      var ok := Attempt();
      if !ok { return OpenFailed; }
      Apply(tree[n := FileObject(identity, [], PRIVATE_MODE)], {n});
      return Opened;
    }

    /** How much of a failing write reaches the file. */
    method AnyPrefix(content: Bytes) returns (length: nat)
      ensures length <= |content|
    {
      var k: int := *;
      length := if 0 <= k <= |content| then k else 0;
    }

    /** `write_all` to a file this run created: a failure may leave any prefix behind. */
    method WriteAll(n: Name, content: Bytes, torn: nat) returns (ok: bool)
      requires Valid() && Marked() && n in tree && Get(put, n) == Some(Some(tree[n])) && torn <= |content|
      requires quiet ==> job.Sound(tree[n := tree[n].(bytes := content)])
      requires quiet ==> job.Sound(tree[n := tree[n].(bytes := content[..torn])])
      modifies this`tree, this`put, this`history, this`faults
      ensures old(faults) <= faults
      ensures Valid() && Only({n})
      ensures tree == old(tree)[n := old(tree[n]).(bytes := if ok then content else content[..torn])]
      ensures FaultFree() ==> ok
    {
      ok := Attempt();
      Apply(tree[n := tree[n].(bytes := if ok then content else content[..torn])], {n});
    }

    function AfterRename(t: Tree, source: Name, destination: Name, flag: RenameFlag, dir: Directory): Tree
      requires source in t && (flag.Exchange? ==> destination in t)
    {
      if flag.Exchange? && exchange(dir).Honoured? then Swapped(t, source, destination)
      else Moved(t, source, destination)
    }

    function SupportOf(flag: RenameFlag, dir: Directory): Support {
      if flag.Exchange? then exchange(dir) else noReplace(dir)
    }

    /** `renameat_with` inside one directory. */
    method Rename(source: Name, destination: Name, flag: RenameFlag, dir: Directory) returns (r: RenameResult)
      requires Valid() && Marked() && source != destination && source in tree
      requires flag.Exchange? ==> destination in tree
      requires job.Entitled(source, tree[source], put)
      requires destination in tree && !(flag.NoReplace? && noReplace(dir).Honoured?) ==>
                 job.Entitled(destination, tree[destination], put)
      requires quiet && !(flag.NoReplace? && noReplace(dir).Honoured? && destination in tree) ==>
                 job.Sound(AfterRename(tree, source, destination, flag, dir))
      requires !(flag.NoReplace? && noReplace(dir).Honoured? && destination in tree) ==>
                 job.FirstTouches(tree, put, AfterRename(tree, source, destination, flag, dir), {source, destination})
      modifies this`tree, this`put, this`history, this`faults
      ensures old(faults) <= faults
      ensures Valid()
      ensures r.Renamed? ==> tree == AfterRename(old(tree), source, destination, flag, dir)
      ensures r.Renamed? ==> Only({source, destination})
      ensures r.Renamed? && flag.NoReplace? && noReplace(dir).Honoured? ==> destination !in old(tree)
      ensures !r.Renamed? ==> Unchanged()
      ensures r.Occupied? ==> flag.NoReplace? && noReplace(dir).Honoured? && destination in tree
      ensures SupportOf(flag, dir).Rejected? ==> r.RenameFailed?
      ensures FaultFree() && r.RenameFailed? ==> SupportOf(flag, dir).Rejected?
    {
      var ok := Attempt();
      if !ok || SupportOf(flag, dir).Rejected? { return RenameFailed; }
      if flag.NoReplace? && noReplace(dir).Honoured? && destination in tree { return Occupied; }
      Apply(AfterRename(tree, source, destination, flag, dir), {source, destination});
      return Renamed;
    }

    method Unlink(n: Name) returns (ok: bool)
      requires Valid() && Marked() && n in tree && n in put && job.Entitled(n, tree[n], put)
      requires quiet ==> job.Sound(tree - {n})
      modifies this`tree, this`put, this`history, this`faults
      ensures old(faults) <= faults
      ensures Valid()
      ensures ok ==> tree == old(tree) - {n} && Only({n})
      ensures !ok ==> Unchanged()
      ensures FaultFree() ==> ok
    {
      ok := Attempt();
      if ok { Apply(tree - {n}, {n}); }
    }

    method Chmod(n: Name, mode: nat) returns (ok: bool)
      requires Valid() && Marked() && n in tree && n in put && job.Entitled(n, tree[n], put)
      requires quiet ==> job.Sound(tree[n := tree[n].(mode := mode)])
      modifies this`tree, this`put, this`history, this`faults
      ensures old(faults) <= faults
      ensures Valid()
      ensures ok ==> tree == old(tree)[n := old(tree[n]).(mode := mode)] && Only({n})
      ensures !ok ==> Unchanged()
      ensures FaultFree() ==> ok
    {
      ok := Attempt();
      if ok { Apply(tree[n := tree[n].(mode := mode)], {n}); }
    }

    /** Open, stat and read a file; any failure, absence included, gives nothing. */
    method ReadRegularFile(n: Name) returns (r: Option<FileObject>)
      modifies this`faults
      ensures old(faults) <= faults
      ensures r.Some? ==> Get(tree, n) == r
      ensures FaultFree() ==> r == Get(tree, n)
    {
      var ok := Attempt();
      return if ok && n in tree then Some(tree[n]) else None;
    }

    method Stat(n: Name) returns (r: StatResult)
      modifies this`faults
      ensures old(faults) <= faults
      ensures r.Present? ==> n in tree
      ensures r.Missing? ==> n !in tree
      ensures FaultFree() ==> !r.Unknown?
    {
      var ok := Attempt();
      return if !ok then Unknown else if n in tree then Present else Missing;
    }

    /**
     * A hook point. Other programs may rewrite, replace, create or delete anything except the marker and the
     * transaction's own files; the hook itself may also refuse to go on.
     */
    method Hook() returns (s: Status)
      requires Valid() && Marked()
      modifies this`tree, this`history
      ensures Valid()
      ensures forall n :: job.Reserved(n) ==> Get(tree, n) == old(Get(tree, n))
      ensures quiet ==> tree == old(tree) && history == old(history)
      ensures obliging ==> s.Done?
    {
      if !quiet {
        var added: Tree := *;
        var removed: set<Name> := *;
        var next := (map n | n in tree && (job.Reserved(n) || n !in removed) :: tree[n])
                    + (map n | n in added && !job.Reserved(n) :: added[n]);
        ghost var step := Step(tree, put, next, put, true);
        job.CleanSnoc(history, step, quiet);
        history, tree := history + [step], next;
      }
      var kind: ErrorKind := *;
      var refuses: bool := *;
      return if obliging || !refuses then Done else Failed(kind);
    }

    // ---- Frames ----

    twostate predicate Only(names: set<Name>)
      reads this`tree, this`put
    {
      && (forall n :: n in names ==> Get(put, n) == Some(Get(tree, n)))
      && Agree(old(tree), old(put), tree, put, names)
    }

    twostate predicate Unchanged()
      reads this`tree, this`put, this`history
    {
      tree == old(tree) && put == old(put) && history == old(history)
    }

    ghost predicate Running()
      reads this`tree, this`put, this`history, this`prepared, this`markerIdentity
    {
      Valid() && Marked() && job.Steady(tree, put, prepared, markerIdentity, quiet)
    }

    ghost predicate Marked()
      reads this`tree, this`history
    {
      history != [] && MARKER in tree
    }


    // ---- Marker ----

    method CreateMarker() returns (s: Status)
      requires Valid() && job.WellPosed() && tree == job.origin && put == map[] && prepared == [] && history == []
      modifies this`tree, this`put, this`history, this`markerIdentity, this`faults
      ensures old(faults) <= faults
      ensures Valid()
      ensures MARKER in job.origin ==> s.Failed? && history == []
      ensures s.Done? ==> Get(tree, MARKER) == Some(FileObject(markerIdentity, manifest, PRIVATE_MODE))
      ensures s.Done? ==> Running() && job.Confined(tree, 0) && AllOld()
      ensures s.Failed? ==> MARKER in tree || tree == job.origin
      ensures s.Failed? ==> s.kind == RecoveryRequired || (s.kind == PublicationFailed && tree == job.origin)
      ensures FaultFree() ==> s == if MARKER in job.origin then Failed(RecoveryRequired) else Done
    {
      var identity: nat := *;
      markerIdentity := identity;
      job.TrackedAway(tree, tree[MARKER := FileObject(identity, [], PRIVATE_MODE)], {MARKER});
      var marker := OpenExclusive(MARKER, identity);
      match marker {
        case AlreadyExists => return Failed(RecoveryRequired);
        case OpenFailed => return Failed(PublicationFailed);
        case Opened =>
      }
      var ok := WriteMarker();
      return if ok then Done else Failed(RecoveryRequired);
    }

    /** Inspect, write and sync the marker that was just created. */
    method WriteMarker() returns (ok: bool)
      requires Valid() && Marked() && job.WellPosed() && MARKER !in job.origin && prepared == []
      requires Get(tree, MARKER) == Some(FileObject(markerIdentity, [], PRIVATE_MODE))
      requires Get(put, MARKER) == Some(Get(tree, MARKER)) && Agree(job.origin, map[], tree, put, {MARKER})
      modifies this`tree, this`put, this`history, this`faults
      ensures old(faults) <= faults
      ensures Valid() && MARKER in tree
      ensures ok ==> Get(tree, MARKER) == Some(FileObject(markerIdentity, manifest, PRIVATE_MODE))
      ensures ok ==> Running() && job.Confined(tree, 0) && AllOld()
      ensures FaultFree() ==> ok
    {
      job.SteadyStart(tree, put, markerIdentity, quiet);
      ok := Attempt(); // inspect its identity
      if !ok { return; }
      var torn := AnyPrefix(manifest);
      job.TrackedAway(tree, tree[MARKER := tree[MARKER].(bytes := manifest)], {MARKER});
      job.TrackedAway(tree, tree[MARKER := tree[MARKER].(bytes := manifest[..torn])], {MARKER});
      ok := WriteAll(MARKER, manifest, torn);
      if !ok { return; }
      ok := Attempt(); // sync the marker
      if !ok { return; }
      ok := Attempt(); // sync the root directory
      job.SteadyStart(tree, put, markerIdentity, quiet);
    }

    method VerifyMarker() returns (s: Status)
      modifies this`faults
      ensures old(faults) <= faults
      ensures s.Done? ==> MARKER in tree && tree[MARKER].identity == markerIdentity
      ensures s.Failed? ==> s.kind == RecoveryRequired
      ensures FaultFree() && MARKER in tree && tree[MARKER].identity == markerIdentity ==> s.Done?
    {
      var observed := ReadRegularFile(MARKER);
      if observed.Some? && observed.value.identity == markerIdentity {
        return Done;
      }
      return Failed(RecoveryRequired);
    }

    method RemoveMarker() returns (ok: bool)
      requires Running() && (quiet ==> job.Sound(tree - {MARKER}))
      modifies this`tree, this`put, this`history, this`faults
      ensures old(faults) <= faults
      ensures Valid()
      ensures ok ==> tree == old(tree) - {MARKER}
      ensures !ok ==> tree == old(tree)
      ensures Agree(old(tree), old(put), tree, put, {MARKER})
      ensures FaultFree() ==> ok
    {
      var verified := VerifyMarker();
      if verified.Failed? { return false; }
      ok := Unlink(MARKER);
    }

    // ---- Preparation ----

    ghost predicate AllOld()
      reads this`tree
    {
      forall i :: 0 <= i < |job.plan| ==> job.OldAt(i, tree)
    }

    ghost predicate AllPending()
      reads this`tree, this`put, this`prepared
    {
      |prepared| <= |job.plan| &&
      forall i :: 0 <= i < |prepared| ==>
        !prepared[i].published && job.Pending(tree, put, prepared[i], i, quiet)
    }

    /** Unlink an own file, provided it still has the identity it was created with. */
    method RemoveNamedIfIdentity(n: Name, expected: nat) returns (ok: bool)
      requires Running() && job.Own(n)
      requires quiet && n in tree && tree[n].identity == expected ==> job.Sound(tree - {n})
      modifies this`tree, this`put, this`history, this`faults
      ensures old(faults) <= faults
      ensures Running() && Agree(old(tree), old(put), tree, put, {n})
      ensures ok ==> n in old(tree) && old(tree[n]).identity == expected && n !in tree
      ensures !ok ==> Unchanged()
      ensures FaultFree() && n in old(tree) && old(tree[n]).identity == expected ==> ok
    {
      var observed := ReadRegularFile(n);
      if observed.None? || observed.value.identity != expected { return false; }
      ok := Unlink(n);
      job.SteadyStep(old(tree), old(put), tree, put, {n}, prepared, markerIdentity, quiet);
    }

    /** Create a private file under one of the transaction's names. */
    method CreateOwn(n: Name, identity: nat) returns (r: OpenResult)
      requires Running() && job.Own(n) && (quiet ==> job.Tracked(tree)) && (n.Temp? ==> AllOld())
      modifies this`tree, this`put, this`history, this`faults
      ensures old(faults) <= faults
      ensures Running() && Agree(old(tree), old(put), tree, put, {n}) && (quiet ==> job.Tracked(tree))
      ensures r.Opened? ==> n !in old(tree) && Get(tree, n) == Some(FileObject(identity, [], PRIVATE_MODE))
      ensures !r.Opened? ==> Unchanged()
      ensures FaultFree() && n !in old(tree) ==> r.Opened?
    {
      if quiet {
        job.TrackedAway(tree, tree[n := FileObject(identity, [], PRIVATE_MODE)], {n});
      }
      r := OpenExclusive(n, identity);
      job.SteadyStep(old(tree), old(put), tree, put, {n}, prepared, markerIdentity, quiet);
    }

    /** Fill a private staged file while nothing is published. */
    method WriteOwn(n: Name, content: Bytes) returns (ok: bool)
      requires Running() && job.Own(n) && n in tree && n.Temp? && AllOld()
      modifies this`tree, this`put, this`history, this`faults
      ensures old(faults) <= faults
      ensures Running() && Agree(old(tree), old(put), tree, put, {n})
      ensures n in tree && tree[n].identity == old(tree[n]).identity
      ensures ok ==> tree[n] == old(tree[n]).(bytes := content)
      ensures FaultFree() ==> ok
    {
      var torn := AnyPrefix(content);
      job.TrackedAway(tree, tree[n := tree[n].(bytes := content)], {n});
      job.TrackedAway(tree, tree[n := tree[n].(bytes := content[..torn])], {n});
      ok := WriteAll(n, content, torn);
      job.SteadyStep(old(tree), old(put), tree, put, {n}, prepared, markerIdentity, quiet);
    }

    /** Steps at own names leave every target as it was. */
    twostate lemma OldKept(n: Name)
      requires job.Own(n) && old(AllOld()) && Agree(old(tree), old(put), tree, put, {n})
      ensures AllOld()
    {
      forall i | 0 <= i < |job.plan| ensures job.OldAt(i, tree) {
        assert old(job.OldAt(i, tree)) && Get(tree, job.Target(i)) == old(Get(tree, job.Target(i)));
      }
    }

    method StageFile(i: nat, content: Bytes) returns (s: Status, identity: nat)
      requires Running() && i < |job.plan| && AllOld()
      modifies this`tree, this`put, this`history, this`faults
      ensures old(faults) <= faults
      ensures Running() && AllOld() && Agree(old(tree), old(put), tree, put, {job.TempOf(i)})
      ensures s.Done? ==> Get(tree, job.TempOf(i)) == Some(FileObject(identity, content, PRIVATE_MODE))
      ensures s.Failed? ==> s.kind == RecoveryRequired || job.TempOf(i) in old(tree) || job.TempOf(i) !in tree
      ensures FaultFree() && job.TempOf(i) !in old(tree) ==> s.Done?
      ensures s == Failed(RecoveryRequired) && faults == old(faults) + 1 ==>
                Get(tree, job.TempOf(i)) == Some(FileObject(identity, [], PRIVATE_MODE))
    {
      var temp := job.TempOf(i);
      identity := *;
      var file := CreateOwn(temp, identity);
      OldKept(temp);
      if !file.Opened? { return Failed(PublicationFailed), identity; }
      var ok := Attempt(); // inspect its identity
      if !ok { return Failed(RecoveryRequired), identity; }
      s := FillStaged(temp, content, identity);
      OldKept(temp);
    }

    /** Write and sync a staged file; remove it again if that fails. */
    method FillStaged(temp: Name, content: Bytes, identity: nat) returns (s: Status)
      requires Running() && job.Own(temp) && temp.Temp? && AllOld()
      requires Get(tree, temp) == Some(FileObject(identity, [], PRIVATE_MODE))
      modifies this`tree, this`put, this`history, this`faults
      ensures old(faults) <= faults
      ensures Running() && Agree(old(tree), old(put), tree, put, {temp})
      ensures s.Done? ==> Get(tree, temp) == Some(FileObject(identity, content, PRIVATE_MODE))
      ensures s.Failed? ==> (s.kind == PublicationFailed && temp !in tree) || s.kind == RecoveryRequired
      ensures s == Failed(RecoveryRequired) ==> old(faults) + 2 <= faults
      ensures FaultFree() ==> s.Done?
    {
      var ok := WriteOwn(temp, content);
      OldKept(temp);
      if ok {
        ok := Attempt(); // sync the staged file
      }
      if !ok {
        job.TrackedAway(tree, tree - {temp}, {temp});
        var removed := RemoveNamedIfIdentity(temp, identity);
        return Failed(if removed then PublicationFailed else RecoveryRequired);
      }
      return Done;
    }

    method EnsureAbsent(n: Name) returns (s: Status)
      modifies this`faults
      ensures old(faults) <= faults
      ensures s.Done? ==> n !in tree
      ensures s.Failed? ==> s.kind in {PreconditionFailed, UnsafeRoot}
      ensures FaultFree() ==> s == if n in tree then Failed(PreconditionFailed) else Done
    {
      var r := Stat(n);
      return match r case Missing => Done case Present => Failed(PreconditionFailed) case Unknown => Failed(UnsafeRoot);
    }

    method VerifyInitialPrecondition(i: nat) returns (s: Status, observed: Option<FileObject>)
      requires i < |job.plan| && job.OldAt(i, tree)
      modifies this`faults
      ensures old(faults) <= faults
      ensures s.Done? ==> observed == Get(job.origin, job.Target(i)) && job.GuardHolds(i)
      ensures s.Failed? ==> s.kind in {PreconditionFailed, UnsafeRoot}
      ensures FaultFree() ==> s == if job.GuardHolds(i) then Done else Failed(PreconditionFailed)
    {
      match job.plan[i].Precondition() {
        case Absent =>
          s := EnsureAbsent(job.Target(i));
          observed := None;
        case MatchesDigest(digest) =>
          observed := ReadRegularFile(job.Target(i));
          s := if observed.Some? && Calculate(observed.value.bytes) == digest then Done else Failed(PreconditionFailed);
      }
    }

    method SyncUniqueParents() returns (s: Status)
      requires |prepared| <= |job.plan|
      modifies this`faults
      ensures old(faults) <= faults
      ensures s.Failed? ==> s.kind in {UnsafeRoot, PublicationFailed}
      ensures FaultFree() ==> s.Done?
    {
      var seen: set<Directory> := {};
      for i := 0 to |prepared|
        invariant old(faults) <= faults
      {
        var ok := Attempt(); // identify the directory
        if !ok { return Failed(UnsafeRoot); }
        if job.Dir(i) !in seen {
          seen := seen + {job.Dir(i)};
          ok := Attempt(); // sync it
          if !ok { return Failed(PublicationFailed); }
        }
      }
      return Done;
    }

    method PrepareOne(i: nat) returns (s: Status)
      requires Running() && i == |prepared| < |job.plan| && AllPending() && AllOld() && job.Confined(tree, i)
      modifies this`tree, this`put, this`history, this`prepared, this`faults
      ensures old(faults) <= faults
      ensures Running() && AllPending() && AllOld()
      ensures s.Done? ==> |prepared| == i + 1 && job.Confined(tree, i + 1)
      ensures s.Failed? ==> |prepared| == i
      ensures s.Failed? ==> s.kind == RecoveryRequired || job.Confined(tree, i)
      ensures FaultFree() ==> s == if job.GuardHolds(i) then Done else Failed(PreconditionFailed)
    {
      var ok := Attempt(); // open the parent directory
      if !ok { return Failed(UnsafeRoot); }
      var checked, original := VerifyInitialPrecondition(i);
      if checked.Failed? { return checked; }
      var temp := job.TempOf(i);
      assert temp !in tree;
      var stagedIdentity := 0;
      match job.plan[i].ResultingContent() {
        case Some(content) =>
          var staged, identity := StageFile(i, content);
          job.PendingKept(old(tree), old(put), tree, put, i, prepared, quiet);
          if staged.Failed? { return staged; }
          stagedIdentity := identity;
        case None =>
          stagedIdentity := original.value.identity;
      }
      var change := PreparedChange(original, stagedIdentity, false);
      job.PreparedOneMore(tree, put, prepared, change, markerIdentity, quiet);
      prepared := prepared + [change];
      return Done;
    }

    ghost predicate AllGuardsHold() {
      forall i :: 0 <= i < |job.plan| ==> job.GuardHolds(i)
    }

    method PrepareChanges() returns (s: Status)
      requires Running() && prepared == [] && job.Confined(tree, 0) && AllOld()
      modifies this`tree, this`put, this`history, this`prepared, this`faults
      ensures old(faults) <= faults
      ensures Running() && AllPending() && AllOld()
      ensures s.Done? ==> |prepared| == |job.plan| && job.Confined(tree, |job.plan|)
      ensures s.Failed? && s.kind != RecoveryRequired ==> job.Confined(tree, |prepared|)
      ensures FaultFree() ==> s == if AllGuardsHold() then Done else Failed(PreconditionFailed)
    {
      s := Done;
      for i := 0 to |job.plan|
        invariant old(faults) <= faults
        invariant Running() && |prepared| == i && AllPending() && AllOld() && job.Confined(tree, i)
        invariant faults == old(faults) ==> forall j :: 0 <= j < i ==> job.GuardHolds(j)
      {
        s := PrepareOne(i);
        if s.Failed? { return; }
      }
      s := SyncUniqueParents();
    }

    // ---- Filesystem probes ----

    /** Remove a probe, keeping the run's bookkeeping. */
    method RemoveProbe(n: Name, expected: nat) returns (ok: bool)
      requires Running() && job.Own(n) && n.Probe? && (quiet ==> job.Tracked(tree))
      modifies this`tree, this`put, this`history, this`faults
      ensures old(faults) <= faults
      ensures Running() && Agree(old(tree), old(put), tree, put, {n}) && (quiet ==> job.Tracked(tree))
      ensures ok ==> n in old(tree) && n !in tree
      ensures FaultFree() && n in old(tree) && old(tree[n]).identity == expected ==> ok
    {
      if quiet {
        job.TrackedAway(tree, tree - {n}, {n});
      }
      ok := RemoveNamedIfIdentity(n, expected);
      if quiet {
        job.TrackedAway(old(tree), tree, {n});
      }
    }

    method CreateProbe(n: Name, identity: nat) returns (s: Status)
      requires Running() && job.Own(n) && n.Probe? && n !in tree && (quiet ==> job.Tracked(tree))
      modifies this`tree, this`put, this`history, this`faults
      ensures old(faults) <= faults
      ensures Running() && Agree(old(tree), old(put), tree, put, {n}) && (quiet ==> job.Tracked(tree))
      ensures s.Done? ==> n in tree && tree[n].identity == identity
      ensures s.Failed? ==> s.kind == RecoveryRequired || (s.kind == UnsupportedPlatform && n !in tree)
      ensures FaultFree() ==> s.Done?
    {
      var file := CreateOwn(n, identity);
      if !file.Opened? { return Failed(UnsupportedPlatform); }
      var ok := Attempt(); // inspect its identity
      if !ok { return Failed(RecoveryRequired); }
      ok := Attempt(); // sync it
      if !ok {
        var removed := RemoveProbe(n, identity);
        return Failed(if removed then UnsupportedPlatform else RecoveryRequired);
      }
      return Done;
    }

    /** What preflight answers where a flag is treated so. */
    ghost function Judged(support: Support): Status {
      match support
      case Honoured => Done
      case Rejected => Failed(UnsupportedPlatform)
      case Ignored => Failed(RecoveryRequired)
    }

    /** What preflight answers for the changes from `i` on. */
    ghost function Preflighted(i: nat): Status
      requires i <= |job.plan|
    {
      match job.FirstUnsupported(i, noReplace, exchange) case None => Done case Some(support) => Judged(support)
    }

    /** The flagged rename between two probes: supported exactly when the directory honours the flag. */
    method TryRename(i: nat, a: Name, b: Name) returns (supported: bool, exchanged: bool)
      requires Running() && i < |job.plan| && a == job.ProbeOf(i, First) && b == job.ProbeOf(i, Second)
      requires a in tree && b in tree && (quiet ==> job.Tracked(tree))
      modifies this`tree, this`put, this`history, this`faults
      ensures old(faults) <= faults
      ensures Running() && Agree(old(tree), old(put), tree, put, {a, b}) && (quiet ==> job.Tracked(tree))
      ensures exchanged ==> job.plan[i].Edit? && (a in tree ==> exchange(job.Dir(i)).Honoured?)
      ensures supported ==> (if job.plan[i].Edit? then exchanged else noReplace(job.Dir(i)).Honoured?)
      ensures FaultFree() && job.SupportedAt(i, noReplace, exchange) ==> supported
      ensures job.SupportAt(i, noReplace, exchange).Rejected? ==> !supported && !exchanged && Unchanged()
      ensures FaultFree() && job.SupportAt(i, noReplace, exchange).Ignored? ==> a !in tree
      ensures supported && job.SupportedAt(i, noReplace, exchange) ==>
                tree == if exchanged then Swapped(old(tree), a, b) else old(tree)
    {
      var flag := if job.plan[i].Edit? then Exchange else NoReplace;
      if quiet {
        job.TrackedAway(tree, AfterRename(tree, a, b, flag, job.Dir(i)), {a, b});
      }
      var r := Rename(a, b, flag, job.Dir(i));
      job.SteadyStep(old(tree), old(put), tree, put, {a, b}, prepared, markerIdentity, quiet);
      exchanged := job.plan[i].Edit? && r.Renamed?;
      supported := if job.plan[i].Edit? then exchanged else r.Occupied?;
    }

    method PreflightOne(i: nat) returns (s: Status)
      requires Running() && i < |job.plan| && job.Stage(tree, put, prepared, 0, quiet) && (quiet ==> job.Tracked(tree))
      modifies this`tree, this`put, this`history, this`faults
      ensures old(faults) <= faults
      ensures Running() && (quiet ==> job.Tracked(tree))
      ensures job.AllPhased(tree, put, prepared, quiet)
      ensures s.Done? || s.kind != RecoveryRequired ==> job.Stage(tree, put, prepared, 0, quiet)
      ensures s.Done? ==> job.SupportedAt(i, noReplace, exchange)
      ensures s.Failed? ==> s.kind in {RecoveryRequired, UnsupportedPlatform}
      ensures FaultFree() ==> s == Judged(job.SupportAt(i, noReplace, exchange))
    {
      var a, b := job.ProbeOf(i, First), job.ProbeOf(i, Second);
      s := ExerciseProbes(i, a, b);
      job.ProbesPhased(old(tree), old(put), tree, put, {a, b}, prepared, quiet);
      if s.Done? || s.kind != RecoveryRequired {
        job.StageAway(old(tree), old(put), tree, put, {a, b}, prepared, 0, quiet);
      }
    }

    method ExerciseProbes(i: nat, a: Name, b: Name) returns (s: Status)
      requires Running() && i < |job.plan| && a == job.ProbeOf(i, First) && b == job.ProbeOf(i, Second)
      requires a !in tree && b !in tree && (quiet ==> job.Tracked(tree))
      modifies this`tree, this`put, this`history, this`faults
      ensures old(faults) <= faults
      ensures Running() && Agree(old(tree), old(put), tree, put, {a, b}) && (quiet ==> job.Tracked(tree))
      ensures s.Done? || s.kind != RecoveryRequired ==> a !in tree && b !in tree
      ensures s.Done? ==> job.SupportedAt(i, noReplace, exchange)
      ensures s.Failed? ==> s.kind in {RecoveryRequired, UnsupportedPlatform}
      ensures FaultFree() ==> s == Judged(job.SupportAt(i, noReplace, exchange))
    {
      var first: nat, second: nat := *, *;
      s := CreateProbes(a, b, first, second);
      if s.Failed? { return; }
      var supported, exchanged := TryRename(i, a, b);
      var removed: bool;
      if exchanged {
        removed := RemoveProbes(a, b, second, first);
      } else {
        removed := RemoveProbes(a, b, first, second);
      }
      if !removed { return Failed(RecoveryRequired); }
      return if supported then Done else Failed(UnsupportedPlatform);
    }

    ghost predicate Holds(t: Tree, n: Name, identity: nat) {
      n in t && t[n].identity == identity
    }

    /** Both probes, or neither unless recovery is demanded. */
    method CreateProbes(a: Name, b: Name, first: nat, second: nat) returns (s: Status)
      requires Running() && job.Own(a) && job.Own(b) && a.Probe? && b.Probe? && a != b
      requires a !in tree && b !in tree && (quiet ==> job.Tracked(tree))
      modifies this`tree, this`put, this`history, this`faults
      ensures old(faults) <= faults
      ensures Running() && Agree(old(tree), old(put), tree, put, {a, b}) && (quiet ==> job.Tracked(tree))
      ensures s.Done? ==> a in tree && tree[a].identity == first && b in tree && tree[b].identity == second
      ensures s.Failed? ==> s.kind == RecoveryRequired || (s.kind == UnsupportedPlatform && a !in tree && b !in tree)
      ensures FaultFree() ==> s.Done?
    {
      s := CreateProbe(a, first);
      assert Get(tree, b) == None;
      if s.Failed? { return; }
      ghost var was := Get(tree, a);
      s := CreateProbe(b, second);
      assert Get(tree, a) == was;
      if s.Failed? {
        var removed := RemoveProbe(a, first);
        assert s.kind != RecoveryRequired ==> Get(tree, b) == None;
        return if removed then s else Failed(RecoveryRequired);
      }
    }

    /** Both removals are tried, whatever the first one gives. */
    method RemoveProbes(a: Name, b: Name, first: nat, second: nat) returns (ok: bool)
      requires Running() && job.Own(a) && job.Own(b) && a.Probe? && b.Probe? && a != b && (quiet ==> job.Tracked(tree))
      modifies this`tree, this`put, this`history, this`faults
      ensures old(faults) <= faults
      ensures Running() && Agree(old(tree), old(put), tree, put, {a, b}) && (quiet ==> job.Tracked(tree))
      ensures ok ==> a in old(tree) && a !in tree && b !in tree
      ensures FaultFree() && Holds(old(tree), a, first) && Holds(old(tree), b, second) ==> ok
    {
      var firstRemoved := RemoveProbe(a, first);
      assert Get(tree, b) == old(Get(tree, b));
      ghost var was := Get(tree, a);
      var secondRemoved := RemoveProbe(b, second);
      assert Get(tree, a) == was;
      return firstRemoved && secondRemoved;
    }

    method PreflightFilesystemSemantics() returns (s: Status)
      requires Running() && job.Stage(tree, put, prepared, 0, quiet) && (quiet ==> job.Tracked(tree))
      modifies this`tree, this`put, this`history, this`faults
      ensures old(faults) <= faults
      ensures Running() && (quiet ==> job.Tracked(tree))
      ensures job.AllPhased(tree, put, prepared, quiet)
      ensures s.Done? || s.kind != RecoveryRequired ==> job.Stage(tree, put, prepared, 0, quiet)
      ensures s.Done? ==> job.Supported(noReplace, exchange)
      ensures FaultFree() ==> s == Preflighted(0)
    {
      s := Done;
      for i := 0 to |job.plan|
        invariant old(faults) <= faults
        invariant Running() && (quiet ==> job.Tracked(tree)) && job.Stage(tree, put, prepared, 0, quiet)
        invariant job.FirstUnsupported(0, noReplace, exchange) == job.FirstUnsupported(i, noReplace, exchange)
      {
        s := PreflightOne(i);
        if s.Failed? { return; }
      }
      job.SupportedThroughout(0, noReplace, exchange);
      return Done;
    }

    // ---- Publication ----

    method VerifyPrecondition(i: nat) returns (s: Status)
      requires |prepared| == |job.plan| && i < |prepared| && job.Faithful(prepared[i], i)
      modifies this`faults
      ensures old(faults) <= faults
      ensures s.Done? ==> Get(tree, job.Target(i)) == prepared[i].original
      ensures s.Failed? ==> s.kind in {PreconditionFailed, UnsafeRoot}
      ensures FaultFree() && Get(tree, job.Target(i)) == prepared[i].original ==> s.Done?
    {
      if prepared[i].original.None? {
        s := EnsureAbsent(job.Target(i));
        return;
      }
      var original := prepared[i].original.value;
      var observed := ReadRegularFile(job.Target(i));
      if observed.None? || observed.value.identity != original.identity
         || MatchesDigest(Calculate(observed.value.bytes)) != job.plan[i].Precondition()
         || observed.value.mode != original.mode {
        return Failed(PreconditionFailed);
      }
      return Done;
    }

    method VerifyAllPreconditions() returns (s: Status)
      requires Running() && |prepared| == |job.plan|
      modifies this`faults
      ensures old(faults) <= faults
      ensures s.Done? ==> forall i :: 0 <= i < |job.plan| ==> Get(tree, job.Target(i)) == prepared[i].original
      ensures s.Failed? ==> s.kind in {PreconditionFailed, UnsafeRoot}
      ensures FaultFree() && AllOld() ==> s.Done?
    {
      for i := 0 to |job.plan|
        invariant old(faults) <= faults
        invariant forall j :: 0 <= j < i ==> Get(tree, job.Target(j)) == prepared[j].original
      {
        var ok := Attempt(); // the parent directory is still the one prepared
        if !ok { return Failed(UnsafeRoot); }
        assert job.Faithful(prepared[i], i);
        assert AllOld() ==> job.OldAt(i, tree);
        s := VerifyPrecondition(i);
        if s.Failed? { return; }
      }
      return Done;
    }

    /** The atomic rename that makes change `i` visible. */
    method PublishOne(i: nat) returns (s: Status)
      requires Running() && |prepared| == |job.plan| && i < |prepared| && (quiet ==> job.Tracked(tree))
      requires job.Pending(tree, put, prepared[i], i, quiet) && job.SupportedAt(i, noReplace, exchange)
      requires Get(tree, job.Target(i)) == prepared[i].original
      modifies this`tree, this`put, this`history, this`faults
      ensures old(faults) <= faults
      ensures Running() && Agree(old(tree), old(put), tree, put, {job.Target(i), job.TempOf(i)})
      ensures quiet ==> job.Tracked(tree)
      ensures s.Done? ==> job.Live(tree, put, prepared[i], i, quiet)
      ensures s.Done? ==> Get(put, job.Target(i)) == Some(Get(tree, job.Target(i)))
      ensures s.Failed? ==> Unchanged() && s.kind in {PreconditionFailed, PublicationFailed}
      ensures FaultFree() ==> s.Done?
    {
      var target, temp := job.Target(i), job.TempOf(i);
      var (source, destination, flag) :=
        match job.plan[i]
        case Create(_) => (temp, target, NoReplace)
        case Edit(_) => (temp, target, Exchange)
        case Retire(_) => (target, temp, NoReplace);
      assert job.Faithful(prepared[i], i);
      if quiet {
        job.TrackedStep(tree, AfterRename(tree, source, destination, flag, job.Dir(i)), i);
      }
      job.FirstTouch(tree, put, AfterRename(tree, source, destination, flag, job.Dir(i)), i, prepared, markerIdentity,
                     quiet, {source, destination});
      var r := Rename(source, destination, flag, job.Dir(i));
      job.SteadyStep(old(tree), old(put), tree, put, {target, temp}, prepared, markerIdentity, quiet);
      return match r
        case Renamed => Done
        case Occupied => Failed(PreconditionFailed)
        case RenameFailed => Failed(PublicationFailed);
    }

    method SetPublishedMode(i: nat) returns (s: Status)
      requires Running() && |prepared| == |job.plan| && i < |prepared| && (quiet ==> job.Tracked(tree))
      requires job.Live(tree, put, prepared[i], i, quiet) && Get(put, job.Target(i)) == Some(Get(tree, job.Target(i)))
      modifies this`tree, this`put, this`history, this`faults
      ensures old(faults) <= faults
      ensures Running() && Agree(old(tree), old(put), tree, put, {job.Target(i), job.TempOf(i)})
      ensures (quiet ==> job.Tracked(tree)) && job.Live(tree, put, prepared[i], i, quiet)
      ensures Get(put, job.Target(i)) == Some(Get(tree, job.Target(i)))
      ensures s.Done? ==> PublishedAt(i)
      ensures s.Failed? ==> s.kind == PublicationFailed
      ensures FaultFree() ==> s.Done?
    {
      assert job.Faithful(prepared[i], i);
      if job.plan[i].Retire? { return Done; }
      var target := job.Target(i);
      var mode := ResultMode(i);
      var observed := ReadRegularFile(target);
      if observed.None? || observed.value.identity != prepared[i].stagedIdentity {
        return Failed(PublicationFailed);
      }
      if quiet {
        job.TrackedStep(tree, tree[target := tree[target].(mode := mode)], i);
      }
      var ok := Chmod(target, mode);
      job.SteadyStep(old(tree), old(put), tree, put, {target}, prepared, markerIdentity, quiet);
      if !ok { return Failed(PublicationFailed); }
      ok := Attempt(); // sync the permissions
      return if ok then Done else Failed(PublicationFailed);
    }

    function ResultMode(i: nat): nat
      requires i < |prepared|
      reads this`prepared
    {
      match prepared[i].original
      case None => CREATED_MODE
      case Some(original) => original.mode % PERMISSIONS
    }

    /** The target shows the result with its identity, content and permissions, and the backup is the original. */
    ghost predicate PublishedAt(i: nat)
      requires i < |prepared| == |job.plan|
      reads this`tree, this`prepared
    {
      && Get(tree, job.TempOf(i)) == prepared[i].original
      && match job.plan[i].ResultingContent()
         case None => job.Target(i) !in tree
         case Some(content) =>
           Get(tree, job.Target(i)) == Some(FileObject(prepared[i].stagedIdentity, content, ResultMode(i)))
    }

    method VerifyPublished(i: nat) returns (s: Status)
      requires Running() && |prepared| == |job.plan| && i < |prepared|
      modifies this`faults
      ensures old(faults) <= faults
      ensures s.Done? && prepared[i].original.Some? ==> Get(tree, job.TempOf(i)) == prepared[i].original
      ensures s.Done? ==> match job.plan[i].ResultingContent()
                          case None => job.Target(i) !in tree
                          case Some(content) =>
                            && job.Target(i) in tree && tree[job.Target(i)].identity == prepared[i].stagedIdentity
                            && tree[job.Target(i)].bytes == content
                            && tree[job.Target(i)].mode % PERMISSIONS == ResultMode(i)
      ensures s.Failed? ==> s.kind in {PreconditionFailed, PublicationFailed}
      ensures FaultFree() && PublishedAt(i) ==> s.Done?
    {
      assert job.Faithful(prepared[i], i) && job.plan[i].DigestAgrees();
      if job.plan[i].Retire? {
        var absent := EnsureAbsent(job.Target(i));
        if absent.Failed? { return Failed(PublicationFailed); }
      } else {
        var result := ReadRegularFile(job.Target(i));
        if result.None? { return Failed(PreconditionFailed); }
        if result.value.identity != prepared[i].stagedIdentity
           || Some(Calculate(result.value.bytes)) != job.plan[i].ResultDigest()
           || result.value.mode % PERMISSIONS != ResultMode(i) {
          return Failed(PublicationFailed);
        }
      }
      if prepared[i].original.Some? {
        var backup := ReadRegularFile(job.TempOf(i));
        if backup.None? { return Failed(PreconditionFailed); }
        if backup != prepared[i].original { return Failed(PublicationFailed); }
      }
      return Done;
    }

    method HookPoint(k: nat) returns (s: Status)
      requires Running() && job.Stage(tree, put, prepared, k, quiet) && (quiet ==> job.Tracked(tree))
      modifies this`tree, this`history
      ensures Running() && job.Stage(tree, put, prepared, k, quiet) && (quiet ==> job.Tracked(tree))
      ensures quiet ==> tree == old(tree)
      ensures obliging ==> s.Done?
    {
      s := Hook();
      job.StageHook(old(tree), tree, put, prepared, k, quiet);
      assert Get(tree, MARKER) == old(Get(tree, MARKER));
    }

    /** The root, the marker and the parent directory are still the ones this run works on. */
    method VerifyNamespaces() returns (s: Status)
      requires Running()
      modifies this`faults
      ensures old(faults) <= faults
      ensures s.Failed? ==> s.kind in {UnsafeRoot, RecoveryRequired}
      ensures FaultFree() ==> s.Done?
    {
      var ok := Attempt(); // the root directory
      if !ok { return Failed(UnsafeRoot); }
      s := VerifyMarker();
      if s.Failed? { return; }
      ok := Attempt(); // the parent directory
      return if ok then Done else Failed(UnsafeRoot);
    }

    /** The checks before change `i`, with a hook between them. */
    method BeforeChange(i: nat) returns (s: Status)
      requires Running() && i < |job.plan| && job.Stage(tree, put, prepared, i, quiet) && (quiet ==> job.Tracked(tree))
      modifies this`tree, this`history, this`faults
      ensures old(faults) <= faults
      ensures Running() && job.Stage(tree, put, prepared, i, quiet) && (quiet ==> job.Tracked(tree))
      ensures s.Done? ==> Get(tree, job.Target(i)) == prepared[i].original
      ensures FaultFree() && quiet && obliging ==> s.Done?
    {
      s := VerifyNamespaces();
      if s.Failed? { return; }
      s := HookPoint(i);
      if s.Failed? { return; }
      var ok := Attempt(); // the parent directory again
      if !ok { return Failed(UnsafeRoot); }
      assert job.Faithful(prepared[i], i);
      s := VerifyPrecondition(i);
    }

    /** One turn of the publication loop. */
    method PublishChange(i: nat) returns (s: Status)
      requires Running() && i < |job.plan| && job.Stage(tree, put, prepared, i, quiet) && (quiet ==> job.Tracked(tree))
      requires job.Supported(noReplace, exchange)
      modifies this`tree, this`put, this`history, this`prepared, this`faults
      ensures old(faults) <= faults
      ensures Running() && (quiet ==> job.Tracked(tree)) && job.Confined(tree, |job.plan|)
      ensures job.AllPhased(tree, put, prepared, quiet)
      ensures s.Done? ==> job.Stage(tree, put, prepared, i + 1, quiet)
      ensures FaultFree() && quiet && obliging ==> s.Done?
    {
      s := BeforeChange(i);
      if s.Failed? { return; }
      assert job.SupportedAt(i, noReplace, exchange);
      s := PublishAndVerify(i);
      if s.Failed? { return; }
      s := AfterChange(i + 1);
    }

    /** The hook and the checks after a change. */
    method AfterChange(k: nat) returns (s: Status)
      requires Running() && job.Stage(tree, put, prepared, k, quiet) && (quiet ==> job.Tracked(tree))
      modifies this`tree, this`history, this`faults
      ensures old(faults) <= faults
      ensures Running() && job.Stage(tree, put, prepared, k, quiet) && (quiet ==> job.Tracked(tree))
      ensures FaultFree() && obliging ==> s.Done?
    {
      s := HookPoint(k);
      if s.Failed? { return; }
      s := VerifyNamespaces();
    }

    /** The rename, the permissions and the checks that follow, with no hook in between. */
    method PublishAndVerify(i: nat) returns (s: Status)
      requires Running() && i < |job.plan| && job.Stage(tree, put, prepared, i, quiet) && (quiet ==> job.Tracked(tree))
      requires job.SupportedAt(i, noReplace, exchange) && Get(tree, job.Target(i)) == prepared[i].original
      modifies this`tree, this`put, this`history, this`prepared, this`faults
      ensures old(faults) <= faults
      ensures Running() && (quiet ==> job.Tracked(tree)) && job.Confined(tree, |job.plan|)
      ensures job.AllPhased(tree, put, prepared, quiet)
      ensures s.Done? ==> job.Stage(tree, put, prepared, i + 1, quiet)
      ensures FaultFree() ==> s.Done?
    {
      s := PublishAndSettle(i);
      if s.Failed? { return; }
      s := VerifyPublished(i);
      if s.Failed? { return; }
      var ok := Attempt(); // sync the parent directory
      return if ok then Done else Failed(PublicationFailed);
    }

    /** The rename and the permissions. */
    method PublishAndSettle(i: nat) returns (s: Status)
      requires Running() && i < |job.plan| && job.Stage(tree, put, prepared, i, quiet) && (quiet ==> job.Tracked(tree))
      requires job.SupportedAt(i, noReplace, exchange) && Get(tree, job.Target(i)) == prepared[i].original
      modifies this`tree, this`put, this`history, this`prepared, this`faults
      ensures old(faults) <= faults
      ensures Running() && (quiet ==> job.Tracked(tree)) && job.Confined(tree, |job.plan|)
      ensures job.AllPhased(tree, put, prepared, quiet)
      ensures s.Done? ==> job.Stage(tree, put, prepared, i + 1, quiet) && PublishedAt(i)
      ensures FaultFree() ==> s.Done?
    {
      s := PublishOne(i);
      if s.Failed? { return; }
      ghost var was := prepared;
      prepared := prepared[i := prepared[i].(published := true)];
      s := SetPublishedMode(i);
      job.StageAdvance(old(tree), old(put), tree, put, was, i, quiet);
    }

    // ---- Rollback ----

    /** Undo one published change, unless somebody else has touched it. */
    method RollbackOne(i: nat) returns (ok: bool)
      requires Running() && |prepared| == |job.plan| && i < |prepared| && (quiet ==> job.Tracked(tree))
      requires job.Live(tree, put, prepared[i], i, quiet) && job.SupportedAt(i, noReplace, exchange)
      modifies this`tree, this`put, this`history, this`faults
      ensures old(faults) <= faults
      ensures Running() && Agree(old(tree), old(put), tree, put, {job.Target(i), job.TempOf(i)})
      ensures quiet ==> job.Tracked(tree)
      ensures job.Live(tree, put, prepared[i], i, quiet) || job.Idle(tree, prepared[i], i, quiet)
      ensures ok ==> job.Idle(tree, prepared[i], i, quiet)
      ensures ok ==> Get(tree, job.Target(i)) == prepared[i].original
      ensures FaultFree() && (quiet || old(job.OursAt(tree, prepared[i], i))) ==> ok
    {
      var target, temp := job.Target(i), job.TempOf(i);
      assert job.Faithful(prepared[i], i) && job.plan[i].DigestAgrees();
      if job.plan[i].Retire? {
        var absent := EnsureAbsent(target);
        if absent.Failed? { return false; }
      } else {
        var result := ReadRegularFile(target);
        if result.None? || result.value.identity != prepared[i].stagedIdentity
           || Some(Calculate(result.value.bytes)) != job.plan[i].ResultDigest() {
          return false;
        }
      }
      match job.plan[i] {
        case Create(_) =>
          if quiet {
            job.TrackedStep(tree, tree - {target}, i);
          }
          ok := Unlink(target);
          job.SteadyStep(old(tree), old(put), tree, put, {target}, prepared, markerIdentity, quiet);
          if !ok { return; }
        case Edit(_) =>
          ok := RestoreEdited(i);
          if !ok { return; }
        case Retire(_) =>
          ok := RestoreRetired(i);
          if !ok { return; }
      }
      ok := Attempt(); // sync the parent directory
    }

    /** The object under the temporary name is still exactly the original. */
    method ReadsOriginal(i: nat, n: Name) returns (ok: bool)
      requires i < |prepared| && prepared[i].original.Some?
      modifies this`faults
      ensures old(faults) <= faults
      ensures ok ==> Get(tree, n) == prepared[i].original
      ensures FaultFree() && Get(tree, n) == prepared[i].original ==> ok
    {
      var observed := ReadRegularFile(n);
      return observed.Some? && observed == prepared[i].original;
    }

    method RestoreEdited(i: nat) returns (ok: bool)
      requires Running() && |prepared| == |job.plan| && i < |prepared| && (quiet ==> job.Tracked(tree))
      requires job.plan[i].Edit? && exchange(job.Dir(i)).Honoured? && job.Live(tree, put, prepared[i], i, quiet)
      requires job.Target(i) in tree && job.Entitled(job.Target(i), tree[job.Target(i)], put)
      requires tree[job.Target(i)].identity == prepared[i].stagedIdentity
      modifies this`tree, this`put, this`history, this`faults
      ensures old(faults) <= faults
      ensures Running() && Agree(old(tree), old(put), tree, put, {job.Target(i), job.TempOf(i)})
      ensures quiet ==> job.Tracked(tree)
      ensures job.Live(tree, put, prepared[i], i, quiet) || job.Idle(tree, prepared[i], i, quiet)
      ensures ok ==> job.Idle(tree, prepared[i], i, quiet) && Get(tree, job.Target(i)) == prepared[i].original
      ensures FaultFree() ==> ok
    {
      var target, temp := job.Target(i), job.TempOf(i);
      assert job.Faithful(prepared[i], i);
      ok := ReadsOriginal(i, temp);
      if !ok { return; }
      if quiet {
        job.TrackedStep(tree, Swapped(tree, temp, target), i);
      }
      var r := Rename(temp, target, Exchange, job.Dir(i));
      job.SteadyStep(old(tree), old(put), tree, put, {target, temp}, prepared, markerIdentity, quiet);
      if !r.Renamed? { return false; }
      ok := ReadsOriginal(i, target);
      if !ok { return; }
      ok := RemoveStagedTemp(i);
    }

    method RestoreRetired(i: nat) returns (ok: bool)
      requires Running() && |prepared| == |job.plan| && i < |prepared| && (quiet ==> job.Tracked(tree))
      requires job.plan[i].Retire? && noReplace(job.Dir(i)).Honoured? && job.Live(tree, put, prepared[i], i, quiet)
      requires job.Target(i) !in tree
      modifies this`tree, this`put, this`history, this`faults
      ensures old(faults) <= faults
      ensures Running() && Agree(old(tree), old(put), tree, put, {job.Target(i), job.TempOf(i)})
      ensures quiet ==> job.Tracked(tree)
      ensures job.Live(tree, put, prepared[i], i, quiet) || job.Idle(tree, prepared[i], i, quiet)
      ensures ok ==> job.Idle(tree, prepared[i], i, quiet) && Get(tree, job.Target(i)) == prepared[i].original
      ensures FaultFree() ==> ok
    {
      var target, temp := job.Target(i), job.TempOf(i);
      assert job.Faithful(prepared[i], i);
      ok := ReadsOriginal(i, temp);
      if !ok { return; }
      if quiet {
        job.TrackedStep(tree, Moved(tree, temp, target), i);
      }
      var r := Rename(temp, target, NoReplace, job.Dir(i));
      job.SteadyStep(old(tree), old(put), tree, put, {target, temp}, prepared, markerIdentity, quiet);
      if !r.Renamed? { return false; }
      ok := ReadsOriginal(i, target);
    }

    /** Remove the staged file of a change that is not published. */
    method RemoveStagedTemp(i: nat) returns (ok: bool)
      requires Running() && i < |prepared| && (quiet ==> job.Tracked(tree)) && job.Idle(tree, prepared[i], i, quiet)
      modifies this`tree, this`put, this`history, this`faults
      ensures old(faults) <= faults
      ensures Running() && Agree(old(tree), old(put), tree, put, {job.TempOf(i)}) && (quiet ==> job.Tracked(tree))
      ensures job.Idle(tree, prepared[i], i, quiet)
      ensures job.TempOf(i) in tree ==> !ok && job.TempOf(i) in old(tree)
      ensures FaultFree() && job.TempOf(i) in old(tree) ==> ok
    {
      var temp := job.TempOf(i);
      if quiet {
        job.TrackedStep(tree, tree - {temp}, i);
      }
      ok := RemoveNamedIfIdentity(temp, prepared[i].stagedIdentity);
      assert Get(tree, job.Target(i)) == old(Get(tree, job.Target(i)));
      if quiet {
        job.TrackedStep(old(tree), tree, i);
      }
    }

    method RemoveTempIfPresent(i: nat) returns (ok: bool)
      requires Running() && i < |prepared| && (quiet ==> job.Tracked(tree)) && job.Idle(tree, prepared[i], i, quiet)
      modifies this`tree, this`put, this`history, this`faults
      ensures old(faults) <= faults
      ensures Running() && Agree(old(tree), old(put), tree, put, {job.TempOf(i)}) && (quiet ==> job.Tracked(tree))
      ensures job.Idle(tree, prepared[i], i, quiet)
      ensures job.TempOf(i) in tree ==> !ok && job.TempOf(i) in old(tree)
      ensures FaultFree() ==> ok
    {
      var r := Stat(job.TempOf(i));
      match r {
        case Missing => return true;
        case Unknown => return false;
        case Present => ok := RemoveStagedTemp(i);
      }
    }

    ghost predicate AllIdle()
      reads this`tree, this`prepared
    {
      |prepared| <= |job.plan| && forall j :: 0 <= j < |prepared| ==> job.Idle(tree, prepared[j], j, quiet)
    }

    method RemoveTemps() returns (complete: bool)
      requires Running() && AllIdle() && (quiet ==> job.Tracked(tree))
      modifies this`tree, this`put, this`history, this`faults
      ensures old(faults) <= faults
      ensures Running() && AllIdle() && (quiet ==> job.Tracked(tree))
      ensures complete ==> forall i :: 0 <= i < |prepared| ==> job.TempOf(i) !in tree
      ensures forall n :: n in tree && job.Own(n) ==> n in old(tree)
      ensures forall j :: 0 <= j < |job.plan| ==> Get(tree, job.Target(j)) == old(Get(tree, job.Target(j)))
      ensures FaultFree() ==> complete
    {
      complete := true;
      for i := 0 to |prepared|
        invariant old(faults) <= faults
        invariant Running() && AllIdle() && (quiet ==> job.Tracked(tree))
        invariant complete ==> forall j :: 0 <= j < i ==> job.TempOf(j) !in tree
        invariant forall n :: n in tree && job.Own(n) ==> n in old(tree)
        invariant forall j :: 0 <= j < |job.plan| ==> Get(tree, job.Target(j)) == old(Get(tree, job.Target(j)))
        invariant faults == old(faults) ==> complete
      {
        label before:
        var ok := RemoveTempIfPresent(i);
        job.IdleKept(old@before(tree), old@before(put), tree, put, i, prepared, quiet);
        if !ok { complete := false; }
      }
    }

    /** With every change undone and every temporary gone, give up the marker unless recovery needs it. */
    method Withdraw(kind: ErrorKind) returns (complete: bool)
      requires Running() && AllIdle() && (forall i :: 0 <= i < |prepared| ==> job.TempOf(i) !in tree)
      requires kind != RecoveryRequired ==> job.Confined(tree, |prepared|)
      modifies this`tree, this`put, this`history, this`faults
      ensures old(faults) <= faults
      ensures Valid()
      ensures quiet && MARKER !in tree ==> tree == job.origin
      ensures complete && kind != RecoveryRequired && quiet ==> tree == job.origin
      ensures kind == RecoveryRequired ==> MARKER in tree
      ensures forall n :: n != MARKER ==> Get(tree, n) == old(Get(tree, n))
      ensures FaultFree() ==> complete
    {
      var synced := SyncUniqueParents();
      if synced.Failed? { return false; }
      if kind == RecoveryRequired { return true; }
      if quiet {
        forall i | 0 <= i < |job.plan| ensures job.OldAt(i, tree) {
          assert i < |prepared| ==> job.Idle(tree, prepared[i], i, quiet);
          assert i >= |prepared| ==> job.Untouched(tree, put, i, quiet);
        }
        job.RestoredTree(tree);
        assert job.Sound(job.origin);
      }
      complete := RemoveMarker();
    }

    method CleanupBeforePublication(kind: ErrorKind) returns (o: Outcome)
      requires Running() && AllPending() && (quiet ==> job.Tracked(tree))
      requires kind != RecoveryRequired ==> job.Confined(tree, |prepared|)
      modifies this`tree, this`put, this`history, this`faults
      ensures old(faults) <= faults
      ensures Valid() && o.Refused?
      ensures quiet && MARKER !in tree ==> tree == job.origin
      ensures o.kind == RecoveryRequired || (o.kind == kind && (quiet ==> tree == job.origin))
      ensures kind == RecoveryRequired ==> MARKER in tree
      ensures FaultFree() ==> o.kind == kind && (quiet && kind != RecoveryRequired ==> tree == job.origin)
    {
      assert AllIdle() by {
        forall j | 0 <= j < |prepared| ensures job.Idle(tree, prepared[j], j, quiet) {
          assert job.Pending(tree, put, prepared[j], j, quiet) && job.Faithful(prepared[j], j);
        }
      }
      var complete := RemoveTemps();
      if complete {
        complete := Withdraw(kind);
      }
      return Refused(if complete then kind else RecoveryRequired);
    }

    ghost predicate LiveSupported()
      reads this`prepared
    {
      |prepared| == |job.plan| &&
      forall i :: 0 <= i < |prepared| && prepared[i].published ==> job.SupportedAt(i, noReplace, exchange)
    }

    /** One turn of the backward walk over the published changes. */
    method RollbackTurn(i: nat, complete: bool) returns (complete': bool)
      requires Running() && i < |job.plan| && job.Unwinding(tree, put, prepared, i + 1, complete, quiet)
      requires (quiet ==> job.Tracked(tree)) && LiveSupported()
      modifies this`tree, this`put, this`history, this`prepared, this`faults
      ensures old(faults) <= faults
      ensures Running() && job.Unwinding(tree, put, prepared, i, complete', quiet)
      ensures (quiet ==> job.Tracked(tree)) && LiveSupported()
      ensures old(job.Confined(tree, |job.plan|)) ==> job.Confined(tree, |job.plan|)
      ensures FaultFree() && quiet && complete ==> complete'
      ensures Agree(old(tree), old(put), tree, put, {job.Target(i), job.TempOf(i)})
      ensures forall j :: 0 <= j < |prepared| && j != i ==> prepared[j] == old(prepared[j])
      ensures FaultFree() && old(prepared[i].published && job.OursAt(tree, prepared[i], i)) ==>
                Get(tree, job.Target(i)) == old(prepared[i].original)
    {
      assert job.Phased(tree, put, prepared[i], i, quiet) && job.Faithful(prepared[i], i);
      if !prepared[i].published { return complete; }
      var ok := RollbackOne(i);
      job.RollbackKept(old(tree), old(put), tree, put, prepared, i, complete, ok, quiet);
      if ok {
        job.MarkingKeepsSteady(tree, put, prepared, i, false, markerIdentity, quiet);
        prepared := prepared[i := prepared[i].(published := false)];
      }
      return complete && ok;
    }

    /** The changes before `i` are as they were. */
    twostate predicate Ahead(i: nat)
      requires i <= |job.plan|
      reads this`tree, this`prepared
    {
      && |prepared| == old(|prepared|) == |job.plan|
      && forall j :: 0 <= j < i ==>
           prepared[j] == old(prepared[j]) && Get(tree, job.Target(j)) == old(Get(tree, job.Target(j)))
    }

    /** Without a fault, every published change from `i` on that nobody else has touched is undone. */
    twostate predicate Restored(i: nat)
      requires i <= |job.plan| == old(|prepared|)
      reads this`tree, this`prepared, this`faults
    {
      FaultFree() ==>
        forall j :: i <= j < |job.plan| && old(prepared[j].published && job.OursAt(tree, prepared[j], j)) ==>
          Get(tree, job.Target(j)) == old(prepared[j].original)
    }

    /** Walk the published changes backwards. */
    method RollbackAll() returns (complete: bool)
      requires Running() && job.AllPhased(tree, put, prepared, quiet) && (quiet ==> job.Tracked(tree))
      requires LiveSupported()
      modifies this`tree, this`put, this`history, this`prepared, this`faults
      ensures old(faults) <= faults
      ensures Running() && |prepared| == |job.plan| && (quiet ==> job.Tracked(tree))
      ensures complete ==> AllIdle()
      ensures old(job.Confined(tree, |job.plan|)) ==> job.Confined(tree, |job.plan|)
      ensures FaultFree() && quiet ==> complete
      ensures Restored(0)
    {
      complete := true;
      for i := |prepared| downto 0
        invariant old(faults) <= faults && Ahead(i) && Restored(i)
        invariant Running() && job.Unwinding(tree, put, prepared, i, complete, quiet)
        invariant (quiet ==> job.Tracked(tree)) && LiveSupported()
        invariant old(job.Confined(tree, |job.plan|)) ==> job.Confined(tree, |job.plan|)
        invariant faults == old(faults) && quiet ==> complete
      {
        label before:
        complete := RollbackTurn(i, complete);
        forall j | 0 <= j < |job.plan| && j != i
          ensures Get(tree, job.Target(j)) == old@before(Get(tree, job.Target(j)))
        {
        }
      }
    }

    method RollbackOrReport(kind: ErrorKind) returns (o: Outcome)
      requires Running() && job.AllPhased(tree, put, prepared, quiet) && (quiet ==> job.Tracked(tree))
      requires LiveSupported()
      requires kind != RecoveryRequired ==> job.Confined(tree, |job.plan|)
      modifies this`tree, this`put, this`history, this`prepared, this`faults
      ensures old(faults) <= faults
      ensures Valid() && o.Refused?
      ensures quiet && MARKER !in tree ==> tree == job.origin
      ensures o.kind in {RollbackIncomplete, kind}
      ensures quiet && o.kind != RollbackIncomplete && kind != RecoveryRequired ==> tree == job.origin
      ensures kind == RecoveryRequired ==> MARKER in tree
      ensures FaultFree() && quiet ==> o.kind == kind && (kind != RecoveryRequired ==> tree == job.origin)
      ensures Restored(0)
    {
      var complete := RollbackAll();
      if complete {
        complete := RemoveTemps();
      }
      if complete {
        complete := Withdraw(kind);
      }
      if complete {
        var _ := Attempt(); // sync the root directory
      }
      return Refused(if complete then kind else RollbackIncomplete);
    }

    // ---- The whole run ----

    method RunPublication() returns (s: Status)
      requires Running() && job.Stage(tree, put, prepared, 0, quiet) && (quiet ==> job.Tracked(tree))
      modifies this`tree, this`put, this`history, this`prepared, this`faults
      ensures old(faults) <= faults
      ensures Running() && (quiet ==> job.Tracked(tree)) && job.AllPhased(tree, put, prepared, quiet) && LiveSupported()
      ensures s.Failed? && s.kind != RecoveryRequired ==> job.Confined(tree, |job.plan|)
      ensures s.Done? ==> job.Stage(tree, put, prepared, |job.plan|, quiet) && job.Supported(noReplace, exchange)
      ensures FaultFree() && quiet && obliging ==> s == Preflighted(0)
    {
      job.SupportedThroughout(0, noReplace, exchange);
      s := Preliminaries();
      if s.Failed? { return; }
      s := PublishAll();
      if s.Failed? { return; }
      s := VerifyNamespaces();
      if s.Failed? { return; }
      s := VerifyAllParents();
    }

    /** The probes and the checks before the first change. */
    method Preliminaries() returns (s: Status)
      requires Running() && job.Stage(tree, put, prepared, 0, quiet) && (quiet ==> job.Tracked(tree))
      modifies this`tree, this`put, this`history, this`faults
      ensures old(faults) <= faults
      ensures Running() && (quiet ==> job.Tracked(tree)) && job.AllPhased(tree, put, prepared, quiet)
      ensures s.Done? || s.kind != RecoveryRequired ==> job.Stage(tree, put, prepared, 0, quiet)
      ensures s.Done? ==> job.Supported(noReplace, exchange)
      ensures FaultFree() && quiet && obliging ==> s == Preflighted(0)
    {
      job.SupportedThroughout(0, noReplace, exchange);
      s := HookPoint(0);
      if s.Failed? { return; }
      s := PreflightFilesystemSemantics();
      if s.Failed? { return; }
      s := VerifyNamespaces();
      if s.Failed? { return; }
      forall j | quiet && 0 <= j < |job.plan| ensures job.OldAt(j, tree) {
        assert job.Pending(tree, put, prepared[j], j, quiet);
      }
      s := VerifyAllPreconditions();
      if s.Failed? { return; }
      s := HookPoint(0);
    }

    method PublishAll() returns (s: Status)
      requires Running() && job.Stage(tree, put, prepared, 0, quiet) && (quiet ==> job.Tracked(tree))
      requires job.Supported(noReplace, exchange)
      modifies this`tree, this`put, this`history, this`prepared, this`faults
      ensures old(faults) <= faults
      ensures Running() && (quiet ==> job.Tracked(tree)) && job.AllPhased(tree, put, prepared, quiet)
      ensures job.Confined(tree, |job.plan|)
      ensures s.Done? ==> job.Stage(tree, put, prepared, |job.plan|, quiet)
      ensures FaultFree() && quiet && obliging ==> s.Done?
    {
      for i := 0 to |job.plan|
        invariant old(faults) <= faults
        invariant Running() && (quiet ==> job.Tracked(tree)) && job.Stage(tree, put, prepared, i, quiet)
      {
        s := PublishChange(i);
        if s.Failed? { return; }
      }
      return Done;
    }

    method VerifyAllParents() returns (s: Status)
      modifies this`faults
      ensures old(faults) <= faults
      ensures s.Failed? ==> s.kind == UnsafeRoot
      ensures FaultFree() ==> s.Done?
    {
      for i := 0 to |prepared|
        invariant old(faults) <= faults
      {
        var ok := Attempt(); // the parent directory of each change
        if !ok { return Failed(UnsafeRoot); }
      }
      return Done;
    }

    /** Remove the parked original of a published edit or retirement. */
    method RemoveBackup(i: nat) returns (ok: bool)
      requires Running() && |prepared| == |job.plan| && i < |prepared| && (quiet ==> job.AllFinal(tree))
      requires prepared[i].original.Some? && Get(tree, job.TempOf(i)) == prepared[i].original
      modifies this`tree, this`put, this`history, this`faults
      ensures old(faults) <= faults
      ensures Running() && Agree(old(tree), old(put), tree, put, {job.TempOf(i)}) && (quiet ==> job.AllFinal(tree))
      ensures ok ==> job.TempOf(i) !in tree
      ensures FaultFree() ==> ok
    {
      if quiet {
        job.FinalStep(tree, tree - {job.TempOf(i)}, i);
      }
      ok := RemoveNamedIfIdentity(job.TempOf(i), prepared[i].original.value.identity);
      if quiet {
        job.FinalStep(old(tree), tree, i);
      }
    }

    /** The backups of the changes before `k` are gone. */
    ghost predicate Discarded(k: nat)
      requires k <= |prepared| == |job.plan|
      reads this`tree, this`prepared
    {
      && (forall j :: 0 <= j < k ==> job.TempOf(j) !in tree)
      && (forall j :: k <= j < |prepared| ==> Get(tree, job.TempOf(j)) == prepared[j].original)
    }

    method RemoveBackups() returns (ok: bool)
      requires Running() && |prepared| == |job.plan| && Discarded(0) && (quiet ==> job.AllFinal(tree))
      requires job.Confined(tree, |job.plan|) && job.PutInPlace(put)
      modifies this`tree, this`put, this`history, this`faults
      ensures old(faults) <= faults
      ensures Running() && (quiet ==> job.AllFinal(tree)) && job.PutInPlace(put)
      ensures ok ==> job.NoOwn(tree)
      ensures FaultFree() ==> ok
    {
      for i := 0 to |prepared|
        invariant old(faults) <= faults
        invariant Running() && |prepared| == |job.plan| && Discarded(i) && (quiet ==> job.AllFinal(tree))
        invariant job.Confined(tree, |job.plan|) && job.PutInPlace(put)
      {
        label before:
        assert job.Faithful(prepared[i], i);
        if !job.plan[i].Create? {
          ok := RemoveBackup(i);
          job.PutInPlaceKept(old@before(tree), old@before(put), tree, put, job.TempOf(i));
          if !ok { return; }
          assert forall n :: n != job.TempOf(i) ==> Get(tree, n) == old@before(Get(tree, n));
          forall j | 0 <= j < |prepared| && j != i
            ensures Get(tree, job.TempOf(j)) == old@before(Get(tree, job.TempOf(j)))
          {
          }
          assert forall n :: n in tree && job.Own(n) ==> old@before(Get(tree, n)).Some?;
        }
      }
      return true;
    }

    /** Drop the backups and the marker once every change is in place. */
    method Commit() returns (o: Outcome)
      requires Running() && job.Stage(tree, put, prepared, |job.plan|, quiet)
      modifies this`tree, this`put, this`history, this`faults
      ensures old(faults) <= faults
      ensures Valid()
      ensures o.Receipt? ==> o.changedFiles == |job.plan| && MARKER !in tree && (quiet ==> job.Published(tree))
      ensures o.Receipt? ==> job.PutInPlace(put) && job.CarriedOut(history)
      ensures o.Refused? ==> o.kind in {RecoveryRequired, UnsafeRoot, PublicationFailed}
      ensures quiet && MARKER !in tree ==> job.Published(tree)
      ensures FaultFree() ==> o.Receipt?
    {
      forall j | 0 <= j < |job.plan|
        ensures Get(tree, job.TempOf(j)) == prepared[j].original && (quiet ==> job.FinalAt(j, tree))
        ensures job.LeftAt(j, put)
      {
        assert job.Settled(tree, put, prepared[j], j, quiet);
      }
      var ok := RemoveBackups();
      if !ok { return Refused(RecoveryRequired); }
      var synced := SyncUniqueParents();
      if synced.Failed? { return Refused(synced.kind); }
      if quiet {
        job.CommittedTree(tree);
        job.AllFinalSound(tree - {MARKER});
      }
      label committed:
      ok := RemoveMarker();
      job.PutInPlaceKept(old@committed(tree), old@committed(put), tree, put, MARKER);
      if !ok { return Refused(RecoveryRequired); }
      ok := Attempt(); // sync the root directory
      if !ok { return Refused(RecoveryRequired); }
      job.PutMeansCarriedOut(history, quiet);
      return Receipt(|prepared|);
    }

    /** How a fault-free, undisturbed transaction ends once its marker is in place. */
    ghost function TransactionVerdict(): Outcome {
      if !AllGuardsHold() then Refused(PreconditionFailed)
      else match Preflighted(0) case Done => Receipt(|job.plan|) case Failed(kind) => Refused(kind)
    }

    /** How a fault-free, undisturbed run ends, all of it known before the run. */
    ghost function Verdict(): Outcome {
      if !ValidPlan(job.plan) then Refused(InvalidPlan)
      else if job.plan == [] then Receipt(0)
      else if exists i :: 0 <= i < |job.plan| && job.plan[i].Path() == MUTATION_MARKER then Refused(InvalidPlan)
      else if MARKER in job.origin then Refused(RecoveryRequired)
      else TransactionVerdict()
    }

    /** Such a run succeeds exactly for valid publishable plans. */
    lemma ReceiptsAreForPublishablePlans()
      requires job.plan != []
      ensures Verdict().Receipt? <==> ValidPlan(job.plan) && job.Publishable(noReplace, exchange)
    {
      job.SupportedThroughout(0, noReplace, exchange);
      if job.Publishable(noReplace, exchange) {
        assert AllGuardsHold();
        assert Preflighted(0) == Done;
      }
      if ValidPlan(job.plan) && Verdict().Receipt? {
        assert AllGuardsHold();
      }
    }

    /** `publish_with`: the whole transaction. */
    method PublishWith() returns (o: Outcome)
      requires Valid() && tree == job.origin && put == map[] && prepared == [] && history == []
      requires ValidPlan(job.plan) && job.NoOwn(job.origin)
      modifies this
      ensures old(faults) <= faults
      ensures Valid()
      ensures MARKER in job.origin ==> o.Refused? && history == []
      ensures o.Receipt? ==> o.changedFiles == |job.plan| && MARKER !in tree
      ensures o.Receipt? ==> job.PutInPlace(put) && job.CarriedOut(history)
      ensures quiet && o.Receipt? ==> job.Published(tree)
      ensures quiet && MARKER !in tree ==> tree == job.origin || job.Published(tree)
      ensures quiet && o.Refused? && o.kind in {InvalidPlan, PreconditionFailed, UnsupportedPlatform} ==>
                tree == job.origin
      ensures FaultFree() && quiet && o.Refused? && o.kind != RecoveryRequired ==> tree == job.origin
      ensures FaultFree() && quiet && obliging && job.plan != [] ==> o == Verdict()
      ensures FaultFree() && quiet && obliging && o == Refused(RecoveryRequired) ==> MARKER in tree
    {
      var ok := Attempt(); // open the root directory
      if !ok { return Refused(UnsafeRoot); }
      if exists i :: 0 <= i < |job.plan| && job.plan[i].Path() == MUTATION_MARKER {
        return Refused(InvalidPlan);
      }
      OrderedDistinct(job.plan);
      ok := Attempt(); // allocate a transaction identifier
      if !ok { return Refused(PublicationFailed); }
      var s := CreateMarker();
      if s.Failed? { return Refused(s.kind); }
      o := Transact();
    }

    /** Everything after the marker is in place. */
    method Transact() returns (o: Outcome)
      requires Running() && prepared == [] && job.Confined(tree, 0) && AllOld()
      modifies this`tree, this`put, this`history, this`prepared, this`faults
      ensures old(faults) <= faults
      ensures Valid()
      ensures o.Receipt? ==> o.changedFiles == |job.plan| && MARKER !in tree && (quiet ==> job.Published(tree))
      ensures o.Receipt? ==> job.PutInPlace(put) && job.CarriedOut(history)
      ensures quiet && MARKER !in tree ==> tree == job.origin || job.Published(tree)
      ensures quiet && o.Refused? && o.kind in {InvalidPlan, PreconditionFailed, UnsupportedPlatform} ==>
                tree == job.origin
      ensures o.Receipt? ==> job.Supported(noReplace, exchange) && forall i :: 0 <= i < |job.plan| ==> job.GuardHolds(i)
      ensures FaultFree() && quiet && o.Refused? && o.kind != RecoveryRequired ==> tree == job.origin
      ensures FaultFree() && quiet && obliging ==> o == TransactionVerdict()
      ensures FaultFree() && quiet && obliging && o == Refused(RecoveryRequired) ==> MARKER in tree
    {
      var s := PrepareChanges();
      assert job.Tracked(tree);
      if s.Failed? {
        o := CleanupBeforePublication(s.kind);
        return;
      }
      forall i | 0 <= i < |job.plan| ensures job.GuardHolds(i) {
        assert job.Faithful(prepared[i], i);
      }
      s := RunPublication();
      if s.Failed? {
        o := RollbackOrReport(s.kind);
        return;
      }
      o := Commit();
    }

    /** `publish_change_plan`: validation, the empty plan, and the transaction. */
    method Publish() returns (o: Outcome)
      requires Valid() && tree == job.origin && put == map[] && prepared == [] && history == []
      requires job.NoOwn(job.origin)
      modifies this
      ensures old(faults) <= faults
      ensures Valid()
      ensures !ValidPlan(job.plan) ==> o == Refused(InvalidPlan) && history == []
      ensures job.plan == [] ==> o == Receipt(0) && history == []
      ensures MARKER in job.origin ==> history == [] && (job.plan != [] ==> o.Refused?)
      ensures o.Receipt? ==> o.changedFiles == |job.plan| && (job.plan != [] ==> MARKER !in tree)
      ensures o.Receipt? ==> job.PutInPlace(put) && job.CarriedOut(history)
      ensures quiet && o.Receipt? && job.plan != [] ==> job.Published(tree)
      ensures quiet && MARKER !in tree ==> tree == job.origin || job.Published(tree)
      ensures quiet && o.Refused? && o.kind in {InvalidPlan, PreconditionFailed, UnsupportedPlatform} ==>
                tree == job.origin
      ensures FaultFree() && quiet && o.Refused? && o.kind != RecoveryRequired ==> tree == job.origin
      ensures FaultFree() && quiet && obliging ==> o == Verdict()
      ensures FaultFree() && quiet && obliging && o == Refused(RecoveryRequired) ==> MARKER in tree
      ensures FaultFree() && quiet && obliging && job.plan != [] ==>
                (o.Receipt? <==> ValidPlan(job.plan) && job.Publishable(noReplace, exchange))
    {
      var error := Validate(job.plan);
      if error.Some? { return Refused(InvalidPlan); }
      if job.plan == [] { return Receipt(0); }
      ReceiptsAreForPublishablePlans();
      o := PublishWith();
    }
  }
}
