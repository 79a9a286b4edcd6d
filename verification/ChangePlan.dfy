/** Typed change plans: creations, edits and retirements guarded by digests. */
module ChangePlans {
  import opened Content
  import opened TextOrder

  type Path = string

  datatype FileCreation = FileCreation(path: Path, content: Bytes, resultDigest: ContentDigest)
  datatype StructuredFileEdit =
    StructuredFileEdit(path: Path, originalDigest: ContentDigest, content: Bytes, resultDigest: ContentDigest)
  datatype ManagedFileRetirement =
    ManagedFileRetirement(path: Path, originalDigest: ContentDigest, integration: string)

  datatype FilePrecondition = Absent | MatchesDigest(digest: ContentDigest)

  datatype ChangeOperation = Creation | Revision | Retirement

  datatype PlannedFileChange =
    | Create(creation: FileCreation)
    | Edit(edit: StructuredFileEdit)
    | Retire(retirement: ManagedFileRetirement)
  {
    function Path(): Path {
      match this
      case Create(c) => c.path
      case Edit(e) => e.path
      case Retire(r) => r.path
    }

    function Operation(): ChangeOperation {
      match this
      case Create(_) => Creation
      case Edit(_) => Revision
      case Retire(_) => Retirement
    }

    function Precondition(): FilePrecondition {
      match this
      case Create(_) => Absent
      case Edit(e) => MatchesDigest(e.originalDigest)
      case Retire(r) => MatchesDigest(r.originalDigest)
    }

    function ResultingContent(): Option<Bytes> {
      match this
      case Create(c) => Some(c.content)
      case Edit(e) => Some(e.content)
      case Retire(_) => None
    }

    function ResultDigest(): Option<ContentDigest> {
      match this
      case Create(c) => Some(c.resultDigest)
      case Edit(e) => Some(e.resultDigest)
      case Retire(_) => None
    }

    function ResultPrecondition(): FilePrecondition {
      match ResultDigest()
      case Some(digest) => MatchesDigest(digest)
      case None => Absent
    }

    /** The recorded result digest is the digest of the recorded result. */
    predicate DigestAgrees() {
      !Retire? ==> Calculate(ResultingContent().value) == ResultDigest().value
    }
  }

  datatype ChangePlanError = DuplicatePath | ConflictingOperations | NonDeterministicOrder | InvalidDigest

  /** Paths strictly ascend. */
  predicate Ordered(changes: seq<PlannedFileChange>) {
    forall i :: 0 < i < |changes| ==> Less(changes[i - 1].Path(), changes[i].Path())
  }

  /** What `ChangePlan::validate` accepts. */
  predicate ValidPlan(changes: seq<PlannedFileChange>) {
    Ordered(changes) && forall i :: 0 <= i < |changes| ==> changes[i].DigestAgrees()
  }

  /** What is wrong with change `i` beside the ones before it; the order is looked at first. */
  function FaultAt(changes: seq<PlannedFileChange>, i: nat): Option<ChangePlanError>
    requires i < |changes|
  {
    if 0 < i && !Less(changes[i - 1].Path(), changes[i].Path()) then Some(NonDeterministicOrder)
    else if !changes[i].DigestAgrees() then Some(InvalidDigest)
    else None
  }

  /** The error of the first faulty change. */
  ghost predicate FirstFault(changes: seq<PlannedFileChange>, e: ChangePlanError) {
    exists i :: 0 <= i < |changes| && ValidPlan(changes[..i]) && FaultAt(changes, i) == Some(e)
  }

  /** The whole-plan check that every plan passes before it is composed or published. */
  method Validate(changes: seq<PlannedFileChange>) returns (error: Option<ChangePlanError>)
    ensures error.None? <==> ValidPlan(changes)
    ensures error.Some? ==> FirstFault(changes, error.value)
  {
    var previous: Option<Path> := None;
    for i := 0 to |changes|
      invariant previous == if i == 0 then None else Some(changes[i - 1].Path())
      invariant ValidPlan(changes[..i])
    {
      assert changes[..i + 1] == changes[..i] + [changes[i]];
      if previous.Some? && !Less(previous.value, changes[i].Path()) {
        assert FaultAt(changes, i) == Some(NonDeterministicOrder);
        return Some(NonDeterministicOrder);
      }
      if !changes[i].DigestAgrees() {
        assert FaultAt(changes, i) == Some(InvalidDigest);
        return Some(InvalidDigest);
      }
      previous := Some(changes[i].Path());
    }
    assert changes[..|changes|] == changes;
    return None;
  }

  /** The first fault is one, so the error is determined. */
  lemma FirstFaultIsUnique(changes: seq<PlannedFileChange>, a: ChangePlanError, b: ChangePlanError)
    requires FirstFault(changes, a) && FirstFault(changes, b)
    ensures a == b
  {
    var i :| 0 <= i < |changes| && ValidPlan(changes[..i]) && FaultAt(changes, i) == Some(a);
    var j :| 0 <= j < |changes| && ValidPlan(changes[..j]) && FaultAt(changes, j) == Some(b);
    if i < j {
      ValidPrefixHasNoFault(changes, i, j);
    } else if j < i {
      ValidPrefixHasNoFault(changes, j, i);
    }
  }

  lemma ValidPrefixHasNoFault(changes: seq<PlannedFileChange>, i: nat, j: nat)
    requires i < j <= |changes| && ValidPlan(changes[..j])
    ensures FaultAt(changes, i) == None
  {
    assert changes[..j][i] == changes[i];
    assert 0 < i ==> changes[..j][i - 1] == changes[i - 1];
  }

  lemma {:induction false} OrderedPairs(changes: seq<PlannedFileChange>, i: nat, j: nat)
    requires Ordered(changes) && i < j < |changes|
    ensures Less(changes[i].Path(), changes[j].Path())
  {
    if i + 1 < j {
      OrderedPairs(changes, i, j - 1);
      LessTransitive(changes[i].Path(), changes[j - 1].Path(), changes[j].Path());
    }
  }

  /** A valid plan names every path at most once. */
  lemma OrderedDistinct(changes: seq<PlannedFileChange>)
    requires Ordered(changes)
    ensures forall i, j :: 0 <= i < j < |changes| ==> changes[i].Path() != changes[j].Path()
  {
    forall i, j | 0 <= i < j < |changes| ensures changes[i].Path() != changes[j].Path() {
      OrderedPairs(changes, i, j);
      LessIrreflexive(changes[i].Path());
    }
  }
}
