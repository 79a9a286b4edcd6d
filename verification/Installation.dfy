/** Component contributions: canonical owners, threaded edits and their composition. */
module Installation {
  import opened Content
  import opened ChangePlans
  import opened OrderedMaps
  import opened Composition
  import SourceOwnership
  import CompositionMeaning

  // ---- Canonical owners ----

  datatype Owner =
    | WorkspaceManifest
    | ApplicationManifest
    | Configuration
    | Server
    | Web
    | DomainShared
    | Domain
    | ApplicationContracts
    | Application
    | Infrastructure
    | Presentation

  /** The directory an owner stands for; the two manifests are single files. */
  function Root(owner: Owner): string {
    match owner
    case WorkspaceManifest => "Cargo.toml"
    case ApplicationManifest => "hegira.toml"
    case Configuration => "config"
    case Server => "apps/server"
    case Web => "apps/web"
    case DomainShared => "crates/domain_shared"
    case Domain => "crates/domain"
    case ApplicationContracts => "crates/application_contracts"
    case Application => "crates/application"
    case Infrastructure => "crates/infrastructure"
    case Presentation => "crates/presentation"
  }

  predicate Owns(owner: Owner, path: Path) {
    if owner.WorkspaceManifest? || owner.ApplicationManifest? then path == Root(owner)
    else SourceOwnership.Below(path, Root(owner))
  }

  /** Paths that differ inside both, a closing slash included, do not overlap. */
  lemma ApartAt(l: string, r: string, i: nat)
    requires i <= |l| && i <= |r| && (l + "/")[i] != (r + "/")[i]
    ensures !SourceOwnership.Overlap(l, r)
  {
    assert i < |l| ==> (l + "/")[i] == l[i];
    assert i < |r| ==> (r + "/")[i] == r[i];
    assert i == |l| ==> (l + "/")[i] == '/';
    assert i == |r| ==> (r + "/")[i] == '/';
  }

  predicate InCrates(owner: Owner) {
    owner.DomainShared? || owner.Domain? || owner.ApplicationContracts? || owner.Application? || owner.Infrastructure?
    || owner.Presentation?
  }

  lemma CratesAreApart(a: Owner, b: Owner)
    requires a != b && InCrates(a) && InCrates(b)
    ensures !SourceOwnership.Overlap(Root(a), Root(b))
  {
    var i :=
      if {a, b} == {DomainShared, Domain} then 13
      else if {a, b} == {ApplicationContracts, Application} then 18
      else 7;
    ApartAt(Root(a), Root(b), i);
  }

  lemma OthersAreApart(a: Owner, b: Owner)
    requires a != b && !InCrates(a)
    ensures !SourceOwnership.Overlap(Root(a), Root(b)) && !SourceOwnership.Overlap(Root(b), Root(a))
  {
    var i := if {a, b} == {Server, Web} then 5 else if a.Configuration? || b.Configuration? then 1 else 0;
    ApartAt(Root(a), Root(b), i);
    ApartAt(Root(b), Root(a), i);
  }

  lemma RootsAreApart(a: Owner, b: Owner)
    requires a != b
    ensures !SourceOwnership.Overlap(Root(a), Root(b))
  {
    if !InCrates(a) {
      OthersAreApart(a, b);
    } else if !InCrates(b) {
      OthersAreApart(b, a);
    } else {
      CratesAreApart(a, b);
    }
  }

  /** No path has two canonical owners. */
  lemma OneOwner(path: Path, a: Owner, b: Owner)
    requires Owns(a, path) && Owns(b, path)
    ensures a == b
  {
    if a != b {
      SourceOwnership.AncestorsOverlap(Root(a), Root(b), path);
      RootsAreApart(a, b);
    }
  }

  // ---- Contributions ----

  datatype Contribution =
    | Artifact(owner: Owner, creation: FileCreation)
    | Integration(owner: Owner, edit: StructuredFileEdit)
  {
    function Path(): Path {
      match this case Artifact(_, c) => c.path case Integration(_, e) => e.path
    }

    function ResultingContent(): Bytes {
      match this case Artifact(_, c) => c.content case Integration(_, e) => e.content
    }

    /** `into_parts` without the owner. */
    function Change(): PlannedFileChange {
      match this case Artifact(_, c) => Create(c) case Integration(_, e) => Edit(e)
    }

    /** What the constructors guarantee: the owner owns the path, and the digest is that of the result. */
    predicate Valid() {
      Owns(owner, Path()) && Change().DigestAgrees()
    }
  }

  datatype InstallationError = InvalidOwnership | ConflictingContribution
  datatype Outcome<+T> = Composed(value: T) | Rejected(error: InstallationError)

  type Contributions = map<Path, Contribution>

  function ChainContributions(previous: Contribution, next: Contribution): Outcome<Contribution> {
    if previous.owner != next.owner then Rejected(InvalidOwnership)
    else
      match (previous, next)
      case (Artifact(owner, creation), Integration(_, edit)) =>
        if edit.originalDigest == creation.resultDigest then
          Composed(Artifact(owner, creation.(content := edit.content, resultDigest := edit.resultDigest)))
        else Rejected(ConflictingContribution)
      case (Integration(owner, first), Integration(_, second)) =>
        if second.originalDigest == first.resultDigest then
          Composed(Integration(owner, first.(content := second.content, resultDigest := second.resultDigest)))
        else Rejected(ConflictingContribution)
      case (_, Artifact(_, _)) => Rejected(ConflictingContribution)
  }

  function AddContribution(m: Contributions, c: Contribution): Outcome<Contributions> {
    if c.Path() !in m then Composed(m[c.Path() := c])
    else
      match ChainContributions(m[c.Path()], c)
      case Rejected(e) => Rejected(e)
      case Composed(both) => Composed(m[c.Path() := both])
  }

  function Collapse(cs: seq<Contribution>): Outcome<Contributions> {
    if cs == [] then Composed(map[])
    else
      match Collapse(cs[..|cs| - 1])
      case Rejected(e) => Rejected(e)
      case Composed(m) => AddContribution(m, cs[|cs| - 1])
  }

  /** When two contributions to one path chain, and why not: their owners first, then their operations and digests. */
  lemma ChainExactly(previous: Contribution, next: Contribution)
    ensures ChainContributions(previous, next) == Rejected(InvalidOwnership) <==> previous.owner != next.owner
    ensures ChainContributions(previous, next).Composed? <==>
            && previous.owner == next.owner && next.Integration?
            && Some(next.edit.originalDigest) == previous.Change().ResultDigest()
    ensures ChainContributions(previous, next).Composed? ==>
              var both := ChainContributions(previous, next).value;
              && both.owner == next.owner && both.Path() == previous.Path()
              && both.Change().Precondition() == previous.Change().Precondition()
              && both.ResultingContent() == next.ResultingContent()
  {
  }

  /** Contribution `i` is the first that cannot follow the composed earlier ones of its path. */
  ghost predicate ClashesAt(cs: seq<Contribution>, i: nat, e: InstallationError)
    requires i < |cs|
  {
    && Collapse(cs[..i]).Composed? && cs[i].Path() in Collapse(cs[..i]).value
    && var previous := Collapse(cs[..i]).value[cs[i].Path()];
       e == if previous.owner != cs[i].owner then InvalidOwnership else ConflictingContribution
  }

  /** `compose_component_contributions`: one contribution per path, in path order. */
  method ComposeContributions(cs: seq<Contribution>) returns (r: Outcome<seq<Contribution>>)
    ensures match Collapse(cs)
            case Composed(m) => r == Composed(IntoValues(m))
            case Rejected(e) => r == Rejected(e)
    ensures r.Rejected? ==> exists i :: 0 <= i < |cs| && ClashesAt(cs, i, r.error)
  {
    var composed: Contributions := map[];
    for i := 0 to |cs|
      invariant Collapse(cs[..i]) == Composed(composed)
    {
      var c := cs[i];
      var path := c.Path();
      assert cs[..i + 1][..i] == cs[..i];
      ghost var whole := composed;
      if path !in composed {
        composed := composed[path := c];
      } else {
        var previous := composed[path];
        composed := composed - {path};
        match ChainContributions(previous, c) {
          case Rejected(e) =>
            RejectionIsFinal(cs, i + 1);
            ChainExactly(previous, c);
            assert ClashesAt(cs, i, e);
            return Rejected(e);
          case Composed(both) =>
            assert (whole - {path})[path := both] == whole[path := both];
            composed := composed[path := both];
        }
      }
    }
    assert cs[..|cs|] == cs;
    return Composed(IntoValues(composed));
  }

  lemma {:induction false} RejectionIsFinal(cs: seq<Contribution>, n: nat)
    requires n <= |cs| && Collapse(cs[..n]).Rejected?
    ensures Collapse(cs) == Collapse(cs[..n])
  {
    if n == |cs| {
      assert cs[..n] == cs;
    } else {
      assert cs[..|cs| - 1][..n] == cs[..n];
      RejectionIsFinal(cs[..|cs| - 1], n);
    }
  }

  // ---- Agreement with plan composition ----

  function Changes(cs: seq<Contribution>): (changes: seq<PlannedFileChange>)
    ensures |changes| == |cs| && forall i :: 0 <= i < |cs| ==> changes[i] == cs[i].Change()
  {
    seq(|cs|, i requires 0 <= i < |cs| => cs[i].Change())
  }

  function Erase(m: Contributions): ByPath {
    map p | p in m :: m[p].Change()
  }

  ghost predicate AllValid(cs: seq<Contribution>) {
    forall i :: 0 <= i < |cs| ==> cs[i].Valid()
  }

  ghost predicate Filed(m: Contributions) {
    forall p :: p in m ==> m[p].Path() == p && m[p].Valid()
  }

  /** Valid contributions to one path have one owner, so both compositions accept and agree, or both refuse. */
  lemma StepAgrees(m: Contributions, c: Contribution)
    requires Filed(m) && c.Valid()
    ensures AddContribution(m, c).Composed? <==> Add(Erase(m), c.Change()).Ok?
    ensures AddContribution(m, c).Composed? ==>
              && Filed(AddContribution(m, c).value)
              && Add(Erase(m), c.Change()) == Ok(Erase(AddContribution(m, c).value))
  {
    var p := c.Path();
    if p in m {
      OneOwner(p, m[p].owner, c.owner);
      var both := ChainContributions(m[p], c);
      if both.Composed? {
        assert Erase(m[p := both.value]) == Erase(m)[p := both.value.Change()];
      }
    } else {
      assert Erase(m[p := c]) == Erase(m)[p := c.Change()];
    }
  }

  /** Composing contributions agrees with composing their changes as plans, path for path. */
  lemma {:induction false} ContributionsAgreeWithPlans(cs: seq<Contribution>)
    requires AllValid(cs)
    ensures Collapse(cs).Composed? <==> AddAll(map[], Changes(cs)).Ok?
    ensures Collapse(cs).Composed? ==>
              Filed(Collapse(cs).value) && AddAll(map[], Changes(cs)) == Ok(Erase(Collapse(cs).value))
  {
    if cs == [] {
      assert Changes(cs) == [];
    } else {
      var init, last := cs[..|cs| - 1], cs[|cs| - 1];
      ContributionsAgreeWithPlans(init);
      assert Changes(cs)[..|cs| - 1] == Changes(init);
      if Collapse(init).Composed? {
        StepAgrees(Collapse(init).value, last);
      }
    }
  }

  /** Each contribution as a plan of its own. */
  function Plans(cs: seq<Contribution>): seq<seq<PlannedFileChange>> {
    seq(|cs|, i requires 0 <= i < |cs| => [cs[i].Change()])
  }

  lemma {:induction false} PlansFlatten(cs: seq<Contribution>)
    ensures Flatten(Plans(cs)) == Changes(cs)
  {
    if cs == [] {
      assert Plans(cs) == [] && Changes(cs) == [];
    } else {
      var init, last := cs[..|cs| - 1], cs[|cs| - 1];
      PlansFlatten(init);
      assert Plans(cs) == Plans(init) + [[last.Change()]];
      FlattenSnoc(Plans(init), [last.Change()]);
      assert Changes(cs) == Changes(init) + [last.Change()];
    }
  }

  lemma PlansAreValid(cs: seq<Contribution>)
    requires AllValid(cs)
    ensures AllPlansValid(Plans(cs))
  {
    forall i | 0 <= i < |cs| ensures ValidPlan(Plans(cs)[i]) {
      assert cs[i].Valid();
    }
  }

  lemma {:induction false} IntoValuesErase(m: Contributions)
    ensures Changes(IntoValues(m)) == IntoValues(Erase(m))
  {
    if m == map[] {
      assert Erase(m) == map[];
    } else {
      assert Erase(m).Keys == m.Keys;
      var k := LeastKey(m.Keys);
      IntoValuesErase(m - {k});
      assert Erase(m) - {k} == Erase(m - {k});
      assert Changes([m[k]] + IntoValues(m - {k})) == [m[k].Change()] + Changes(IntoValues(m - {k}));
    }
  }

  /** The two compositions, run side by side: both succeed with the same changes in the same order, or both refuse. */
  method ComposeBothWays(cs: seq<Contribution>)
    returns (contributions: Outcome<seq<Contribution>>, plan: Composition.Result<seq<PlannedFileChange>>)
    requires AllValid(cs)
    ensures contributions.Composed? <==> plan.Ok?
    ensures plan.Ok? ==> plan.value == Changes(contributions.value)
  {
    contributions := ComposeContributions(cs);
    plan := Compose(Plans(cs));
    PlansFlatten(cs);
    PlansAreValid(cs);
    ContributionsAgreeWithPlans(cs);
    if Collapse(cs).Composed? {
      IntoValuesErase(Collapse(cs).value);
    }
  }

  // ---- The sources an installation edits ----

  /** What an edit planner answers: a new content for a path under its owner, or nothing to do. */
  datatype EditOutcome = Planned(contribution: Contribution) | AlreadyPresent

  type Sources = map<Path, Bytes>

  /** An outcome planned against the current bytes of the path, as `SourceSet::get` gives them. */
  predicate PlannedAgainst(values: Sources, path: Path, outcome: EditOutcome) {
    path in values &&
    match outcome
    case AlreadyPresent => true
    case Planned(c) =>
      c.Integration? && c.Valid() && c.Path() == path && c.edit.originalDigest == Calculate(values[path])
  }

  /** The sources once these edits are accepted one after another. */
  function Edited(loaded: Sources, cs: seq<Contribution>): Sources {
    if cs == [] then loaded
    else Edited(loaded, cs[..|cs| - 1])[cs[|cs| - 1].Path() := cs[|cs| - 1].ResultingContent()]
  }

  /** Each edit was planned against the sources as the earlier ones left them. */
  ghost predicate PlannedInTurn(loaded: Sources, cs: seq<Contribution>) {
    cs == [] ||
    var (init, last) := (cs[..|cs| - 1], cs[|cs| - 1]);
    PlannedInTurn(loaded, init) && PlannedAgainst(Edited(loaded, init), last.Path(), Planned(last))
  }

  class SourceSet {
    var values: Sources
    var contributions: seq<Contribution>
    ghost const loaded: Sources

    /** Every contribution so far was planned against the sources at its time. */
    ghost predicate Valid()
      reads this
    {
      PlannedInTurn(loaded, contributions) && values == Edited(loaded, contributions)
    }

    constructor (values: Sources)
      ensures Valid() && this.values == values && loaded == values && contributions == []
    {
      this.values, this.loaded, contributions := values, values, [];
    }

    /** `get`: the content of the composed edit of the path, or what was loaded if no edit touched it. */
    method Read(path: Path) returns (bytes: Bytes)
      requires Valid() && path in loaded
      ensures Collapse(contributions).Composed?
      ensures var m := Collapse(contributions).value;
              if path in m then m[path].Integration? && bytes == m[path].edit.content else bytes == loaded[path]
    {
      EditsAreThreaded(loaded, contributions);
      assert ThreadedAt(loaded, values, Collapse(contributions).value, path);
      bytes := values[path];
    }

    /** `accept`: remember the new bytes and the contribution. */
    method Accept(path: Path, outcome: EditOutcome)
      requires Valid() && PlannedAgainst(values, path, outcome)
      modifies this
      ensures Valid()
      ensures outcome.AlreadyPresent? ==> values == old(values) && contributions == old(contributions)
      ensures outcome.Planned? ==>
                && values == old(values)[path := outcome.contribution.ResultingContent()]
                && contributions == old(contributions) + [outcome.contribution]
    {
      if outcome.Planned? {
        ghost var longer := contributions + [outcome.contribution];
        assert longer[..|contributions|] == contributions;
        values := values[path := outcome.contribution.ResultingContent()];
        contributions := contributions + [outcome.contribution];
      }
    }
  }

  /**
   * The contributions compose to one edit per touched path, guarded by the digest of the loaded bytes and carrying
   * the current ones; untouched paths still hold what was loaded.
   */
  ghost predicate Threaded(loaded: Sources, values: Sources, cs: seq<Contribution>) {
    Collapse(cs).Composed? && ThreadedMap(loaded, values, Collapse(cs).value)
  }

  ghost predicate ThreadedMap(loaded: Sources, values: Sources, m: Contributions) {
    forall p :: ThreadedAt(loaded, values, m, p)
  }

  ghost predicate ThreadedAt(loaded: Sources, values: Sources, m: Contributions, p: Path) {
    if p in m then
      && p in loaded && p in values && m[p].Integration? && m[p].Path() == p && Owns(m[p].owner, p)
      && m[p].edit == StructuredFileEdit(p, Calculate(loaded[p]), values[p], Calculate(values[p]))
    else Get(values, p) == Get(loaded, p)
  }

  /** For every sequence of accepted edits, composition succeeds and is threaded. */
  lemma {:induction false} EditsAreThreaded(loaded: Sources, cs: seq<Contribution>)
    requires PlannedInTurn(loaded, cs)
    ensures Threaded(loaded, Edited(loaded, cs), cs)
  {
    if cs != [] {
      var init, last := cs[..|cs| - 1], cs[|cs| - 1];
      EditsAreThreaded(loaded, init);
      ThreadedStep(loaded, Edited(loaded, init), Collapse(init).value, last);
    }
  }

  lemma {:induction false} EditsAreValid(loaded: Sources, cs: seq<Contribution>)
    requires PlannedInTurn(loaded, cs)
    ensures AllValid(cs)
  {
    if cs != [] {
      EditsAreValid(loaded, cs[..|cs| - 1]);
      assert forall i :: 0 <= i < |cs| - 1 ==> cs[i] == cs[..|cs| - 1][i];
    }
  }

  lemma ThreadedStep(loaded: Sources, values: Sources, m: Contributions, c: Contribution)
    requires PlannedAgainst(values, c.Path(), Planned(c)) && ThreadedMap(loaded, values, m)
    ensures AddContribution(m, c).Composed?
    ensures ThreadedMap(loaded, values[c.Path() := c.ResultingContent()], AddContribution(m, c).value)
  {
    var path := c.Path();
    assert ThreadedAt(loaded, values, m, path);
    if path in m {
      OneOwner(path, m[path].owner, c.owner);
    }
    var values', m' := values[path := c.ResultingContent()], AddContribution(m, c).value;
    forall p ensures ThreadedAt(loaded, values', m', p) {
      assert ThreadedAt(loaded, values, m, p);
    }
  }

  /**
   * For every sequence of accepted edits, composition succeeds with one edit per touched path, guarded by the digest
   * of the loaded bytes and carrying the current ones; composing the edits as plans gives the same plan, and running
   * it on the loaded files gives the current ones.
   */
  lemma ThreadedInstallationComposes(loaded: Sources, cs: seq<Contribution>)
    requires PlannedInTurn(loaded, cs)
    ensures Threaded(loaded, Edited(loaded, cs), cs)
    ensures AllPlansValid(Plans(cs)) && AddAll(map[], Flatten(Plans(cs))) == Ok(Erase(Collapse(cs).value))
    ensures CompositionMeaning.Run(IntoValues(Erase(Collapse(cs).value)), loaded) == Some(Edited(loaded, cs))
  {
    EditsAreThreaded(loaded, cs);
    EditsAreValid(loaded, cs);
    PlansFlatten(cs);
    PlansAreValid(cs);
    ContributionsAgreeWithPlans(cs);
    ThreadedRuns(loaded, Edited(loaded, cs), Collapse(cs).value);
  }

  lemma ThreadedRuns(loaded: Sources, values: Sources, contributions: Contributions)
    requires ThreadedMap(loaded, values, contributions)
    ensures CompositionMeaning.Run(IntoValues(Erase(contributions)), loaded) == Some(values)
  {
    var m := Erase(contributions);
    forall p | p in m
      ensures m[p].Path() == p && m[p].DigestAgrees() && CompositionMeaning.Holds(m[p].Precondition(), Get(loaded, p))
    {
      assert ThreadedAt(loaded, values, contributions, p);
    }
    IntoValuesLists(m);
    CompositionMeaning.IntoValuesRoundTrip(m);
    CompositionMeaning.InOrderMeaning(IntoValues(m), loaded);
    var after := CompositionMeaning.Run(IntoValues(m), loaded).value;
    forall p ensures Get(after, p) == Get(values, p) {
      assert Get(after, p) == CompositionMeaning.ResultAt(m, loaded, p);
      assert ThreadedAt(loaded, values, contributions, p);
    }
    CompositionMeaning.SameFiles(after, values);
  }
}
