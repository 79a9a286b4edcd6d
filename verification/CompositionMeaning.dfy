/** Composition preserves meaning, and grouping does not matter. */
module CompositionMeaning {
  import opened Content
  import opened ChangePlans
  import opened OrderedMaps
  import opened Composition

  // ---- What running changes in order does to a tree of file contents ----

  type Files = map<Path, Bytes>

  predicate Holds(precondition: FilePrecondition, content: Option<Bytes>) {
    match precondition
    case Absent => content.None?
    case MatchesDigest(digest) => content.Some? && Calculate(content.value) == digest
  }

  function Put(files: Files, path: Path, content: Option<Bytes>): Files {
    match content
    case None => files - {path}
    case Some(bytes) => files[path := bytes]
  }

  /** Each change in turn, refused as soon as one guard fails. */
  function Run(changes: seq<PlannedFileChange>, files: Files): Option<Files> {
    if changes == [] then Some(files)
    else
      var last := changes[|changes| - 1];
      match Run(changes[..|changes| - 1], files)
      case None => None
      case Some(now) =>
        if Holds(last.Precondition(), Get(now, last.Path())) then Some(Put(now, last.Path(), last.ResultingContent()))
        else None
  }

  /** Plans in order, each one only after the previous one succeeded. */
  function RunPlans(plans: seq<seq<PlannedFileChange>>, files: Files): Option<Files> {
    if plans == [] then Some(files)
    else
      match RunPlans(plans[..|plans| - 1], files)
      case None => None
      case Some(now) => Run(plans[|plans| - 1], now)
  }

  lemma {:induction false} RunAppend(a: seq<PlannedFileChange>, b: seq<PlannedFileChange>, files: Files)
    ensures Run(a + b, files) == match Run(a, files) case None => None case Some(now) => Run(b, now)
  {
    if b == [] {
      assert a + b == a;
    } else {
      assert (a + b)[..|a + b| - 1] == a + b[..|b| - 1];
      RunAppend(a, b[..|b| - 1], files);
    }
  }

  lemma {:induction false} RunPlansFlattens(plans: seq<seq<PlannedFileChange>>, files: Files)
    ensures RunPlans(plans, files) == Run(Flatten(plans), files)
  {
    if plans != [] {
      RunPlansFlattens(plans[..|plans| - 1], files);
      RunAppend(Flatten(plans[..|plans| - 1]), plans[|plans| - 1], files);
    }
  }

  // ---- What a composed map does, path by path ----

  ghost predicate GuardsHold(m: ByPath, files: Files) {
    forall p :: p in m ==> Holds(m[p].Precondition(), Get(files, p))
  }

  function ResultAt(m: ByPath, files: Files, p: Path): Option<Bytes> {
    if p in m then m[p].ResultingContent() else Get(files, p)
  }

  ghost predicate Results(m: ByPath, files: Files, after: Files) {
    forall p :: Get(after, p) == ResultAt(m, files, p)
  }

  lemma SameFiles(a: Files, b: Files)
    requires forall p :: Get(a, p) == Get(b, p)
    ensures a == b
  {
    assert forall p :: p in a <==> Get(a, p).Some?;
    assert forall p :: p in b <==> Get(b, p).Some?;
    assert forall p :: p in a ==> Get(a, p) == Some(a[p]);
    assert forall p :: p in b ==> Get(b, p) == Some(b[p]);
  }

  /** The paths at which composition lets a creation and its retirement cancel out. */
  function Cancelled(changes: seq<PlannedFileChange>): set<Path> {
    if changes == [] then {}
    else
      var last := changes[|changes| - 1];
      var earlier := Cancelled(changes[..|changes| - 1]);
      match AddAll(map[], changes[..|changes| - 1])
      case Err(_) => earlier
      case Ok(m) =>
        if last.Path() in m && Chain(m[last.Path()], last) == Ok(None) then earlier + {last.Path()} else earlier
  }

  ghost predicate Sealed(changes: seq<PlannedFileChange>) {
    forall i :: 0 <= i < |changes| ==> changes[i].DigestAgrees()
  }

  /** The composed map can be run on the tree, and no cancelled path was there to begin with. */
  ghost predicate Composable(changes: seq<PlannedFileChange>, files: Files) {
    && AddAll(map[], changes).Ok?
    && GuardsHold(AddAll(map[], changes).value, files)
    && Cancelled(changes) !! files.Keys
  }

  /** One more change succeeds in order exactly when it can be added to the composed map. */
  lemma StepMeaning(m: ByPath, last: PlannedFileChange, files: Files, now: Files)
    requires Filed(m) && last.DigestAgrees() && GuardsHold(m, files) && Results(m, files, now)
    ensures Holds(last.Precondition(), Get(now, last.Path())) <==>
            (Add(m, last).Ok? && GuardsHold(Add(m, last).value, files))
    ensures Add(m, last).Ok? && GuardsHold(Add(m, last).value, files) ==>
              Results(Add(m, last).value, files, Put(now, last.Path(), last.ResultingContent()))
  {
    var p := last.Path();
    assert Get(now, p) == ResultAt(m, files, p);
    if p in m {
      ChainMeets(m[p], last);
    }
    if Add(m, last).Ok? {
      var m' := Add(m, last).value;
      var after := Put(now, p, last.ResultingContent());
      forall q ensures q != p ==> Get(after, q) == ResultAt(m', files, q) {
        assert Get(now, q) == ResultAt(m, files, q);
      }
    }
  }

  lemma {:induction false} InOrderMeaning(changes: seq<PlannedFileChange>, files: Files)
    requires Sealed(changes)
    ensures Run(changes, files).Some? <==> Composable(changes, files)
    ensures Run(changes, files).Some? ==> Results(AddAll(map[], changes).value, files, Run(changes, files).value)
  {
    if changes != [] {
      var (init, last) := (changes[..|changes| - 1], changes[|changes| - 1]);
      InOrderMeaning(init, files);
      AddAllFiled(map[], init);
      if Run(init, files).Some? {
        StepMeaning(AddAll(map[], init).value, last, files, Run(init, files).value);
        var m := AddAll(map[], init).value;
        assert last.Path() in m ==> Holds(m[last.Path()].Precondition(), Get(files, last.Path()));
      } else if Composable(changes, files) {
        var m, m' := AddAll(map[], init).value, AddAll(map[], changes).value;
        forall q | q in m ensures Holds(m[q].Precondition(), Get(files, q)) {
          if q == last.Path() {
            ChainMeets(m[q], last);
          } else {
            assert q in m' && m'[q] == m[q];
          }
        }
        assert false;
      }
    }
  }

  /** When the changes can be run, their results determine the tree. */
  lemma RunIsDetermined(changes: seq<PlannedFileChange>, files: Files, after: Files)
    requires Sealed(changes) && Composable(changes, files) && Results(AddAll(map[], changes).value, files, after)
    ensures Run(changes, files) == Some(after)
  {
    InOrderMeaning(changes, files);
    var run, m := Run(changes, files).value, AddAll(map[], changes).value;
    forall p ensures Get(run, p) == Get(after, p) {
      assert Get(run, p) == ResultAt(m, files, p) && Get(after, p) == ResultAt(m, files, p);
    }
    SameFiles(run, after);
  }

  /** A plan lists each path once, so adding it to nothing files its own changes. */
  lemma {:induction false} AddPlanToNothing(plan: seq<PlannedFileChange>)
    requires Ordered(plan)
    ensures AddAll(map[], plan).Ok? && Lists(plan, AddAll(map[], plan).value) && Cancelled(plan) == {}
  {
    if plan != [] {
      var init, last := plan[..|plan| - 1], plan[|plan| - 1];
      AddPlanToNothing(init);
      OrderedDistinct(plan);
      var m := AddAll(map[], init).value;
      if last.Path() in m {
        var i :| 0 <= i < |init| && init[i] == m[last.Path()];
        assert Get(m, init[i].Path()) == Some(init[i]);
        FiledUnderOwnPath(init, last.Path());
        assert false;
      }
      var m' := m[last.Path() := last];
      forall i | 0 <= i < |plan| ensures Get(m', plan[i].Path()) == Some(plan[i]) {
        if i < |init| {
          assert init[i] == plan[i] && Get(m, init[i].Path()) == Some(init[i]);
        }
      }
      forall p | p in m' ensures m'[p] in plan {
        if p != last.Path() {
          assert m[p] in init;
        }
      }
    }
  }

  lemma {:induction false} FiledUnderOwnPath(changes: seq<PlannedFileChange>, p: Path)
    requires AddAll(map[], changes).Ok? && p in AddAll(map[], changes).value
    ensures AddAll(map[], changes).value[p].Path() == p
  {
    if changes != [] {
      var init, last := changes[..|changes| - 1], changes[|changes| - 1];
      var m := AddAll(map[], init).value;
      if p in m {
        FiledUnderOwnPath(init, p);
      }
    }
  }

  lemma ListsDetermines(plan: seq<PlannedFileChange>, a: ByPath, b: ByPath)
    requires Lists(plan, a) && (forall p :: p in a ==> a[p].Path() == p)
    requires Lists(plan, b) && (forall p :: p in b ==> b[p].Path() == p)
    ensures a == b
  {
    forall p | p in a ensures p in b && b[p] == a[p] {
      var i :| 0 <= i < |plan| && plan[i] == a[p];
      assert Get(b, plan[i].Path()) == Some(plan[i]);
    }
    forall p | p in b ensures p in a {
      var i :| 0 <= i < |plan| && plan[i] == b[p];
      assert Get(a, plan[i].Path()) == Some(plan[i]);
    }
  }

  /** Composing the values of a map gives the map back. */
  lemma IntoValuesRoundTrip(m: ByPath)
    requires Filed(m)
    ensures AddAll(map[], IntoValues(m)) == Ok(m) && Cancelled(IntoValues(m)) == {}
  {
    IntoValuesLists(m);
    AddPlanToNothing(IntoValues(m));
    AddAllFiled(map[], IntoValues(m));
    ListsDetermines(IntoValues(m), m, AddAll(map[], IntoValues(m)).value);
  }

  /**
   * Composition preserves meaning, exactly: running valid plans in order succeeds with some tree if and only if
   * composition succeeds, its result runs to that same tree, and no path whose creation was cancelled by a later
   * retirement existed beforehand.
   */
  lemma CompositionPreservesMeaning(plans: seq<seq<PlannedFileChange>>, files: Files, after: Files)
    requires forall i :: 0 <= i < |plans| ==> ValidPlan(plans[i])
    ensures RunPlans(plans, files) == Some(after) <==>
            && AddAll(map[], Flatten(plans)).Ok?
            && Run(IntoValues(AddAll(map[], Flatten(plans)).value), files) == Some(after)
            && Cancelled(Flatten(plans)) !! files.Keys
  {
    var changes := Flatten(plans);
    FlattenSealed(plans);
    RunPlansFlattens(plans, files);
    InOrderMeaning(changes, files);
    AddAllFiled(map[], changes);
    if AddAll(map[], changes).Ok? {
      var m := AddAll(map[], changes).value;
      IntoValuesLists(m);
      IntoValuesRoundTrip(m);
      InOrderMeaning(IntoValues(m), files);
      if Run(changes, files).Some? && Run(IntoValues(m), files).Some? {
        forall p ensures Get(Run(changes, files).value, p) == Get(Run(IntoValues(m), files).value, p) {
          assert Get(Run(changes, files).value, p) == ResultAt(m, files, p);
          assert Get(Run(IntoValues(m), files).value, p) == ResultAt(m, files, p);
        }
        SameFiles(Run(changes, files).value, Run(IntoValues(m), files).value);
      }
    }
  }

  lemma {:induction false} FlattenSealed(plans: seq<seq<PlannedFileChange>>)
    requires forall i :: 0 <= i < |plans| ==> ValidPlan(plans[i])
    ensures Sealed(Flatten(plans))
  {
    if plans != [] {
      FlattenSealed(plans[..|plans| - 1]);
    }
  }

  /** Why the cancelled paths matter: the composed plan is empty and runs on a tree the plans refuse. */
  lemma CancellationForgetsItsGuard(path: Path, integration: string, content: Bytes, files: Files)
    requires path in files
    ensures
      var create := Create(FileCreation(path, content, Calculate(content)));
      var retire := Retire(ManagedFileRetirement(path, Calculate(content), integration));
      && ValidPlan([create]) && ValidPlan([retire])
      && AddAll(map[], Flatten([[create], [retire]])) == Ok(map[])
      && Run(IntoValues(map[]), files) == Some(files)
      && RunPlans([[create], [retire]], files) == None
  {
    var create := Create(FileCreation(path, content, Calculate(content)));
    var retire := Retire(ManagedFileRetirement(path, Calculate(content), integration));
    var plans := [[create], [retire]];
    assert plans[..1] == [[create]] && [[create]][..0] == [];
    assert Flatten([[create]]) == [create];
    assert Flatten(plans) == [create, retire];
    assert [create, retire][..1] == [create];
    assert AddAll(map[], [create]) == Ok(map[path := create]);
    assert map[path := create] - {path} == map[];
    assert RunPlans([[create]], files) == Run([create], files) == None;
  }

  // ---- Grouping ----

  /** Chaining with a path that one side may not touch. */
  function Join(x: Option<PlannedFileChange>, y: Option<PlannedFileChange>): Result<Option<PlannedFileChange>> {
    match (x, y)
    case (None, _) => Ok(y)
    case (_, None) => Ok(x)
    case (Some(a), Some(b)) => Chain(a, b)
  }

  /** The same operation, guard and result; retirements may differ in the integration they name. */
  predicate Similar(x: Option<PlannedFileChange>, y: Option<PlannedFileChange>) {
    match (x, y)
    case (None, None) => true
    case (Some(Create(a)), Some(Create(b))) => a == b
    case (Some(Edit(a)), Some(Edit(b))) => a == b
    case (Some(Retire(a)), Some(Retire(b))) => a == b.(integration := a.integration)
    case _ => false
  }

  ghost predicate At(x: Option<PlannedFileChange>, p: Path) {
    x.Some? ==> x.value.Path() == p && x.value.DigestAgrees()
  }

  lemma JoinAssociates(p: Path, a: Option<PlannedFileChange>, b: Option<PlannedFileChange>,
                       c: Option<PlannedFileChange>)
    requires At(a, p) && At(b, p) && At(c, p)
    requires Join(a, b).Ok? && Join(Join(a, b).value, c).Ok?
    requires Join(b, c).Ok? && Join(a, Join(b, c).value).Ok?
    ensures Similar(Join(Join(a, b).value, c).value, Join(a, Join(b, c).value).value)
  {
  }

  /** The entries of a plan without its last change. */
  lemma ListsInit(plan: seq<PlannedFileChange>, own: ByPath)
    requires plan != [] && Ordered(plan) && Lists(plan, own) && Filed(own)
    ensures var (init, last) := (plan[..|plan| - 1], plan[|plan| - 1]);
            Lists(init, own - {last.Path()}) && Get(own, last.Path()) == Some(last)
  {
    var init, last := plan[..|plan| - 1], plan[|plan| - 1];
    var rest := own - {last.Path()};
    OrderedDistinct(plan);
    forall i | 0 <= i < |init| ensures Get(rest, init[i].Path()) == Some(init[i]) {
      assert init[i] == plan[i] && Get(own, plan[i].Path()) == Some(plan[i]);
    }
    forall q | q in rest ensures rest[q] in init {
      var i :| 0 <= i < |plan| && plan[i] == own[q];
      assert i < |init| ==> init[i] == plan[i];
    }
  }

  /** Adding one change acts on its path by chaining and leaves the others alone. */
  lemma AddPathwise(m: ByPath, last: PlannedFileChange, p: Path)
    requires Filed(m) && Add(m, last).Ok?
    ensures Join(Get(m, p), if p == last.Path() then Some(last) else None) == Ok(Get(Add(m, last).value, p))
  {
  }

  /** Adding a plan acts on each path by itself. */
  lemma {:induction false} AddPlanPathwise(m: ByPath, plan: seq<PlannedFileChange>, own: ByPath, p: Path)
    requires Filed(m) && ValidPlan(plan) && Lists(plan, own) && Filed(own) && AddAll(m, plan).Ok?
    ensures Join(Get(m, p), Get(own, p)) == Ok(Get(AddAll(m, plan).value, p))
  {
    if plan == [] {
      assert p !in own;
    } else {
      var init, last := plan[..|plan| - 1], plan[|plan| - 1];
      ListsInit(plan, own);
      AddAllFiled(m, init);
      AddPlanPathwise(m, init, own - {last.Path()}, p);
      AddPathwise(AddAll(m, init).value, last, p);
    }
  }

  /** The composed map of a sequence of plans, when composition accepts them. */
  function ComposedMap(plans: seq<seq<PlannedFileChange>>): Result<ByPath> {
    AddAll(map[], Flatten(plans))
  }

  /** The changes of a valid plan, by path. */
  function Entries(plan: seq<PlannedFileChange>): ByPath
    requires ValidPlan(plan)
  {
    AddPlanToNothing(plan);
    AddAll(map[], plan).value
  }

  lemma PairPathwise(x: seq<PlannedFileChange>, y: seq<PlannedFileChange>, p: Path)
    requires ValidPlan(x) && ValidPlan(y) && ComposedMap([x, y]).Ok?
    ensures Filed(Entries(x)) && Filed(Entries(y)) && Filed(ComposedMap([x, y]).value)
    ensures Join(Get(Entries(x), p), Get(Entries(y), p)) == Ok(Get(ComposedMap([x, y]).value, p))
  {
    assert [x, y][..1] == [x] && [x][..0] == [];
    assert Flatten([x]) == x;
    assert Flatten([x, y]) == x + y;
    AddPlanToNothing(x);
    AddPlanToNothing(y);
    AddAllFiled(map[], x);
    AddAllFiled(map[], y);
    AddAllAppend(map[], x, y);
    AddAllFiled(Entries(x), y);
    AddPlanPathwise(Entries(x), y, Entries(y), p);
  }

  /** What `Compose` returns for plans it accepts. */
  function Composed(plans: seq<seq<PlannedFileChange>>): seq<PlannedFileChange>
    requires ComposedMap(plans).Ok?
  {
    IntoValues(ComposedMap(plans).value)
  }

  lemma ComposedIsValid(x: seq<PlannedFileChange>, y: seq<PlannedFileChange>)
    requires ValidPlan(x) && ValidPlan(y) && ComposedMap([x, y]).Ok?
    ensures ValidPlan(Composed([x, y])) && Entries(Composed([x, y])) == ComposedMap([x, y]).value
  {
    PairPathwise(x, y, "");
    IntoValuesLists(ComposedMap([x, y]).value);
    IntoValuesRoundTrip(ComposedMap([x, y]).value);
  }

  /**
   * Grouping does not matter: when both groupings of three valid plans compose, they touch the same paths with the
   * same operations, guards and results, up to the integration named by a retirement.
   */
  lemma GroupingDoesNotMatter(a: seq<PlannedFileChange>, b: seq<PlannedFileChange>, c: seq<PlannedFileChange>)
    requires ValidPlan(a) && ValidPlan(b) && ValidPlan(c)
    requires ComposedMap([a, b]).Ok? && ComposedMap([Composed([a, b]), c]).Ok?
    requires ComposedMap([b, c]).Ok? && ComposedMap([a, Composed([b, c])]).Ok?
    ensures var left, right := ComposedMap([Composed([a, b]), c]).value, ComposedMap([a, Composed([b, c])]).value;
            forall p :: Similar(Get(left, p), Get(right, p))
  {
    ComposedIsValid(a, b);
    ComposedIsValid(b, c);
    var left, right := ComposedMap([Composed([a, b]), c]).value, ComposedMap([a, Composed([b, c])]).value;
    forall p ensures Similar(Get(left, p), Get(right, p)) {
      PairPathwise(a, b, p);
      PairPathwise(b, c, p);
      PairPathwise(Composed([a, b]), c, p);
      PairPathwise(a, Composed([b, c]), p);
      JoinAssociates(p, Get(Entries(a), p), Get(Entries(b), p), Get(Entries(c), p));
    }
  }
}
