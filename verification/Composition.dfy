/** `ChangePlan::new` and `ChangePlan::compose`: ordered plans collapsed into one. */
module Composition {
  import opened Content
  import opened TextOrder
  import opened OrderedMaps
  import opened ChangePlans

  datatype Result<+T> = Ok(value: T) | Err(error: ChangePlanError)

  type ByPath = map<Path, PlannedFileChange>

  // ---- The ordered map behind both constructors ----

  /** Every entry is filed under its own path and carries the digest of its result. */
  predicate Filed(m: ByPath) {
    forall p :: p in m ==> m[p].Path() == p && m[p].DigestAgrees()
  }

  /** A plan lists exactly the entries of a map. */
  ghost predicate Lists(changes: seq<PlannedFileChange>, m: ByPath) {
    && (forall i :: 0 <= i < |changes| ==> Get(m, changes[i].Path()) == Some(changes[i]))
    && (forall p :: p in m ==> m[p] in changes)
  }

  lemma {:induction false} IntoValuesMembers(m: ByPath)
    requires forall p :: p in m ==> m[p].Path() == p
    ensures forall i :: 0 <= i < |IntoValues(m)| ==> Get(m, IntoValues(m)[i].Path()) == Some(IntoValues(m)[i])
    ensures forall p :: p in m ==> m[p] in IntoValues(m)
  {
    if m != map[] {
      var k := LeastKey(m.Keys);
      var rest := m - {k};
      IntoValuesMembers(rest);
      var tail, all := IntoValues(rest), IntoValues(m);
      forall i | 0 <= i < |all| ensures Get(m, all[i].Path()) == Some(all[i]) {
        if 0 < i {
          assert all[i] == tail[i - 1] && Get(rest, tail[i - 1].Path()) == Some(tail[i - 1]);
        }
      }
      forall p | p in m ensures m[p] in all {
        if p == k {
          assert all[0] == m[k];
        } else {
          assert m[p] == rest[p] && rest[p] in tail;
        }
      }
    }
  }

  lemma {:induction false} IntoValuesOrdered(m: ByPath)
    requires forall p :: p in m ==> m[p].Path() == p
    ensures Ordered(IntoValues(m)) && |IntoValues(m)| == |m|
  {
    if m != map[] {
      var k := LeastKey(m.Keys);
      var rest := m - {k};
      IntoValuesOrdered(rest);
      IntoValuesMembers(rest);
      var tail, all := IntoValues(rest), IntoValues(m);
      assert m.Keys == rest.Keys + {k};
      forall i | 0 < i < |all| ensures Less(all[i - 1].Path(), all[i].Path()) {
        if i == 1 {
          assert all[1] == tail[0] && Get(rest, tail[0].Path()).Some?;
        } else {
          assert all[i] == tail[i - 1] && all[i - 1] == tail[i - 2];
        }
      }
    }
  }

  /** The values come out as a valid plan with exactly the entries of the map. */
  lemma IntoValuesLists(m: ByPath)
    requires Filed(m)
    ensures Lists(IntoValues(m), m) && ValidPlan(IntoValues(m)) && |IntoValues(m)| == |m|
  {
    IntoValuesMembers(m);
    IntoValuesOrdered(m);
    forall i | 0 <= i < |IntoValues(m)| ensures IntoValues(m)[i].DigestAgrees() {
      assert Get(m, IntoValues(m)[i].Path()) == Some(IntoValues(m)[i]);
    }
  }

  /** Two changes conflict when they name one path. */
  ghost predicate DistinctPaths(changes: seq<PlannedFileChange>) {
    forall i, j :: 0 <= i < j < |changes| ==> changes[i].Path() != changes[j].Path()
  }

  /** The map filed so far lists exactly the changes seen so far, if their paths are distinct. */
  lemma ListsSnoc(changes: seq<PlannedFileChange>, m: ByPath, change: PlannedFileChange)
    requires Lists(changes, m) && change.Path() !in m
    ensures Lists(changes + [change], m[change.Path() := change])
  {
    forall i | 0 <= i < |changes| ensures Get(m[change.Path() := change], changes[i].Path()) == Some(changes[i]) {
      assert Get(m, changes[i].Path()) == Some(changes[i]);
    }
    assert (changes + [change])[|changes|] == change;
  }

  /** Change `i` is the first to name the path of an earlier one, `j`; the error tells if their operations agree. */
  ghost predicate Clash(changes: seq<PlannedFileChange>, j: nat, i: nat, e: ChangePlanError)
    requires j < i < |changes|
  {
    && DistinctPaths(changes[..i]) && changes[j].Path() == changes[i].Path()
    && e == if changes[j].Operation() == changes[i].Operation() then DuplicatePath else ConflictingOperations
  }

  /** `ChangePlan::new`: the changes in path order, refused if two name one path or a digest is wrong. */
  method New(changes: seq<PlannedFileChange>) returns (r: Result<seq<PlannedFileChange>>)
    ensures r.Ok? <==> DistinctPaths(changes) && forall i :: 0 <= i < |changes| ==> changes[i].DigestAgrees()
    ensures r.Ok? ==> ValidPlan(r.value) && forall c :: c in r.value <==> c in changes
    ensures r.Err? && !DistinctPaths(changes) ==> exists j, i :: 0 <= j < i < |changes| && Clash(changes, j, i, r.error)
    ensures r.Err? && DistinctPaths(changes) ==> r.error == InvalidDigest
  {
    var ordered: ByPath := map[];
    for i := 0 to |changes|
      invariant Lists(changes[..i], ordered) && DistinctPaths(changes[..i])
      invariant forall p :: p in ordered ==> ordered[p].Path() == p
    {
      var change := changes[i];
      var path := change.Path();
      assert changes[..i + 1] == changes[..i] + [change];
      if path in ordered {
        var existing := ordered[path];
        ghost var j :| 0 <= j < i && changes[..i][j] == existing;
        var error := if existing.Operation() == change.Operation() then DuplicatePath else ConflictingOperations;
        assert Clash(changes, j, i, error);
        return Err(error);
      }
      forall j | 0 <= j < i ensures changes[j].Path() != path {
        assert changes[..i][j] == changes[j] && Get(ordered, changes[..i][j].Path()) == Some(changes[..i][j]);
      }
      ListsSnoc(changes[..i], ordered, change);
      ordered := ordered[path := change];
    }
    assert changes[..|changes|] == changes;
    var plan := IntoValues(ordered);
    SameMembers(changes, ordered);
    var error := Validate(plan);
    if error.Some? {
      ghost var k :| 0 <= k < |plan| && !plan[k].DigestAgrees();
      assert plan[k] in plan && plan[k] in changes;
      return Err(error.value);
    }
    assert forall i :: 0 <= i < |changes| ==> changes[i] in plan;
    return Ok(plan);
  }

  /** The ordered values are the listed changes. */
  lemma SameMembers(changes: seq<PlannedFileChange>, m: ByPath)
    requires Lists(changes, m) && forall p :: p in m ==> m[p].Path() == p
    ensures forall c :: c in IntoValues(m) <==> c in changes
    ensures Ordered(IntoValues(m))
  {
    IntoValuesMembers(m);
    IntoValuesOrdered(m);
    forall c | c in changes ensures c in IntoValues(m) {
      var i :| 0 <= i < |changes| && changes[i] == c;
      assert Get(m, changes[i].Path()) == Some(c);
    }
    forall c | c in IntoValues(m) ensures c in changes {
      var i :| 0 <= i < |IntoValues(m)| && IntoValues(m)[i] == c;
      assert Get(m, IntoValues(m)[i].Path()) == Some(c);
    }
  }

  // ---- Chaining two changes of one path ----

  /** What two successive changes of one path amount to; nothing at all for a creation that is retired. */
  function Chain(previous: PlannedFileChange, change: PlannedFileChange): Result<Option<PlannedFileChange>> {
    if change.Precondition() != previous.ResultPrecondition() then Err(ConflictingOperations)
    else
      match (previous, change)
      case (Create(creation), Edit(edit)) =>
        Ok(Some(Create(creation.(content := edit.content, resultDigest := edit.resultDigest))))
      case (Create(_), Retire(_)) => Ok(None)
      case (Edit(first), Edit(second)) =>
        Ok(Some(Edit(first.(content := second.content, resultDigest := second.resultDigest))))
      case (Edit(first), Retire(retirement)) =>
        Ok(Some(Retire(retirement.(originalDigest := first.originalDigest))))
      case (Retire(retirement), Create(creation)) =>
        Ok(Some(Edit(StructuredFileEdit(
          retirement.path, retirement.originalDigest, creation.content, creation.resultDigest))))
      case _ => Err(ConflictingOperations)
  }

  /** The catch-all arm is dead: changes whose digests meet always chain, with the first guard and the last result. */
  lemma ChainMeets(previous: PlannedFileChange, change: PlannedFileChange)
    requires previous.Path() == change.Path() && previous.DigestAgrees() && change.DigestAgrees()
    ensures Chain(previous, change).Ok? <==> change.Precondition() == previous.ResultPrecondition()
    ensures Chain(previous, change).Ok? ==>
              match Chain(previous, change).value
              case None => previous.Precondition() == Absent && change.ResultingContent() == None
              case Some(both) =>
                && both.Path() == change.Path() && both.DigestAgrees()
                && both.Precondition() == previous.Precondition()
                && both.ResultingContent() == change.ResultingContent()
                && (both.Retire? ==> both.retirement.integration == change.retirement.integration)
  {
  }

  /** One turn of the composition loop. */
  function Add(m: ByPath, change: PlannedFileChange): Result<ByPath> {
    var p := change.Path();
    if p !in m then Ok(m[p := change])
    else
      match Chain(m[p], change)
      case Err(e) => Err(e)
      case Ok(None) => Ok(m - {p})
      case Ok(Some(both)) => Ok(m[p := both])
  }

  function AddAll(m: ByPath, changes: seq<PlannedFileChange>): Result<ByPath> {
    if changes == [] then Ok(m)
    else
      match AddAll(m, changes[..|changes| - 1])
      case Err(e) => Err(e)
      case Ok(m') => Add(m', changes[|changes| - 1])
  }

  function Flatten(plans: seq<seq<PlannedFileChange>>): seq<PlannedFileChange> {
    if plans == [] then [] else Flatten(plans[..|plans| - 1]) + plans[|plans| - 1]
  }

  lemma {:induction false} AddAllAppend(m: ByPath, a: seq<PlannedFileChange>, b: seq<PlannedFileChange>)
    ensures AddAll(m, a + b) == match AddAll(m, a) case Err(e) => Err(e) case Ok(m') => AddAll(m', b)
  {
    if b == [] {
      assert a + b == a;
    } else {
      assert (a + b)[..|a + b| - 1] == a + b[..|b| - 1];
      AddAllAppend(m, a, b[..|b| - 1]);
    }
  }

  lemma {:induction false} AddAllFiled(m: ByPath, changes: seq<PlannedFileChange>)
    requires Filed(m) && (forall i :: 0 <= i < |changes| ==> changes[i].DigestAgrees())
    ensures AddAll(m, changes).Ok? ==> Filed(AddAll(m, changes).value)
    ensures AddAll(m, changes).Err? ==> AddAll(m, changes).error == ConflictingOperations
  {
    if changes != [] {
      AddAllFiled(m, changes[..|changes| - 1]);
      var before := AddAll(m, changes[..|changes| - 1]);
      var last := changes[|changes| - 1];
      if before.Ok? && last.Path() in before.value {
        ChainMeets(before.value[last.Path()], last);
      }
    }
  }

  /** The inner loop of composition: the changes of one plan on top of what is composed so far. */
  method AddPlan(start: ByPath, plan: seq<PlannedFileChange>) returns (r: Result<ByPath>)
    requires Filed(start) && forall i :: 0 <= i < |plan| ==> plan[i].DigestAgrees()
    ensures r == AddAll(start, plan) && (r.Ok? ==> Filed(r.value))
  {
    var composed := start;
    for j := 0 to |plan|
      invariant AddAll(start, plan[..j]) == Ok(composed) && Filed(composed)
    {
      var change := plan[j];
      var path := change.Path();
      assert plan[..j + 1][..j] == plan[..j];
      ghost var whole := composed;
      if path !in composed {
        composed := composed[path := change];
      } else {
        var previous := composed[path];
        composed := composed - {path};
        ChainMeets(previous, change);
        match Chain(previous, change) {
          case Err(e) =>
            AddAllAppend(start, plan[..j + 1], plan[j + 1..]);
            assert plan == plan[..j + 1] + plan[j + 1..];
            return Err(e);
          case Ok(None) =>
          case Ok(Some(both)) =>
            assert (whole - {path})[path := both] == whole[path := both];
            composed := composed[path := both];
        }
      }
    }
    assert plan[..|plan|] == plan;
    return Ok(composed);
  }

  ghost predicate AllPlansValid(plans: seq<seq<PlannedFileChange>>) {
    forall i :: 0 <= i < |plans| ==> ValidPlan(plans[i])
  }

  /** Composition stops at plan `i` with this error: the plan is faulty, or it conflicts with those before it. */
  ghost predicate StopsAt(plans: seq<seq<PlannedFileChange>>, i: nat, e: ChangePlanError)
    requires i < |plans|
  {
    && AllPlansValid(plans[..i]) && AddAll(map[], Flatten(plans[..i])).Ok?
    && if ValidPlan(plans[i]) then AddAll(map[], Flatten(plans[..i + 1])) == Err(e) else FirstFault(plans[i], e)
  }

  /** The outer loop of composition. */
  method ComposeAll(plans: seq<seq<PlannedFileChange>>) returns (r: Result<ByPath>)
    ensures AllPlansValid(plans) ==> r == AddAll(map[], Flatten(plans))
    ensures r.Ok? ==> AllPlansValid(plans) && Filed(r.value)
    ensures r.Err? ==> exists i :: 0 <= i < |plans| && StopsAt(plans, i, r.error)
  {
    var composed: ByPath := map[];
    for i := 0 to |plans|
      invariant ComposedUpTo(plans, i, composed)
    {
      var error := Validate(plans[i]);
      if error.Some? {
        assert StopsAt(plans, i, error.value);
        return Err(error.value);
      }
      var added := AddPlan(composed, plans[i]);
      ComposeTurn(plans, i, composed);
      if added.Err? {
        ConflictIsFinal(plans, i + 1);
        assert StopsAt(plans, i, added.error);
        return Err(added.error);
      }
      composed := added.value;
    }
    assert plans[..|plans|] == plans;
    return Ok(composed);
  }

  /** The state of the outer loop before plan `i`. */
  ghost predicate ComposedUpTo(plans: seq<seq<PlannedFileChange>>, i: nat, m: ByPath)
    requires i <= |plans|
  {
    AllPlansValid(plans[..i]) && AddAll(map[], Flatten(plans[..i])) == Ok(m) && Filed(m)
  }

  lemma ComposeTurn(plans: seq<seq<PlannedFileChange>>, i: nat, m: ByPath)
    requires i < |plans| && ComposedUpTo(plans, i, m) && ValidPlan(plans[i])
    ensures AllPlansValid(plans[..i + 1])
    ensures AddAll(map[], Flatten(plans[..i + 1])) == AddAll(m, plans[i])
  {
    assert plans[..i + 1] == plans[..i] + [plans[i]];
    FlattenSnoc(plans[..i], plans[i]);
    AddAllAppend(map[], Flatten(plans[..i]), plans[i]);
  }

  lemma FlattenSnoc(plans: seq<seq<PlannedFileChange>>, plan: seq<PlannedFileChange>)
    ensures Flatten(plans + [plan]) == Flatten(plans) + plan
  {
    assert (plans + [plan])[..|plans|] == plans;
  }

  /** `ChangePlan::compose`. */
  method Compose(plans: seq<seq<PlannedFileChange>>) returns (r: Result<seq<PlannedFileChange>>)
    ensures AllPlansValid(plans) ==>
              match AddAll(map[], Flatten(plans))
              case Ok(m) => r == Ok(IntoValues(m))
              case Err(e) => r == Err(e)
    ensures r.Ok? ==> AllPlansValid(plans) && ValidPlan(r.value)
    ensures r.Err? ==> exists i :: 0 <= i < |plans| && StopsAt(plans, i, r.error)
  {
    var composed := ComposeAll(plans);
    if composed.Err? { return Err(composed.error); }
    IntoValuesLists(composed.value);
    return Ok(IntoValues(composed.value));
  }

  /** A conflict in the first plans is a conflict of the whole sequence. */
  lemma {:induction false} ConflictIsFinal(plans: seq<seq<PlannedFileChange>>, n: nat)
    requires n <= |plans| && AddAll(map[], Flatten(plans[..n])).Err?
    ensures AddAll(map[], Flatten(plans)) == AddAll(map[], Flatten(plans[..n]))
  {
    if n == |plans| {
      assert plans[..n] == plans;
    } else {
      var init := plans[..|plans| - 1];
      assert init[..n] == plans[..n];
      ConflictIsFinal(init, n);
      AddAllAppend(map[], Flatten(init), plans[|plans| - 1]);
    }
  }
}
