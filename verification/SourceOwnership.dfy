/** Source-ownership claims of an application manifest, and the retirements they allow. */
module SourceOwnership {
  import opened Content

  // ---- Paths ----

  /** `path.strip_prefix(root)` leaves something that starts with a slash. */
  predicate Below(path: string, root: string) {
    root <= path && |root| < |path| && path[|root|] == '/'
  }

  predicate Overlap(left: string, right: string) {
    left == right || Below(left, right) || Below(right, left)
  }

  predicate AtOrAbove(ancestor: string, path: string) {
    ancestor == path || Below(path, ancestor)
  }

  /** Two ancestors of one path are comparable. */
  lemma AncestorsOverlap(a: string, b: string, path: string)
    requires AtOrAbove(a, path) && AtOrAbove(b, path)
    ensures Overlap(a, b)
  {
    assert a == path[..|a|] && b == path[..|b|];
    if |a| < |b| {
      assert b[|a|] == path[|a|] && a <= b;
    } else if |b| < |a| {
      assert a[|b|] == path[|b|] && b <= a;
    }
  }

  predicate SegmentChar(c: char) {
    'a' <= c <= 'z' || 'A' <= c <= 'Z' || '0' <= c <= '9' || c == '-' || c == '_' || c == '.'
  }

  predicate ValidSegment(s: string) {
    0 < |s| <= 255 && s != "." && s != ".." && forall i :: 0 <= i < |s| ==> SegmentChar(s[i])
  }

  /** The parts of a path between slashes. */
  function Segments(path: string): seq<string> {
    if '/' !in path then [path]
    else
      var i := FirstSlash(path);
      [path[..i]] + Segments(path[i + 1..])
  }

  function FirstSlash(path: string): (i: nat)
    requires '/' in path
    ensures i < |path| && path[i] == '/' && '/' !in path[..i]
  {
    if path[0] == '/' then 0 else 1 + FirstSlash(path[1..])
  }

  /** One canonical relative spelling of plain segments. */
  predicate ValidPath(path: string) {
    0 < |path| <= 4096 && forall i :: 0 <= i < |Segments(path)| ==> ValidSegment(Segments(path)[i])
  }

  predicate ValidComponentId(s: string) {
    s != [] && 'a' <= s[0] <= 'z' && forall i :: 0 <= i < |s| ==> ComponentCharAt(s, i)
  }

  predicate ComponentCharAt(s: string, i: nat)
    requires i < |s|
  {
    'a' <= s[i] <= 'z' || '0' <= s[i] <= '9' || (s[i] == '-' && 0 < i && i + 1 < |s| && s[i - 1] != '-')
  }

  // ---- Claims ----

  datatype Class = ApplicationOwned | ManagedIntegration | GeneratedOnce | ImmutableHistory
  datatype Claim = Claim(path: string, class_: Class, integration: Option<string>)
  datatype Ownership = Ownership(default_: Class, claims: seq<Claim>)

  datatype ManifestError =
    | InvalidOwnershipDefault
    | InvalidOwnershipClaim
    | InvalidOwnershipPath
    | InvalidOwnershipIntegration
    | DuplicateOwnership
    | OverlappingOwnership

  predicate Managed(c: Claim) {
    c.class_ == ManagedIntegration
  }

  function ClaimError(c: Claim): Option<ManifestError> {
    if !ValidPath(c.path) then Some(InvalidOwnershipPath)
    else if Managed(c) then
      match c.integration
      case None => Some(InvalidOwnershipClaim)
      case Some(integration) =>
        if |integration| > 128 || !ValidComponentId(integration) then Some(InvalidOwnershipIntegration) else None
    else if c.integration.Some? then Some(InvalidOwnershipClaim)
    else None
  }

  /** Two claims may stand side by side: disjoint paths, or two integrations of one path. */
  predicate Compatible(a: Claim, b: Claim) {
    && (a.path, a.integration) != (b.path, b.integration)
    && ((a.path == b.path && Managed(a) && Managed(b)) || !Overlap(a.path, b.path))
  }

  ghost predicate Valid(o: Ownership) {
    && o.default_ == ApplicationOwned && |o.claims| <= 4096
    && (forall i :: 0 <= i < |o.claims| ==> ClaimError(o.claims[i]).None?)
    && (forall i, j :: 0 <= i < j < |o.claims| ==> Compatible(o.claims[i], o.claims[j]))
  }

  /** What is wrong with claim `i` by itself or beside the ones before it. */
  ghost function ClaimFault(claims: seq<Claim>, i: nat): Option<ManifestError>
    requires i < |claims|
  {
    if ClaimError(claims[i]).Some? then ClaimError(claims[i])
    else if exists j :: 0 <= j < i && (claims[j].path, claims[j].integration) == (claims[i].path, claims[i].integration)
    then Some(DuplicateOwnership)
    else None
  }

  /** The error reported: the default, the number, the first faulty claim, and only then an overlap. */
  ghost predicate Reported(o: Ownership, e: ManifestError) {
    if o.default_ != ApplicationOwned then e == InvalidOwnershipDefault
    else if |o.claims| > 4096 then e == InvalidOwnershipClaim
    else if forall i :: 0 <= i < |o.claims| ==> ClaimFault(o.claims, i).None? then e == OverlappingOwnership
    else exists i :: 0 <= i < |o.claims| && ClaimFault(o.claims, i) == Some(e)
                     && forall j :: 0 <= j < i ==> ClaimFault(o.claims, j).None?
  }

  /** `SourceOwnership::validate`. */
  method Validate(o: Ownership) returns (error: Option<ManifestError>)
    ensures error.None? <==> Valid(o)
    ensures error.Some? ==> Reported(o, error.value)
  {
    if o.default_ != ApplicationOwned {
      return Some(InvalidOwnershipDefault);
    }
    if |o.claims| > 4096 {
      return Some(InvalidOwnershipClaim);
    }
    var identities: set<(string, Option<string>)> := {};
    for i := 0 to |o.claims|
      invariant forall j :: 0 <= j < i ==> ClaimError(o.claims[j]).None?
      invariant forall j :: 0 <= j < i ==> ClaimFault(o.claims, j).None?
      invariant identities == set j | 0 <= j < i :: (o.claims[j].path, o.claims[j].integration)
      invariant forall j, k :: 0 <= j < k < i ==>
                  (o.claims[j].path, o.claims[j].integration) != (o.claims[k].path, o.claims[k].integration)
    {
      var claim := o.claims[i];
      if ClaimError(claim).Some? {
        assert ClaimFault(o.claims, i) == ClaimError(claim);
        return ClaimError(claim);
      }
      var identity := (claim.path, claim.integration);
      if identity in identities {
        assert ClaimFault(o.claims, i) == Some(DuplicateOwnership);
        return Some(DuplicateOwnership);
      }
      identities := identities + {identity};
    }
    for i := 0 to |o.claims|
      invariant forall j, k :: 0 <= j < i && j < k < |o.claims| ==> Compatible(o.claims[j], o.claims[k])
    {
      var left := o.claims[i];
      for k := i + 1 to |o.claims|
        invariant forall m :: i < m < k ==> Compatible(left, o.claims[m])
      {
        var right := o.claims[k];
        if left.path == right.path && Managed(left) && Managed(right) {
          continue;
        }
        if Overlap(left.path, right.path) {
          return Some(OverlappingOwnership);
        }
      }
    }
    return None;
  }

  // ---- What validated ownership means ----

  /** The claims at a path or above it are a single claim, or all integrations of one identical path. */
  lemma ClaimsAboveAPath(o: Ownership, path: string, i: nat, j: nat)
    requires Valid(o) && i < |o.claims| && j < |o.claims|
    requires AtOrAbove(o.claims[i].path, path) && AtOrAbove(o.claims[j].path, path)
    ensures i == j || (o.claims[i].path == o.claims[j].path && Managed(o.claims[i]) && Managed(o.claims[j]))
  {
    AncestorsOverlap(o.claims[i].path, o.claims[j].path, path);
    if i < j {
      assert Compatible(o.claims[i], o.claims[j]);
    } else if j < i {
      assert Compatible(o.claims[j], o.claims[i]);
    }
  }

  /** `ManagedFileRetirement::new` accepts the path for the integration. */
  ghost predicate RetirementAccepted(o: Ownership, path: string, integration: string) {
    && ValidPath(path) && Valid(o)
    && exists i :: 0 <= i < |o.claims| && o.claims[i] == Claim(path, ManagedIntegration, Some(integration))
  }

  /** A retirement is never accepted at, above or beneath a claim of another class. */
  lemma RetirementStaysInsideItsClaim(o: Ownership, path: string, integration: string, j: nat)
    requires RetirementAccepted(o, path, integration) && j < |o.claims| && Overlap(o.claims[j].path, path)
    ensures o.claims[j].path == path && Managed(o.claims[j])
  {
    var i :| 0 <= i < |o.claims| && o.claims[i] == Claim(path, ManagedIntegration, Some(integration));
    if i < j {
      assert Compatible(o.claims[i], o.claims[j]);
    } else if j < i {
      assert Compatible(o.claims[j], o.claims[i]);
    }
  }

  // ---- Order of claims ----

  /** The same check on claims without an order. */
  ghost predicate ValidClaims(claims: multiset<Claim>) {
    && |claims| <= 4096
    && (forall c :: c in claims ==> ClaimError(c).None? && claims[c] == 1)
    && (forall a, b :: a in claims && b in claims && a != b ==> Compatible(a, b))
  }

  lemma CompatibleIsSymmetric(a: Claim, b: Claim)
    requires Compatible(a, b)
    ensures Compatible(b, a)
  {
  }

  lemma {:induction false} RepeatedClaim(claims: seq<Claim>, c: Claim)
    requires multiset(claims)[c] > 1
    ensures exists i, j :: 0 <= i < j < |claims| && claims[i] == c && claims[j] == c
  {
    var n := |claims| - 1;
    var init := claims[..n];
    assert claims == init + [claims[n]];
    if multiset(init)[c] > 1 {
      RepeatedClaim(init, c);
      var i, j :| 0 <= i < j < |init| && init[i] == c && init[j] == c;
      assert claims[i] == c && claims[j] == c;
    } else {
      assert claims[n] == c && c in multiset(init);
      var i :| 0 <= i < |init| && init[i] == c;
      assert claims[i] == c && claims[n] == c;
    }
  }

  lemma CountTwice(claims: seq<Claim>, i: nat, j: nat)
    requires i < j < |claims| && claims[i] == claims[j]
    ensures multiset(claims)[claims[i]] > 1
  {
    var (a, b) := (claims[..i], claims[i + 1..]);
    assert claims == a + [claims[i]] + b;
    assert b[j - i - 1] == claims[j] && claims[j] in multiset(b);
  }

  lemma NoRepeatedClaim(o: Ownership, c: Claim)
    requires Valid(o)
    ensures multiset(o.claims)[c] <= 1
  {
    assert !Compatible(c, c);
    if multiset(o.claims)[c] > 1 {
      RepeatedClaim(o.claims, c);
      assert false;
    }
  }

  lemma ValidAsMultiset(o: Ownership)
    requires Valid(o)
    ensures ValidClaims(multiset(o.claims))
  {
    var m := multiset(o.claims);
    forall c | c in m ensures ClaimError(c).None? && m[c] == 1 {
      assert c in o.claims;
      NoRepeatedClaim(o, c);
    }
    forall a, b | a in m && b in m && a != b ensures Compatible(a, b) {
      var i :| 0 <= i < |o.claims| && o.claims[i] == a;
      var j :| 0 <= j < |o.claims| && o.claims[j] == b;
      if i < j {
        assert Compatible(o.claims[i], o.claims[j]);
      } else {
        CompatibleIsSymmetric(o.claims[j], o.claims[i]);
      }
    }
  }

  lemma ValidAsSequence(o: Ownership)
    requires o.default_ == ApplicationOwned && ValidClaims(multiset(o.claims))
    ensures Valid(o)
  {
    var m := multiset(o.claims);
    forall i, j | 0 <= i < j < |o.claims| ensures Compatible(o.claims[i], o.claims[j]) {
      assert o.claims[i] in m && o.claims[j] in m;
      if o.claims[i] == o.claims[j] {
        CountTwice(o.claims, i, j);
      }
    }
    forall i | 0 <= i < |o.claims| ensures ClaimError(o.claims[i]).None? {
      assert o.claims[i] in m;
    }
  }

  /** Validation depends only on which claims there are, with repetitions counted. */
  lemma ValidityIgnoresOrder(o: Ownership)
    ensures Valid(o) <==> o.default_ == ApplicationOwned && ValidClaims(multiset(o.claims))
  {
    if Valid(o) {
      ValidAsMultiset(o);
    }
    if o.default_ == ApplicationOwned && ValidClaims(multiset(o.claims)) {
      ValidAsSequence(o);
    }
  }

  /** Reordering the claims, as normalisation does, never changes acceptance. */
  lemma ReorderingNeverMatters(a: Ownership, b: Ownership)
    requires a.default_ == b.default_ && multiset(a.claims) == multiset(b.claims)
    ensures Valid(a) <==> Valid(b)
    ensures forall path, integration ::
              RetirementAccepted(a, path, integration) <==> RetirementAccepted(b, path, integration)
  {
    ValidityIgnoresOrder(a);
    ValidityIgnoresOrder(b);
    forall path, integration
      ensures RetirementAccepted(a, path, integration) <==> RetirementAccepted(b, path, integration)
    {
      var c := Claim(path, ManagedIntegration, Some(integration));
      assert c in a.claims <==> c in multiset(a.claims);
      assert c in b.claims <==> c in multiset(b.claims);
    }
  }
}
