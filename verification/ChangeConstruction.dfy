/** The constructors of creations, edits and retirements. */
module ChangeConstruction {
  import opened Content
  import opened ChangePlans
  import opened SourceOwnership

  datatype ConstructionError = InvalidPath | Unchanged | InvalidOwnership
  datatype Result<+T> = Ok(value: T) | Err(error: ConstructionError)

  /** `FileCreation::new`: any content at any valid path. */
  function NewCreation(path: Path, content: Bytes): (r: Result<FileCreation>)
    ensures r.Ok? <==> ValidPath(path)
    ensures r.Ok? ==> Create(r.value).DigestAgrees() && Create(r.value).Path() == path
    ensures r.Ok? ==> Create(r.value).Precondition() == Absent && Create(r.value).ResultingContent() == Some(content)
  {
    if !ValidPath(path) then Err(InvalidPath) else Ok(FileCreation(path, content, Calculate(content)))
  }

  /** `StructuredFileEdit::new`: guarded by what was observed, and never without effect. */
  function NewEdit(path: Path, observed: Bytes, content: Bytes): (r: Result<StructuredFileEdit>)
    ensures r.Ok? <==> ValidPath(path) && observed != content
    ensures r == Err(Unchanged) <==> ValidPath(path) && observed == content
    ensures r.Ok? ==> Edit(r.value).DigestAgrees() && Edit(r.value).Path() == path
    ensures r.Ok? ==> Edit(r.value).Precondition() == MatchesDigest(Calculate(observed))
    ensures r.Ok? ==> Edit(r.value).ResultingContent() == Some(content)
    ensures r.Ok? ==> Edit(r.value).ResultPrecondition() != Edit(r.value).Precondition()
  {
    if !ValidPath(path) then Err(InvalidPath)
    else if Calculate(observed) == Calculate(content) then Err(Unchanged)
    else Ok(StructuredFileEdit(path, Calculate(observed), content, Calculate(content)))
  }

  /** `ManagedFileRetirement::new`: guarded by what was observed, for exactly declared managed integrations. */
  method NewRetirement(ownership: Ownership, path: Path, integration: string, observed: Bytes)
    returns (r: Result<ManagedFileRetirement>)
    ensures r.Ok? <==> RetirementAccepted(ownership, path, integration)
    ensures r == Err(InvalidPath) <==> !ValidPath(path)
    ensures r.Ok? ==> Retire(r.value).Path() == path && r.value.integration == integration
    ensures r.Ok? ==> Retire(r.value).Precondition() == MatchesDigest(Calculate(observed))
    ensures r.Ok? ==> Retire(r.value).ResultPrecondition() == Absent
  {
    if !ValidPath(path) {
      return Err(InvalidPath);
    }
    var error := SourceOwnership.Validate(ownership);
    if error.Some? {
      return Err(InvalidOwnership);
    }
    var declared := false;
    for i := 0 to |ownership.claims|
      invariant declared <==>
                exists j :: 0 <= j < i && ownership.claims[j] == Claim(path, ManagedIntegration, Some(integration))
    {
      var claim := ownership.claims[i];
      if claim.path == path && claim.class_ == ManagedIntegration && claim.integration == Some(integration) {
        declared := true;
      }
    }
    if !declared {
      return Err(InvalidOwnership);
    }
    return Ok(ManagedFileRetirement(path, Calculate(observed), integration));
  }
}
