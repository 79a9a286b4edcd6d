/** The constructors of component contributions, and edits planned against the sources of an installation. */
module ContributionConstruction {
  import opened Content
  import opened ChangePlans
  import opened Installation
  import ChangeConstruction
  import SourceOwnership

  datatype ContributionError = InvalidChange | OutsideItsOwner | HistoricalMigrationEdit
  datatype Result = Ok(value: Contribution) | Err(error: ContributionError)

  const MIGRATIONS := "crates/infrastructure/migrations/"

  /** `ComponentArtifact::new`: a new file under its owner. */
  function NewArtifact(owner: Owner, path: Path, content: Bytes): (r: Result)
    ensures r.Ok? <==> SourceOwnership.ValidPath(path) && Owns(owner, path)
    ensures r.Ok? ==> r.value.Valid() && r.value.owner == owner && r.value.Path() == path
    ensures r.Ok? ==> r.value.ResultingContent() == content && r.value.Change().Precondition() == Absent
  {
    match ChangeConstruction.NewCreation(path, content)
    case Err(_) => Err(InvalidChange)
    case Ok(creation) => if Owns(owner, path) then Ok(Artifact(owner, creation)) else Err(OutsideItsOwner)
  }

  /** `StructuredFileEdit::new` and `ComponentIntegration::new`: an edit of what was observed, under its owner. */
  function NewIntegration(owner: Owner, path: Path, observed: Bytes, content: Bytes): (r: Result)
    ensures r.Ok? <==>
            SourceOwnership.ValidPath(path) && observed != content && Owns(owner, path) && !(MIGRATIONS <= path)
    ensures r == Err(HistoricalMigrationEdit) <==>
            SourceOwnership.ValidPath(path) && observed != content && Owns(owner, path) && MIGRATIONS <= path
    ensures r.Ok? ==> r.value.Integration? && r.value.Valid() && r.value.owner == owner && r.value.Path() == path
    ensures r.Ok? ==> r.value.ResultingContent() == content
    ensures r.Ok? ==> r.value.Change().Precondition() == MatchesDigest(Calculate(observed))
  {
    match ChangeConstruction.NewEdit(path, observed, content)
    case Err(_) => Err(InvalidChange)
    case Ok(edit) =>
      if !Owns(owner, path) then Err(OutsideItsOwner)
      else if MIGRATIONS <= path then Err(HistoricalMigrationEdit)
      else Ok(Integration(owner, edit))
  }

  /** One edit of an installation: read the source, plan the new content, accept the outcome. */
  method EditSource(sources: SourceSet, owner: Owner, path: Path, content: Bytes) returns (accepted: bool)
    requires sources.Valid() && path in sources.loaded && path in sources.values
    modifies sources
    ensures sources.Valid()
    ensures accepted <==> NewIntegration(owner, path, old(sources.values)[path], content).Ok?
    ensures sources.values == if accepted then old(sources.values)[path := content] else old(sources.values)
    ensures |sources.contributions| == old(|sources.contributions|) + if accepted then 1 else 0
  {
    var observed := sources.Read(path);
    assert observed == sources.values[path] by {
      EditsAreThreaded(sources.loaded, sources.contributions);
      assert ThreadedAt(sources.loaded, sources.values, Collapse(sources.contributions).value, path);
    }
    var planned := NewIntegration(owner, path, observed, content);
    accepted := planned.Ok?;
    if accepted {
      sources.Accept(path, Planned(planned.value));
    }
  }
}
