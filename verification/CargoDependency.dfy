/** Cargo dependency declarations: printing, matching and release transitions. */
module CargoDependency {
  import opened Content
  import opened OrderedMaps

  datatype Source =
    | Workspace
    | Registry(version: string)
    | FrameworkRelease(repository: string, release: string, defaultFeatures: bool)

  datatype Dependency = Dependency(name: string, source: Source, optional: bool, features: set<string>)

  /** A parsed TOML value; kinds the editor never prints are `Other`. */
  datatype Value = Boolean(b: bool) | Text(text: string) | Array(items: seq<Value>) | Other
  type Declaration = map<string, Value>
  datatype Item = Table(declaration: Declaration) | NotATable

  function AsBool(v: Option<Value>): Option<bool> {
    match v case Some(Boolean(b)) => Some(b) case _ => None
  }

  function AsStr(v: Option<Value>): Option<string> {
    match v case Some(Text(s)) => Some(s) case _ => None
  }

  /** The strings of an array, or nothing if it holds anything else. */
  function AsStrings(items: seq<Value>): Option<seq<string>> {
    if items == [] then Some([])
    else
      match (items[0], AsStrings(items[1..]))
      case (Text(s), Some(rest)) => Some([s] + rest)
      case (_, _) => None
  }

  const ALLOWED: set<string> := {"workspace", "git", "tag", "version", "default-features", "optional", "features"}

  predicate SourceMatches(d: Declaration, source: Source) {
    match source
    case Workspace =>
      && AsBool(Get(d, "workspace")) == Some(true)
      && "git" !in d && "tag" !in d && "default-features" !in d
    case Registry(version) =>
      && "workspace" !in d && "git" !in d && "tag" !in d
      && AsStr(Get(d, "version")) == Some(version) && "default-features" !in d
    case FrameworkRelease(repository, release, defaultFeatures) =>
      && "workspace" !in d
      && AsStr(Get(d, "git")) == Some(repository) && AsStr(Get(d, "tag")) == Some(release)
      && (match AsBool(Get(d, "default-features")) case Some(b) => b == defaultFeatures case None => defaultFeatures)
  }

  predicate FeaturesMatch(d: Declaration, features: set<string>) {
    var declared: Option<Value> := Get(d, "features");
    match declared
    case Some(Array(items)) =>
      (match AsStrings(items)
       case None => false
       case Some(entries) => |entries| == |features| && (set s | s in entries) == features)
    case Some(_) => false
    case None => features == {}
  }

  /** `cargo_dependency_matches`. */
  predicate Matches(item: Item, dependency: Dependency) {
    match item
    case NotATable => false
    case Table(d) =>
      && d.Keys <= ALLOWED
      && SourceMatches(d, dependency.source)
      && (match AsBool(Get(d, "optional")) case Some(b) => b == dependency.optional case None => !dependency.optional)
      && FeaturesMatch(d, dependency.features)
  }

  /** A `BTreeSet` in its own order. */
  function InOrder(features: set<string>): seq<string> {
    if features == {} then [] else [LeastKey(features)] + InOrder(features - {LeastKey(features)})
  }

  function Texts(strings: seq<string>): (items: seq<Value>)
    ensures |items| == |strings| && forall i :: 0 <= i < |items| ==> items[i] == Text(strings[i])
  {
    seq(|strings|, i requires 0 <= i < |strings| => Text(strings[i]))
  }

  /** `cargo_dependency_value`. */
  function Render(dependency: Dependency): Declaration {
    (match dependency.source
     case Workspace => map["workspace" := Boolean(true)]
     case Registry(version) => map["version" := Text(version)]
     case FrameworkRelease(repository, release, defaultFeatures) =>
       map["git" := Text(repository), "tag" := Text(release)]
       + if defaultFeatures then map[] else map["default-features" := Boolean(false)])
    + (if dependency.optional then map["optional" := Boolean(true)] else map[])
    + (if dependency.features != {} then map["features" := Array(Texts(InOrder(dependency.features)))] else map[])
  }

  lemma {:induction false} AsStringsOfTexts(strings: seq<string>)
    ensures AsStrings(Texts(strings)) == Some(strings)
  {
    if strings != [] {
      AsStringsOfTexts(strings[1..]);
      assert Texts(strings)[1..] == Texts(strings[1..]) && strings == [strings[0]] + strings[1..];
    } else {
      assert Texts(strings) == [];
    }
  }

  lemma {:induction false} InOrderLists(features: set<string>)
    ensures |InOrder(features)| == |features| && (set s | s in InOrder(features)) == features
  {
    if features != {} {
      var k := LeastKey(features);
      InOrderLists(features - {k});
      assert features == (features - {k}) + {k};
      assert (set s | s in InOrder(features)) == (set s | s in InOrder(features - {k})) + {k};
    }
  }

  /** Everything but the name. */
  predicate SameDeclaration(a: Dependency, b: Dependency) {
    a.source == b.source && a.optional == b.optional && a.features == b.features
  }

  /** A declaration, however it was written, never matches two different descriptions. */
  lemma MatcherIsUnambiguous(item: Item, a: Dependency, b: Dependency)
    requires Matches(item, a) && Matches(item, b)
    ensures SameDeclaration(a, b)
  {
  }

  /** The keys for optionality and features do not disturb those of the source. */
  lemma SourceStillMatches(base: Declaration, extra: Declaration, source: Source)
    requires base.Keys <= ALLOWED && SourceMatches(base, source) && extra.Keys <= {"optional", "features"}
    ensures (base + extra).Keys <= ALLOWED && SourceMatches(base + extra, source)
  {
    assert forall k :: k in {"workspace", "git", "tag", "version", "default-features"} ==>
        Get(base + extra, k) == Get(base, k);
  }

  lemma RenderedKeys(dependency: Dependency)
    ensures Render(dependency).Keys <= ALLOWED
    ensures Get(Render(dependency), "features") ==
            if dependency.features == {} then None else Some(Array(Texts(InOrder(dependency.features))))
    ensures Get(Render(dependency), "optional") == if dependency.optional then Some(Boolean(true)) else None
    ensures SourceMatches(Render(dependency), dependency.source)
  {
    var style := Style(InOrder(dependency.features), false, false, false);
    RenderIsWritten(dependency);
    WrittenKeys(dependency, style);
  }

  lemma RenderIsWritten(dependency: Dependency)
    ensures Render(dependency) == Written(dependency, Style(InOrder(dependency.features), false, false, false))
  {
    match dependency.source
    case Workspace =>
    case Registry(_) =>
    case FrameworkRelease(repository, release, defaultFeatures) =>
      var base: Declaration := map["git" := Text(repository), "tag" := Text(release)];
      assert base + map[] == base;
      assert base + map["default-features" := Boolean(false)] ==
             map["git" := Text(repository), "tag" := Text(release), "default-features" := Boolean(false)];
  }

  /** What is printed is recognised. */
  lemma RenderMatches(dependency: Dependency)
    ensures Matches(Table(Render(dependency)), dependency)
  {
    RenderedKeys(dependency);
    InOrderLists(dependency.features);
    AsStringsOfTexts(InOrder(dependency.features));
  }

  /** The matcher accepts the rendering of one description as another exactly when they declare the same. */
  lemma RenderMatchesExactly(a: Dependency, b: Dependency)
    ensures Matches(Table(Render(a)), b) <==> SameDeclaration(a, b)
  {
    RenderMatches(a);
    if Matches(Table(Render(a)), b) {
      MatcherIsUnambiguous(Table(Render(a)), a, b);
    }
    if SameDeclaration(a, b) {
      RenderMatches(b);
      assert Render(a) == Render(b);
    }
  }

  // ---- Declarations written by hand ----

  /** How a declaration may be spelled: the order of its features, and which defaults it writes out. */
  datatype Style = Style(order: seq<string>, writesOptional: bool, writesDefaults: bool, writesFeatures: bool)

  /** The order lists each feature once. */
  ghost predicate Lists(order: seq<string>, features: set<string>) {
    |order| == |features| && forall s :: s in order <==> s in features
  }

  function SourceKeys(source: Source, style: Style): Declaration {
    match source
    case Workspace => map["workspace" := Boolean(true)]
    case Registry(version) => map["version" := Text(version)]
    case FrameworkRelease(repository, release, defaultFeatures) =>
      if defaultFeatures && !style.writesDefaults then map["git" := Text(repository), "tag" := Text(release)]
      else map["git" := Text(repository), "tag" := Text(release), "default-features" := Boolean(defaultFeatures)]
  }

  function OptionalKeys(optional: bool, style: Style): Declaration {
    if optional || style.writesOptional then map["optional" := Boolean(optional)] else map[]
  }

  function FeatureKeys(features: set<string>, style: Style): Declaration {
    if features != {} || style.writesFeatures then map["features" := Array(Texts(style.order))] else map[]
  }

  function Written(dependency: Dependency, style: Style): Declaration {
    SourceKeys(dependency.source, style) + OptionalKeys(dependency.optional, style)
    + FeatureKeys(dependency.features, style)
  }

  lemma SourceKeysMatch(source: Source, style: Style)
    ensures SourceKeys(source, style).Keys <= ALLOWED && SourceMatches(SourceKeys(source, style), source)
    ensures "optional" !in SourceKeys(source, style) && "features" !in SourceKeys(source, style)
  {
  }

  lemma WrittenKeys(dependency: Dependency, style: Style)
    ensures Written(dependency, style).Keys <= ALLOWED && SourceMatches(Written(dependency, style), dependency.source)
    ensures Get(Written(dependency, style), "optional") == Get(OptionalKeys(dependency.optional, style), "optional")
    ensures Get(Written(dependency, style), "features") == Get(FeatureKeys(dependency.features, style), "features")
  {
    var base := SourceKeys(dependency.source, style);
    var optional, features := OptionalKeys(dependency.optional, style), FeatureKeys(dependency.features, style);
    SourceKeysMatch(dependency.source, style);
    SourceStillMatches(base, optional, dependency.source);
    SourceStillMatches(base + optional, features, dependency.source);
  }

  /** Every spelling of a description is recognised as it, and as nothing else. */
  lemma WrittenMatchesExactly(a: Dependency, style: Style, b: Dependency)
    requires Lists(style.order, a.features)
    ensures Matches(Table(Written(a, style)), b) <==> SameDeclaration(a, b)
  {
    WrittenKeys(a, style);
    AsStringsOfTexts(style.order);
    assert (set s | s in style.order) == a.features;
    assert Matches(Table(Written(a, style)), a);
    if Matches(Table(Written(a, style)), b) {
      MatcherIsUnambiguous(Table(Written(a, style)), a, b);
    }
  }

  datatype EditError = InvalidInput | TomlConflict
  datatype Outcome = Planned(table: map<string, Item>) | Refused(error: EditError)

  /** `plan_cargo_dependency_transition` on the dependency table, once both descriptions are validated. */
  function Transition(table: map<string, Item>, source: Dependency, target: Dependency): Outcome {
    match (source.source, target.source)
    case (FrameworkRelease(fromRepository, from, fromDefaults), FrameworkRelease(toRepository, to, toDefaults)) =>
      if source.name != target.name || source.optional != target.optional || source.features != target.features
         || fromRepository != toRepository || fromDefaults != toDefaults || from == to
      then Refused(InvalidInput)
      else if source.name !in table || !Matches(table[source.name], source) then Refused(TomlConflict)
      else Planned(table[target.name := Table(Render(target))])
    case (_, _) => Refused(InvalidInput)
  }

  /** The descriptions differ in nothing but the release. */
  ghost predicate NewRelease(source: Dependency, target: Dependency) {
    && source.source.FrameworkRelease? && target.source.FrameworkRelease?
    && target == source.(source := source.source.(release := target.source.release))
    && source.source.release != target.source.release
  }

  /** A transition is planned exactly for a new release of a declaration that is there and matches its source. */
  lemma TransitionExactly(table: map<string, Item>, source: Dependency, target: Dependency)
    ensures Transition(table, source, target) == Refused(InvalidInput) <==> !NewRelease(source, target)
    ensures Transition(table, source, target).Planned? <==>
            NewRelease(source, target) && source.name in table && Matches(table[source.name], source)
  {
  }

  /** However the source release was spelled, it is moved; and nothing that declares something else is. */
  lemma TransitionOfAnySpelling(table: map<string, Item>, declared: Dependency, style: Style, source: Dependency,
                                target: Dependency)
    requires NewRelease(source, target) && Lists(style.order, declared.features)
    requires Get(table, source.name) == Some(Table(Written(declared, style)))
    ensures Transition(table, source, target).Planned? <==> SameDeclaration(declared, source)
  {
    TransitionExactly(table, source, target);
    WrittenMatchesExactly(declared, style, source);
  }

  /** A transition leaves a declaration that matches its target and no longer its source, and cannot be repeated. */
  lemma TransitionMovesTheRelease(table: map<string, Item>, source: Dependency, target: Dependency)
    requires Transition(table, source, target).Planned?
    ensures var after := Transition(table, source, target).table;
            && target.name in after && Matches(after[target.name], target) && !Matches(after[target.name], source)
            && (forall name :: name != target.name ==> Get(after, name) == Get(table, name))
            && Transition(after, source, target) == Refused(TomlConflict)
  {
    RenderMatchesExactly(target, target);
    RenderMatchesExactly(target, source);
  }

  /** Moving a rendered release forward and back restores its declaration. */
  lemma TransitionRoundTrip(table: map<string, Item>, source: Dependency, target: Dependency)
    requires Transition(table, source, target).Planned?
    ensures var after := Transition(table, source, target).table;
            && Transition(after, target, source).Planned?
            && Transition(after, target, source).table == table[source.name := Table(Render(source))]
  {
    RenderMatchesExactly(target, target);
    var after := Transition(table, source, target).table;
    assert after[source.name := Table(Render(source))] == table[source.name := Table(Render(source))];
  }
}
