/** Ownership over path segments: what the textual prefix tests of claims and owners mean. */
module OwnershipPaths {
  import opened Content
  import opened SourceOwnership
  import Installation

  // ---- Segments ----

  /** The segments of a path put together again. */
  function Joined(parts: seq<string>): string
    requires parts != []
  {
    if |parts| == 1 then parts[0] else parts[0] + "/" + Joined(parts[1..])
  }

  ghost predicate NoSlashes(parts: seq<string>) {
    forall part :: part in parts ==> '/' !in part
  }

  /** A path is its segments joined by slashes. */
  lemma {:induction false} SegmentsJoin(path: string)
    ensures Segments(path) != [] && Joined(Segments(path)) == path && NoSlashes(Segments(path))
    decreases |path|
  {
    if '/' in path {
      var i := FirstSlash(path);
      var head, rest := path[..i], path[i + 1..];
      SegmentsJoin(rest);
      assert Segments(path)[1..] == Segments(rest);
      assert path == head + "/" + rest;
    }
  }

  lemma {:induction false} FirstSlashAt(head: string, rest: string)
    requires '/' !in head
    ensures '/' in head + "/" + rest && FirstSlash(head + "/" + rest) == |head|
  {
    var path := head + "/" + rest;
    assert path[|head|] == '/';
    if head != [] {
      assert path[0] == head[0] && path[1..] == head[1..] + "/" + rest;
      FirstSlashAt(head[1..], rest);
    }
  }

  lemma SlashIsFirst(head: string, rest: string)
    requires '/' !in head
    ensures Segments(head + "/" + rest) == [head] + Segments(rest)
  {
    var path := head + "/" + rest;
    FirstSlashAt(head, rest);
    assert path[..|head|] == head && path[|head| + 1..] == rest;
  }

  /** Any parts without slashes are the segments of the path they make. */
  lemma {:induction false} JoinedSegments(parts: seq<string>)
    requires parts != [] && NoSlashes(parts)
    ensures Segments(Joined(parts)) == parts
  {
    if |parts| > 1 {
      JoinedSegments(parts[1..]);
      SlashIsFirst(parts[0], Joined(parts[1..]));
      assert parts == [parts[0]] + parts[1..];
    }
  }

  lemma {:induction false} SegmentsAppend(path: string, rest: string)
    ensures Segments(path + "/" + rest) == Segments(path) + Segments(rest)
    decreases |path|
  {
    if '/' in path {
      var i := FirstSlash(path);
      var head, tail := path[..i], path[i + 1..];
      assert path + "/" + rest == head + "/" + (tail + "/" + rest);
      SlashIsFirst(head, tail + "/" + rest);
      SegmentsAppend(tail, rest);
    } else {
      SlashIsFirst(path, rest);
    }
  }

  lemma SegmentsDetermine(a: string, b: string)
    requires Segments(a) == Segments(b)
    ensures a == b
  {
    SegmentsJoin(a);
    SegmentsJoin(b);
  }

  // ---- The prefix tests ----

  /** Below means: the root, a slash, and something more. */
  lemma BelowExactly(path: string, root: string)
    ensures Below(path, root) <==> exists rest :: path == root + "/" + rest
  {
    if Below(path, root) {
      assert path == root + "/" + path[|root| + 1..];
    }
  }

  lemma BelowIsTransitive(a: string, b: string, c: string)
    requires Below(a, b) && Below(b, c)
    ensures Below(a, c)
  {
  }

  /** A path is at or above another exactly if its segments are the first segments of the other. */
  lemma AboveIsPrefix(ancestor: string, path: string)
    ensures AtOrAbove(ancestor, path) <==> Segments(ancestor) <= Segments(path)
  {
    BelowExactly(path, ancestor);
    if Below(path, ancestor) {
      var rest :| path == ancestor + "/" + rest;
      SegmentsAppend(ancestor, rest);
    }
    if Segments(ancestor) <= Segments(path) {
      PrefixIsAbove(ancestor, path);
    }
  }

  lemma PrefixIsAbove(ancestor: string, path: string)
    requires Segments(ancestor) <= Segments(path)
    ensures AtOrAbove(ancestor, path)
  {
    var n := |Segments(ancestor)|;
    var tail := Segments(path)[n..];
    assert Segments(path) == Segments(ancestor) + tail;
    SegmentsJoin(path);
    if tail == [] {
      SegmentsDetermine(ancestor, path);
    } else {
      JoinedSegments(tail);
      SegmentsAppend(ancestor, Joined(tail));
      SegmentsDetermine(path, ancestor + "/" + Joined(tail));
    }
  }

  /** Two paths overlap exactly if the segments of one begin with those of the other. */
  lemma OverlapIsPrefix(left: string, right: string)
    ensures Overlap(left, right) <==> Segments(left) <= Segments(right) || Segments(right) <= Segments(left)
  {
    AboveIsPrefix(left, right);
    AboveIsPrefix(right, left);
  }

  /** A valid path is a short enough spelling of nonempty plain segments, none of them one dot or two. */
  lemma ValidPathExactly(path: string)
    ensures ValidPath(path) <==> 0 < |path| <= 4096 && exists parts :: Spells(parts, path)
  {
    if ValidPath(path) {
      SegmentsJoin(path);
      forall i | 0 <= i < |Segments(path)| ensures PlainSegment(Segments(path)[i]) {
        SegmentExactly(Segments(path)[i]);
      }
      assert Spells(Segments(path), path);
    }
    if 0 < |path| <= 4096 && exists parts :: Spells(parts, path) {
      var parts :| Spells(parts, path);
      forall i | 0 <= i < |parts| ensures ValidSegment(parts[i]) && '/' !in parts[i] {
        SegmentExactly(parts[i]);
      }
      JoinedSegments(parts);
    }
  }

  ghost predicate Spells(parts: seq<string>, path: string) {
    parts != [] && Joined(parts) == path && forall i :: 0 <= i < |parts| ==> PlainSegment(parts[i])
  }

  /** Letters, digits, dots, hyphens and underscores, but not the names of the directory and its parent. */
  ghost predicate PlainSegment(part: string) {
    && 0 < |part| <= 255 && part != "." && part != ".."
    && forall c :: c in part ==> 'a' <= c <= 'z' || 'A' <= c <= 'Z' || '0' <= c <= '9' || c in {'-', '_', '.'}
  }

  lemma SegmentExactly(part: string)
    ensures ValidSegment(part) <==> PlainSegment(part)
    ensures PlainSegment(part) ==> '/' !in part
  {
    if PlainSegment(part) {
      forall i | 0 <= i < |part| ensures SegmentChar(part[i]) {
        assert part[i] in part;
      }
    }
  }

  /** Lower-case letters and digits with single hyphens between them, beginning with a letter. */
  ghost predicate HyphenatedName(s: string) {
    && s != [] && 'a' <= s[0] <= 'z' && s[|s| - 1] != '-'
    && (forall c :: c in s ==> 'a' <= c <= 'z' || '0' <= c <= '9' || c == '-')
    && (forall i :: 0 < i < |s| ==> s[i - 1] != '-' || s[i] != '-')
  }

  lemma ComponentIdExactly(s: string)
    ensures ValidComponentId(s) <==> HyphenatedName(s)
  {
    if ValidComponentId(s) {
      assert ComponentCharAt(s, |s| - 1);
      forall i | 0 < i < |s| ensures s[i - 1] != '-' || s[i] != '-' {
        assert ComponentCharAt(s, i);
      }
      forall c | c in s ensures 'a' <= c <= 'z' || '0' <= c <= '9' || c == '-' {
        var i :| 0 <= i < |s| && s[i] == c;
        assert ComponentCharAt(s, i);
      }
    }
    if HyphenatedName(s) {
      forall i | 0 <= i < |s| ensures ComponentCharAt(s, i) {
        assert s[i] in s;
      }
    }
  }

  /** A claim is well-formed exactly if its path is valid and it names a valid integration just if it is managed. */
  lemma ClaimExactly(c: Claim)
    ensures ClaimError(c).None? <==>
            && ValidPath(c.path) && (c.class_ == ManagedIntegration <==> c.integration.Some?)
            && (c.integration.Some? ==> |c.integration.value| <= 128 && ValidComponentId(c.integration.value))
    ensures ClaimError(c) == Some(InvalidOwnershipPath) <==> !ValidPath(c.path)
    ensures ClaimError(c) == Some(InvalidOwnershipClaim) <==>
            ValidPath(c.path) && (c.class_ == ManagedIntegration <==> c.integration.None?)
  {
  }

  // ---- Claims and retirements by segments ----

  /** The claims whose segments begin a path's are a single claim, or all integrations of one identical path. */
  lemma ClaimsOnAPrefix(o: Ownership, path: string, i: nat, j: nat)
    requires Valid(o) && i < |o.claims| && j < |o.claims|
    requires Segments(o.claims[i].path) <= Segments(path) && Segments(o.claims[j].path) <= Segments(path)
    ensures i == j || (o.claims[i].path == o.claims[j].path
                       && o.claims[i].class_ == o.claims[j].class_ == ManagedIntegration)
  {
    AboveIsPrefix(o.claims[i].path, path);
    AboveIsPrefix(o.claims[j].path, path);
    ClaimsAboveAPath(o, path, i, j);
  }

  /** A claim whose segments begin the path's, or are begun by them, is of the retirement's own class and path. */
  lemma RetirementByPrefix(o: Ownership, path: string, integration: string, j: nat)
    requires RetirementAccepted(o, path, integration) && j < |o.claims|
    requires Segments(o.claims[j].path) <= Segments(path) || Segments(path) <= Segments(o.claims[j].path)
    ensures o.claims[j].path == path && o.claims[j].class_ == ManagedIntegration
  {
    OverlapIsPrefix(o.claims[j].path, path);
    RetirementStaysInsideItsClaim(o, path, integration, j);
  }

  /** Two claims of which one's segments begin the other's are refused, unless both are integrations of one path. */
  lemma NestedClaimsAreRefused(o: Ownership, i: nat, j: nat)
    requires i < |o.claims| && j < |o.claims| && i != j
    requires Segments(o.claims[i].path) <= Segments(o.claims[j].path)
    requires o.claims[i].path != o.claims[j].path || o.claims[i].class_ != ManagedIntegration
             || o.claims[j].class_ != ManagedIntegration
    ensures !Valid(o)
  {
    OverlapIsPrefix(o.claims[i].path, o.claims[j].path);
    if i < j {
      assert !Compatible(o.claims[i], o.claims[j]);
    } else {
      assert !Compatible(o.claims[j], o.claims[i]);
    }
  }

  /** A canonical owner owns its own file, or exactly what lies under its directory. */
  lemma OwnsExactly(owner: Installation.Owner, path: string)
    ensures Installation.Owns(owner, path) <==>
            if owner.WorkspaceManifest? || owner.ApplicationManifest? then path == Installation.Root(owner)
            else exists rest :: path == Installation.Root(owner) + "/" + rest
  {
    BelowExactly(path, Installation.Root(owner));
  }
}
