/** Which snapshots a caller may see, which ones a request selects, and what is published of them. */
module Selection {
  import opened Basics
  import opened Paths

  const MAX_HOST_BYTES := 253

  /** Total size of a backup, standing for the whole summary record. */
  datatype Snapshot = Snapshot(
    time: int,
    id: string,
    hostname: string,
    tags: seq<string>,
    paths: seq<string>,
    summary: Option<int>,
    username: string,
    parent: string,
    tree: string)

  /** One repository's sealed allowlists; an empty list allows everything. */
  datatype Policy = Policy(hosts: seq<string>, tags: seq<string>, paths: seq<string>)

  /** A half-open creation-time interval; either end may be missing. */
  datatype Window = Window(after: Option<int>, before: Option<int>)

  predicate Contains(w: Window, instant: int) {
    && (w.after.Some? ==> w.after.value <= instant)
    && (w.before.Some? ==> instant < w.before.value)
  }

  predicate HostAllowed(hosts: seq<string>, host: string) {
    if host != "" && (|host| > MAX_HOST_BYTES || exists i :: 0 <= i < |host| && IsControl(host[i])) then false
    else hosts == [] || (host != "" && host in hosts)
  }

  /** What the policy promises: the host is one of the allowlist, if there is one, and well formed if it is
      named at all; some tag is allowlisted, if there is a tag allowlist; and some path lies under a root of the
      snapshot and under an allowed path, if there is a path allowlist. */
  ghost predicate Admits(policy: Policy, s: Snapshot) {
    && (policy.hosts == [] || (s.hostname != "" && s.hostname in policy.hosts))
    && |s.hostname| <= 253
    && (forall i :: 0 <= i < |s.hostname| ==> ' ' <= s.hostname[i] && !('\U{7f}' <= s.hostname[i] <= '\U{9f}'))
    && (policy.tags == [] || exists t :: t in s.tags && t in policy.tags)
    && (policy.paths == [] || exists q :: Canonical(q) && UnderSomeRoot(q, s.paths) && UnderSome(q, policy.paths))
  }

  /** The host, tag and path tests of a repository policy. */
  method SnapshotVisible(s: Snapshot, policy: Policy) returns (visible: bool)
    ensures visible == Visible(policy, s)
    ensures CanonicalList(policy.paths) ==> (visible <==> Admits(policy, s))
  {
    if CanonicalList(policy.paths) {
      VisibleIffAdmitted(policy, s);
    }
    if !HostAllowed(policy.hosts, s.hostname) {
      return false;
    }
    if |policy.tags| > 0 {
      var matched := false;
      for i := 0 to |s.tags|
        invariant !matched && forall j :: 0 <= j < i ==> s.tags[j] !in policy.tags
      {
        if s.tags[i] in policy.tags {
          matched := true;
          break;
        }
      }
      if !matched {
        return false;
      }
    }
    if |policy.paths| > 0 {
      var filtered := FilterPaths(s.paths, policy.paths);
      if |filtered| == 0 {
        return false;
      }
    }
    return true;
  }

  predicate Visible(policy: Policy, s: Snapshot) {
    && HostAllowed(policy.hosts, s.hostname)
    && (policy.tags == [] || exists t :: t in s.tags && t in policy.tags)
    && (policy.paths == [] || Distinct(Projections(s.paths, policy.paths)) != [])
  }

  /** The path part of visibility holds exactly when some path lies under a snapshot root and under
      an allowed path. */
  lemma PathVisibilityIsOverlap(policy: Policy, s: Snapshot)
    requires policy.paths != [] && CanonicalList(policy.paths)
    ensures Distinct(Projections(s.paths, policy.paths)) != []
       <==> exists q :: Canonical(q) && UnderSomeRoot(q, s.paths) && UnderSome(q, policy.paths)
  {
    var out := Distinct(Projections(s.paths, policy.paths));
    DistinctKeepsMembers(Projections(s.paths, policy.paths));
    if out != [] {
      ProjectionsMember(s.paths, policy.paths, out[0]);
      ProjectionLiesInBoth(s.paths, policy.paths, out[0]);
    }
    if q :| Canonical(q) && UnderSomeRoot(q, s.paths) && UnderSome(q, policy.paths) {
      FilterPathsIsIntersection(s.paths, policy.paths, q);
    }
  }

  lemma VisibleIffAdmitted(policy: Policy, s: Snapshot)
    requires CanonicalList(policy.paths)
    ensures Visible(policy, s) <==> Admits(policy, s)
  {
    if policy.paths != [] {
      PathVisibilityIsOverlap(policy, s);
    }
  }

  // ---------------------------------------------------------------- request filters

  predicate PathsOverlap(a: string, b: string) {
    PathIsUnderAllow(a, b) || PathIsUnderAllow(b, a)
  }

  predicate MatchesFilters(s: Snapshot, host: string, tags: seq<string>, requestPath: string) {
    && (host != "" ==> s.hostname == host)
    && (forall i :: 0 <= i < |tags| ==> tags[i] in s.tags)
    && (requestPath == "" ||
        (exists i :: 0 <= i < |s.paths| && CleanPath(s.paths[i]).Some? &&
           PathsOverlap(requestPath, CleanPath(s.paths[i]).value)))
  }

  /** A request path selects a snapshot exactly when some path lies under the request and under one of
      the snapshot's roots. */
  lemma RequestSelectsByIntersection(s: Snapshot, requestPath: string)
    requires Canonical(requestPath)
    ensures MatchesFilters(s, "", [], requestPath)
       <==> exists q :: Canonical(q) && PathUnder(q, requestPath) && UnderSomeRoot(q, s.paths)
  {
    if MatchesFilters(s, "", [], requestPath) {
      var i :| 0 <= i < |s.paths| && CleanPath(s.paths[i]).Some?
        && PathsOverlap(requestPath, CleanPath(s.paths[i]).value);
      var root := CleanPath(s.paths[i]).value;
      CleanPathIsCanonical(s.paths[i]);
      ContainmentTestsAgree(requestPath, root);
      ContainmentTestsAgree(root, requestPath);
      var q := if PathUnder(requestPath, root) then requestPath else root;
      assert Canonical(q) && PathUnder(q, requestPath) && PathUnder(q, root);
    }
    if q :| Canonical(q) && PathUnder(q, requestPath) && UnderSomeRoot(q, s.paths) {
      var i :| 0 <= i < |s.paths| && CleanPath(s.paths[i]).Some? && PathUnder(q, CleanPath(s.paths[i]).value);
      var root := CleanPath(s.paths[i]).value;
      CleanPathIsCanonical(s.paths[i]);
      AncestorsAreComparable(q, requestPath, root);
      ContainmentTestsAgree(requestPath, root);
      ContainmentTestsAgree(root, requestPath);
    }
  }

  /** What a request asks for: its host, if it names one, all of its tags, and some path under both its path, if
      it gives one, and a root of the snapshot. */
  ghost predicate Asked(s: Snapshot, host: string, tags: seq<string>, path: string) {
    && (host == "" || s.hostname == host)
    && (forall t :: t in tags ==> t in s.tags)
    && (path == "" || exists q :: Canonical(q) && PathUnder(q, path) && UnderSomeRoot(q, s.paths))
  }

  lemma MatchesIffAsked(s: Snapshot, host: string, tags: seq<string>, path: string)
    requires path == "" || Canonical(path)
    ensures MatchesFilters(s, host, tags, path) <==> Asked(s, host, tags, path)
  {
    if path != "" {
      RequestSelectsByIntersection(s, path);
    }
    assert (forall t :: t in tags ==> t in s.tags) <==> forall i :: 0 <= i < |tags| ==> tags[i] in s.tags;
  }

  /** A listing and its cursor pages filter alike: when one host is allowlisted the cursor carries it as
      a filter that the first page did not apply, and the policy makes the two agree. */
  lemma FirstPageAndCursorFilterAlike(policy: Policy, s: Snapshot, host: string, tags: seq<string>, path: string)
    ensures var carried := if host == "" && |policy.hosts| == 1 then policy.hosts[0] else host;
      (Visible(policy, s) && MatchesFilters(s, host, tags, path))
      <==> (Visible(policy, s) && MatchesFilters(s, carried, tags, path))
  {
    if host == "" && |policy.hosts| == 1 && Visible(policy, s) {
      assert s.hostname in policy.hosts;
    }
  }

  // ---------------------------------------------------------------- publication

  predicate StatsAllowed(policy: Policy, s: Snapshot) {
    if policy.paths == [] then true
    else if s.paths == [] then false
    else forall i :: 0 <= i < |s.paths| ==>
      CleanPath(s.paths[i]).Some? && IsAllowed(policy.paths, CleanPath(s.paths[i]).value)
  }

  function FilterTags(policy: Policy, tags: seq<string>): seq<string> {
    if policy.tags == [] then tags else Filter(tags, t => t in policy.tags)
  }

  /** What is published of a snapshot, before redaction. */
  function PublicSnapshot(policy: Policy, s: Snapshot): Snapshot {
    s.(summary := if StatsAllowed(policy, s) then s.summary else None,
       paths := Distinct(Projections(s.paths, policy.paths)),
       tags := FilterTags(policy, s.tags),
       username := "", parent := "", tree := "")
  }

  /** Some path under a root is not allowed, or a root cannot be read, or there is none. */
  ghost predicate PartlyHidden(policy: Policy, s: Snapshot) {
    || s.paths == []
    || (exists i :: 0 <= i < |s.paths| && CleanPath(s.paths[i]).None?)
    || (exists q :: Canonical(q) && UnderSomeRoot(q, s.paths) && !UnderSome(q, policy.paths))
  }

  /** Whole-snapshot aggregates are kept, under a path allowlist, exactly when the snapshot has roots,
      all of them valid, and every path under every root is allowed. */
  lemma SummaryNeedsFullScope(policy: Policy, s: Snapshot)
    requires CanonicalList(policy.paths)
    ensures StatsAllowed(policy, s) <==> policy.paths == [] || !PartlyHidden(policy, s)
  {
    if policy.paths != [] && StatsAllowed(policy, s) {
      forall q | Canonical(q) && UnderSomeRoot(q, s.paths) ensures UnderSome(q, policy.paths) {
        var i :| 0 <= i < |s.paths| && CleanPath(s.paths[i]).Some? && PathUnder(q, CleanPath(s.paths[i]).value);
        var root := CleanPath(s.paths[i]).value;
        CleanPathIsCanonical(s.paths[i]);
        var j :| 0 <= j < |policy.paths| && PathUnder(root, policy.paths[j]);
        UnderIsTransitive(q, root, policy.paths[j]);
      }
    }
    if policy.paths != [] && !PartlyHidden(policy, s) {
      forall i | 0 <= i < |s.paths| ensures IsAllowed(policy.paths, CleanPath(s.paths[i]).value) {
        CleanPathIsCanonical(s.paths[i]);
        assert PathUnder(CleanPath(s.paths[i]).value, CleanPath(s.paths[i]).value);
        assert UnderSomeRoot(CleanPath(s.paths[i]).value, s.paths);
      }
    }
  }

  /** Publication hides nothing that is allowed and shows nothing else: under a path allowlist the published
      paths cover exactly what lies under a root and under an allowed path, without one they are the cleaned
      roots; exactly the allowlisted tags are published, in order; user, parent and tree are withheld, the
      summary is withheld exactly when part of the snapshot is hidden, and time, id and host are untouched. */
  lemma PublicationStaysInScope(policy: Policy, s: Snapshot)
    requires CanonicalList(policy.paths)
    ensures var p := PublicSnapshot(policy, s);
      && p.time == s.time && p.id == s.id && p.hostname == s.hostname
      && p.username == "" && p.parent == "" && p.tree == ""
      && p.summary == (if policy.paths == [] || !PartlyHidden(policy, s) then s.summary else None)
      && p.tags == Filter(s.tags, (t: string) => policy.tags == [] || t in policy.tags)
      && NoDuplicates(p.paths)
      && (forall i :: 0 <= i < |p.paths| ==>
            UnderSomeRoot(p.paths[i], s.paths) && (policy.paths == [] || UnderSome(p.paths[i], policy.paths)))
      && (policy.paths != [] ==> forall q :: Canonical(q) ==>
            (UnderSome(q, p.paths) <==> UnderSomeRoot(q, s.paths) && UnderSome(q, policy.paths)))
      && (policy.paths == [] ==> forall x :: x in p.paths <==> IsRoot(x, s.paths))
  {
    var p := PublicSnapshot(policy, s);
    SummaryNeedsFullScope(policy, s);
    TagsPublished(policy, s.tags);
    DistinctKeepsMembers(Projections(s.paths, policy.paths));
    forall i | 0 <= i < |p.paths|
      ensures UnderSomeRoot(p.paths[i], s.paths) && (policy.paths == [] || UnderSome(p.paths[i], policy.paths))
    {
      PublishedPathIsInScope(policy, s.paths, p.paths[i]);
    }
    if policy.paths == [] {
      forall x ensures x in p.paths <==> IsRoot(x, s.paths) {
        FilterPathsWithoutAllowlist(s.paths, x);
      }
    } else {
      forall q | Canonical(q)
        ensures UnderSome(q, p.paths) <==> UnderSomeRoot(q, s.paths) && UnderSome(q, policy.paths)
      {
        FilterPathsIsIntersection(s.paths, policy.paths, q);
      }
    }
  }

  lemma PublishedPathIsInScope(policy: Policy, paths: seq<string>, x: string)
    requires CanonicalList(policy.paths) && x in Distinct(Projections(paths, policy.paths))
    ensures UnderSomeRoot(x, paths) && (policy.paths == [] || UnderSome(x, policy.paths))
  {
    DistinctKeepsMembers(Projections(paths, policy.paths));
    ProjectionsMember(paths, policy.paths, x);
    if policy.paths == [] {
      FilterPathsWithoutAllowlist(paths, x);
    } else {
      ProjectionLiesInBoth(paths, policy.paths, x);
    }
  }

  ghost predicate IsRoot(x: string, paths: seq<string>) {
    exists i :: 0 <= i < |paths| && CleanPath(paths[i]) == Some(x)
  }

  lemma TagsPublished(policy: Policy, tags: seq<string>)
    ensures FilterTags(policy, tags) == Filter(tags, (t: string) => policy.tags == [] || t in policy.tags)
  {
    var kept := (t: string) => policy.tags == [] || t in policy.tags;
    if policy.tags == [] {
      FilterAll(tags, kept);
    } else {
      FiltersAgree(tags, t => t in policy.tags, kept);
    }
  }
}
