/** `list_snapshots`: newest-first order, the first page, and continuation by a key in a repository that
    may change before every page. */
module Listing {
  import opened Basics
  import opened Selection

  // ---------------------------------------------------------------- order

  predicate KeyPrecedes(time: int, id: string, time': int, id': string) {
    time > time' || (time == time' && StringLess(id, id'))
  }

  /** Newest first, the id breaking ties. */
  predicate Precedes(a: Snapshot, b: Snapshot) {
    KeyPrecedes(a.time, a.id, b.time, b.id)
  }

  function Parsed(raw: seq<Snapshot>): seq<Snapshot> {
    StableSort(raw, Precedes)
  }

  lemma PrecedesIsOrdering()
    ensures Ordering(Precedes)
  {
    forall x: Snapshot, y: Snapshot | Precedes(x, y) ensures !Precedes(y, x) {
      StringLessIsStrict(x.id, y.id);
    }
    forall x: Snapshot, y: Snapshot, z: Snapshot | !Precedes(y, x) && !Precedes(z, y) ensures !Precedes(z, x) {
      StringNotAfterTransitive(x.id, y.id, z.id);
    }
  }

  lemma PrecedesTransitive(a: Snapshot, b: Snapshot, c: Snapshot)
    requires Precedes(a, b) && Precedes(b, c)
    ensures Precedes(a, c)
  {
    if a.time == b.time == c.time {
      StringLessTransitive(a.id, b.id, c.id);
    }
  }

  ghost predicate StrictlyOrdered(s: seq<Snapshot>) {
    forall i, j :: 0 <= i < j < |s| ==> Precedes(s[i], s[j])
  }

  ghost predicate UniqueIDs(raw: seq<Snapshot>) {
    forall i, j :: 0 <= i < j < |raw| ==> raw[i].id != raw[j].id
  }

  /** The set of snapshots a repository holds: no id twice, no zero timestamp. */
  ghost predicate Repository(raw: seq<Snapshot>) {
    UniqueIDs(raw) && forall i :: 0 <= i < |raw| ==> raw[i].time != 0
  }

  lemma SameIdSameSnapshot(raw: seq<Snapshot>, a: Snapshot, b: Snapshot)
    requires UniqueIDs(raw) && a in raw && b in raw && a.id == b.id
    ensures a == b
  {
    var i :| 0 <= i < |raw| && raw[i] == a;
    var j :| 0 <= j < |raw| && raw[j] == b;
  }

  /** Parsing keeps the snapshots and puts them in strict order. */
  lemma ParsedIsStrict(raw: seq<Snapshot>)
    requires UniqueIDs(raw)
    ensures StrictlyOrdered(Parsed(raw))
    ensures forall i, j :: 0 <= i < j < |Parsed(raw)| ==>
      var a, b := Parsed(raw)[i], Parsed(raw)[j];
      a.time > b.time || (a.time == b.time && StringLess(a.id, b.id))
    ensures forall s :: s in Parsed(raw) <==> s in raw
    ensures multiset(Parsed(raw)) == multiset(raw)
  {
    var p := Parsed(raw);
    PrecedesIsOrdering();
    StableSortSorts(raw, Precedes);
    RearrangementKeepsMembers(raw, p);
    forall i, j | 0 <= i < j < |p| ensures Precedes(p[i], p[j]) {
      assert !Precedes(p[j], p[i]);
      if p[i].id == p[j].id {
        SameIdSameSnapshot(raw, p[i], p[j]);
      }
      StringLessIsStrict(p[i].id, p[j].id);
    }
  }

  // ---------------------------------------------------------------- pages

  /** What the first request fixes for the whole traversal. */
  datatype Query = Query(policy: Policy, window: Window, host: string, tags: seq<string>, path: string)

  predicate Selected(q: Query, s: Snapshot) {
    Contains(q.window, s.time) && Visible(q.policy, s) && MatchesFilters(s, q.host, q.tags, q.path)
  }

  /** What a request asks to be listed, boundary times included: created at or after the lower bound and before
      the upper one, admitted by the policy, and asked for by host, tags and path. */
  ghost predicate Wanted(q: Query, s: Snapshot) {
    && (q.window.after.Some? ==> q.window.after.value <= s.time)
    && (q.window.before.Some? ==> s.time < q.window.before.value)
    && Admits(q.policy, s) && Asked(s, q.host, q.tags, q.path)
  }

  /** Allowed paths and the request path have been cleaned before they are used. */
  ghost predicate Cleaned(q: Query) {
    Paths.CanonicalList(q.policy.paths) && (q.path == "" || Paths.Canonical(q.path))
  }

  lemma SelectedIffWanted(q: Query, s: Snapshot)
    requires Cleaned(q)
    ensures Selected(q, s) <==> Wanted(q, s)
  {
    VisibleIffAdmitted(q.policy, s);
    MatchesIffAsked(s, q.host, q.tags, q.path);
  }

  /** The key of the last snapshot delivered; a zero time stands for no marker. */
  datatype Marker = Marker(time: int, id: string)

  predicate AfterMarker(s: Snapshot, m: Marker) {
    if m.time == 0 then true
    else if s.time < m.time then true
    else s.time == m.time && StringLess(m.id, s.id)
  }

  function MarkerOf(s: Snapshot): Marker {
    Marker(s.time, s.id)
  }

  /** The marker test means "sorts after the marker" exactly when the marker's time is not zero. */
  lemma ZeroTimeIsNoMarker(m: Marker)
    ensures (forall s: Snapshot :: AfterMarker(s, m) <==> KeyPrecedes(m.time, m.id, s.time, s.id)) <==> m.time != 0
  {
    if m.time == 0 {
      var s := Snapshot(0, m.id, "", [], [], None, "", "", "");
      StringLessIsStrict(m.id, m.id);
      assert AfterMarker(s, m) && !KeyPrecedes(m.time, m.id, s.time, s.id);
    }
  }

  /** The selected snapshots that sort after the marker. */
  function Remaining(selected: Snapshot -> bool, raw: seq<Snapshot>, m: Marker): seq<Snapshot> {
    Filter(Parsed(raw), s => selected(s) && AfterMarker(s, m))
  }

  function SelectedBy(q: Query): Snapshot -> bool {
    s => Selected(q, s)
  }

  /** Everything wanted, newest first. */
  ghost function AllWanted(q: Query, raw: seq<Snapshot>): seq<Snapshot> {
    Filter(Parsed(raw), s => Wanted(q, s))
  }

  /** What of it comes behind a marker, newest first; without a time there is no marker. */
  ghost function WantedBehind(q: Query, raw: seq<Snapshot>, m: Marker): seq<Snapshot> {
    Filter(Parsed(raw), s => Wanted(q, s)
      && (m.time == 0 || s.time < m.time || (s.time == m.time && StringLess(m.id, s.id))))
  }

  lemma RemainingIsWanted(q: Query, raw: seq<Snapshot>, m: Marker)
    requires Cleaned(q)
    ensures Remaining(SelectedBy(q), raw, m) == WantedBehind(q, raw, m)
    ensures m.time == 0 ==> Remaining(SelectedBy(q), raw, m) == AllWanted(q, raw)
  {
    var remaining := s => SelectedBy(q)(s) && AfterMarker(s, m);
    var behind := s => Wanted(q, s)
      && (m.time == 0 || s.time < m.time || (s.time == m.time && StringLess(m.id, s.id)));
    forall s: Snapshot ensures SelectedBy(q)(s) <==> Wanted(q, s) {
      SelectedIffWanted(q, s);
    }
    FiltersAgree(Parsed(raw), remaining, behind);
    if m.time == 0 {
      FiltersAgree(Parsed(raw), remaining, s => Wanted(q, s));
    }
  }

  /** A snapshot is on the list exactly when the repository holds it and it is wanted. */
  lemma ListedIffWanted(q: Query, raw: seq<Snapshot>, s: Snapshot)
    ensures s in AllWanted(q, raw) <==> s in raw && Wanted(q, s)
  {
    PrecedesIsOrdering();
    StableSortSorts(raw, Precedes);
    RearrangementKeepsMembers(raw, Parsed(raw));
    FilterMember(Parsed(raw), s => Wanted(q, s), s);
  }

  /** Every published time lies in the half-open window. */
  ghost predicate InWindow(page: seq<Snapshot>, w: Window) {
    forall i :: 0 <= i < |page| ==>
      && (w.after.Some? ==> w.after.value <= page[i].time)
      && (w.before.Some? ==> page[i].time < w.before.value)
  }

  lemma PublishedInWindow(q: Query, raw: seq<Snapshot>, keep: Snapshot -> bool, skip: nat, limit: nat)
    requires forall s :: keep(s) ==> Wanted(q, s)
    ensures InWindow(Publish(q.policy, Take(Drop(Filter(Parsed(raw), keep), skip), limit)), q.window)
  {
    var rest := Drop(Filter(Parsed(raw), keep), skip);
    forall i | 0 <= i < |Take(rest, limit)| ensures Wanted(q, Take(rest, limit)[i]) {
      assert Take(rest, limit)[i] in Filter(Parsed(raw), keep);
      FilterMember(Parsed(raw), keep, Take(rest, limit)[i]);
    }
  }

  lemma PagesAreWanted(q: Query, raw: seq<Snapshot>, m: Marker, skip: nat, limit: nat)
    requires Cleaned(q)
    ensures Remaining(SelectedBy(q), raw, m) == WantedBehind(q, raw, m)
    ensures m.time == 0 ==> Remaining(SelectedBy(q), raw, m) == AllWanted(q, raw)
    ensures InWindow(Publish(q.policy, Take(Drop(WantedBehind(q, raw, m), skip), limit)), q.window)
  {
    RemainingIsWanted(q, raw, m);
    PublishedInWindow(q, raw, s => Wanted(q, s)
      && (m.time == 0 || s.time < m.time || (s.time == m.time && StringLess(m.id, s.id))), skip, limit);
  }

  function Publish(policy: Policy, s: seq<Snapshot>): (r: seq<Snapshot>)
    ensures |r| == |s|
    ensures forall i :: 0 <= i < |s| ==> r[i] == PublicSnapshot(policy, s[i])
  {
    seq(|s|, i requires 0 <= i < |s| => PublicSnapshot(policy, s[i]))
  }

  lemma PublishStep(policy: Policy, s: seq<Snapshot>, x: Snapshot)
    ensures Publish(policy, s + [x]) == Publish(policy, s) + [PublicSnapshot(policy, x)]
  {
  }

  lemma PublishKeepsKey(policy: Policy, s: seq<Snapshot>, i: nat)
    requires i < |s|
    ensures MarkerOf(Publish(policy, s)[i]) == MarkerOf(s[i])
  {
  }

  /** One continuation page, read off a fresh listing. */
  method SnapshotsForCursor(q: Query, raw: seq<Snapshot>, m: Marker, limit: nat) returns (out: seq<Snapshot>,
          more: bool)
    ensures out == Publish(q.policy, Take(Remaining(SelectedBy(q), raw, m), limit))
    ensures more <==> |Remaining(SelectedBy(q), raw, m)| > limit
    ensures Cleaned(q) ==>
      && out == Publish(q.policy, Take(WantedBehind(q, raw, m), limit)) && InWindow(out, q.window)
      && (more <==> |WantedBehind(q, raw, m)| > limit)
  {
    out, more := CollectBehind(q, raw, m, limit);
    if Cleaned(q) {
      PagesAreWanted(q, raw, m, 0, limit);
      assert Drop(WantedBehind(q, raw, m), 0) == WantedBehind(q, raw, m);
    }
  }

  /** The loop of a continuation: filter, pass over what was delivered, stop one beyond the page. */
  method CollectBehind(q: Query, raw: seq<Snapshot>, m: Marker, limit: nat) returns (out: seq<Snapshot>, more: bool)
    ensures out == Publish(q.policy, Take(Remaining(SelectedBy(q), raw, m), limit))
    ensures more <==> |Remaining(SelectedBy(q), raw, m)| > limit
  {
    var snaps := Parsed(raw);
    ghost var keep := (s: Snapshot) => SelectedBy(q)(s) && AfterMarker(s, m);
    ghost var taken: seq<Snapshot> := [];
    out, more := [], false;
    for i := 0 to |snaps|
      invariant taken == Filter(snaps[..i], keep) && |taken| <= limit
      invariant out == Publish(q.policy, taken) && |out| == |taken|
    {
      FilterStep(snaps, i, keep);
      assert keep(snaps[i]) <==> SelectedBy(q)(snaps[i]) && AfterMarker(snaps[i], m);
      if !Contains(q.window, snaps[i].time) || !Visible(q.policy, snaps[i])
        || !MatchesFilters(snaps[i], q.host, q.tags, q.path) {
        continue;
      }
      if !AfterMarker(snaps[i], m) {
        continue;
      }
      if |out| >= limit {
        more := true;
        FilterPrefix(snaps, i + 1, keep);
        assert (taken + [snaps[i]])[..limit] == taken;
        return;
      }
      PublishStep(q.policy, taken, snaps[i]);
      taken := taken + [snaps[i]];
      out := out + [PublicSnapshot(q.policy, snaps[i])];
    }
    assert snaps[..|snaps|] == snaps;
  }

  /** The first request selects everything before it slices. */
  method SelectSnapshots(q: Query, raw: seq<Snapshot>) returns (filtered: seq<Snapshot>)
    ensures filtered == Publish(q.policy, Remaining(SelectedBy(q), raw, Marker(0, "")))
  {
    var snaps := Parsed(raw);
    ghost var keep := (s: Snapshot) => SelectedBy(q)(s) && AfterMarker(s, Marker(0, ""));
    filtered := [];
    ghost var selected: seq<Snapshot> := [];
    for i := 0 to |snaps|
      invariant selected == Filter(snaps[..i], keep)
      invariant filtered == Publish(q.policy, selected)
    {
      FilterStep(snaps, i, keep);
      assert keep(snaps[i]) <==> SelectedBy(q)(snaps[i]) && AfterMarker(snaps[i], Marker(0, ""));
      if !Contains(q.window, snaps[i].time) || !Visible(q.policy, snaps[i])
        || !MatchesFilters(snaps[i], q.host, q.tags, q.path) {
        continue;
      }
      PublishStep(q.policy, selected, snaps[i]);
      selected := selected + [snaps[i]];
      filtered := filtered + [PublicSnapshot(q.policy, snaps[i])];
    }
    assert snaps[..|snaps|] == snaps;
  }

  /** The first page: a slice by offset, and the marker a cursor carries when more is left. */
  method FirstPage(q: Query, raw: seq<Snapshot>, offset: nat, limit: nat)
      returns (page: seq<Snapshot>, total: nat, truncated: bool, cursor: Option<Marker>)
    ensures var selected := Remaining(SelectedBy(q), raw, Marker(0, ""));
      var rest := Drop(selected, offset);
      && total == |selected|
      && page == Publish(q.policy, Take(rest, limit))
      && (truncated <==> |rest| > limit)
      && cursor == (if |rest| > limit > 0 then Some(MarkerOf(rest[limit - 1])) else None)
    ensures Cleaned(q) ==>
      && total == |AllWanted(q, raw)| && InWindow(page, q.window)
      && page == Publish(q.policy, Take(Drop(AllWanted(q, raw), offset), limit))
  {
    var filtered := SelectSnapshots(q, raw);
    page, total, truncated, cursor := Slice(filtered, offset, limit);
    PublishedSlice(q.policy, Remaining(SelectedBy(q), raw, Marker(0, "")), filtered, offset, limit);
    if Cleaned(q) {
      PagesAreWanted(q, raw, Marker(0, ""), offset, limit);
    }
  }

  method Slice(filtered: seq<Snapshot>, offset: nat, limit: nat)
      returns (page: seq<Snapshot>, total: nat, truncated: bool, cursor: Option<Marker>)
    ensures var rest := Drop(filtered, offset);
      && total == |filtered|
      && page == Take(rest, limit)
      && (truncated <==> |rest| > limit)
      && cursor == (if |rest| > limit > 0 then Some(MarkerOf(rest[limit - 1])) else None)
  {
    total := |filtered|;
    var start := if offset > total then total else offset;
    var end := if start + limit > total then total else start + limit;
    page := filtered[start..end];
    truncated := end < total;
    cursor := None;
    if truncated && |page| > 0 {
      cursor := Some(MarkerOf(page[|page| - 1]));
    }
    SliceIsPage(filtered, offset, limit, start, end);
  }

  lemma SliceIsPage<T>(s: seq<T>, offset: nat, limit: nat, start: nat, end: nat)
    requires start == if offset > |s| then |s| else offset
    requires end == if start + limit > |s| then |s| else start + limit
    ensures s[start..end] == Take(Drop(s, offset), limit)
    ensures end < |s| <==> |Drop(s, offset)| > limit
    ensures end < |s| && start < end ==> limit > 0 && Drop(s, offset)[limit - 1] == s[end - 1]
  {
  }

  /** Slicing the published list is publishing the slice, and its last key is that of the snapshot itself. */
  lemma PublishedSlice(policy: Policy, selected: seq<Snapshot>, filtered: seq<Snapshot>, offset: nat, limit: nat)
    requires filtered == Publish(policy, selected)
    ensures |Drop(filtered, offset)| == |Drop(selected, offset)|
    ensures Take(Drop(filtered, offset), limit) == Publish(policy, Take(Drop(selected, offset), limit))
    ensures |Drop(selected, offset)| > limit > 0 ==>
      MarkerOf(Drop(filtered, offset)[limit - 1]) == MarkerOf(Drop(selected, offset)[limit - 1])
  {
    if offset <= |selected| {
      PublishSlice(policy, selected, offset, |selected|);
      PublishSlice(policy, selected[offset..], 0, if limit <= |selected| - offset then limit else |selected| - offset);
      if limit > 0 && offset + limit <= |selected| {
        PublishKeepsKey(policy, selected, offset + limit - 1);
      }
    }
  }

  lemma PublishSlice(policy: Policy, s: seq<Snapshot>, start: nat, end: nat)
    requires start <= end <= |s|
    ensures Publish(policy, s)[start..end] == Publish(policy, s[start..end])
  {
  }

  // ---------------------------------------------------------------- traversal

  /** The snapshots delivered, page by page, and whether the traversal came to its end. */
  datatype Traversal = Traversal(delivered: seq<Snapshot>, done: bool)

  /** The client follows every cursor. Page `i` is read off `listings[i]`, the repository as it is then;
      the first page has offset 0 and no marker. */
  function Traverse(selected: Snapshot -> bool, listings: seq<seq<Snapshot>>, limits: nat -> nat, i: nat,
          m: Marker): Traversal
    requires forall k :: limits(k) >= 1
    decreases |listings| - i
  {
    if i >= |listings| then Traversal([], false)
    else
      var rest := Remaining(selected, listings[i], m);
      var page := Take(rest, limits(i));
      if |rest| > limits(i) then
        var t := Traverse(selected, listings, limits, i + 1, MarkerOf(page[|page| - 1]));
        Traversal(page + t.delivered, t.done)
      else
        Traversal(page, true)
  }

  lemma {:induction false} FilterKeepsOrder(s: seq<Snapshot>, keep: Snapshot -> bool)
    requires StrictlyOrdered(s)
    ensures StrictlyOrdered(Filter(s, keep))
  {
    if s != [] {
      FilterKeepsOrder(s[1..], keep);
      var f := Filter(s[1..], keep);
      forall j | 0 <= j < |f| ensures Precedes(s[0], f[j]) {
        FilterMember(s[1..], keep, f[j]);
        var k :| 0 <= k < |s[1..]| && s[1..][k] == f[j];
        assert Precedes(s[0], s[k + 1]);
      }
    }
  }

  /** What is left after a marker: in strict order, in the listing, selected, and after the marker. */
  lemma RemainingFacts(selected: Snapshot -> bool, raw: seq<Snapshot>, m: Marker)
    requires UniqueIDs(raw)
    ensures StrictlyOrdered(Remaining(selected, raw, m))
    ensures forall s :: s in Remaining(selected, raw, m) <==> s in raw && selected(s) && AfterMarker(s, m)
  {
    var keep := (s: Snapshot) => selected(s) && AfterMarker(s, m);
    ParsedIsStrict(raw);
    FilterKeepsOrder(Parsed(raw), keep);
    forall s ensures s in Remaining(selected, raw, m) <==> s in raw && selected(s) && AfterMarker(s, m) {
      FilterMember(Parsed(raw), keep, s);
    }
  }

  ghost predicate AllRepositories(listings: seq<seq<Snapshot>>) {
    forall k :: 0 <= k < |listings| ==> Repository(listings[k])
  }

  /** `d` is in strict order and holds only selected snapshots that sort after the marker. */
  ghost predicate Continues(selected: Snapshot -> bool, m: Marker, d: seq<Snapshot>) {
    StrictlyOrdered(d) && forall s :: s in d ==> AfterMarker(s, m) && selected(s)
  }

  lemma PageContinues(selected: Snapshot -> bool, raw: seq<Snapshot>, m: Marker, n: nat)
    requires Repository(raw)
    ensures var page := Take(Remaining(selected, raw, m), n);
      Continues(selected, m, page) && forall s :: s in page ==> s.time != 0
  {
    RemainingFacts(selected, raw, m);
    var rest := Remaining(selected, raw, m);
    forall s | s in Take(rest, n) ensures s in rest {
    }
  }

  /** What follows a page continues the traversal the page belongs to. */
  lemma PageAndRest(selected: Snapshot -> bool, m: Marker, page: seq<Snapshot>, t: seq<Snapshot>)
    requires page != [] && Continues(selected, m, page) && page[|page| - 1].time != 0
    requires Continues(selected, MarkerOf(page[|page| - 1]), t)
    ensures Continues(selected, m, page + t)
  {
    var last := page[|page| - 1];
    forall b | b in t ensures Precedes(last, b) && AfterMarker(b, m) {
      assert AfterMarker(b, MarkerOf(last)) && last in page;
      LaterStaysAfter(last, b, m);
    }
    OrderedConcat(page, t);
  }

  /** However the repository changes between pages, a traversal never goes back: what it delivers is in
      strict order, so nothing is delivered twice, and all of it sorts after the marker it started
      from, so a snapshot that sorts before the current marker is never spliced in. */
  lemma {:induction false} TraversalIsOrdered(selected: Snapshot -> bool, listings: seq<seq<Snapshot>>,
          limits: nat -> nat, i: nat, m: Marker)
    requires AllRepositories(listings) && forall k :: limits(k) >= 1
    ensures Continues(selected, m, Traverse(selected, listings, limits, i, m).delivered)
    decreases |listings| - i
  {
    if i < |listings| {
      var rest, n := Remaining(selected, listings[i], m), limits(i);
      var page := Take(rest, n);
      PageContinues(selected, listings[i], m, n);
      if |rest| > n {
        var m' := MarkerOf(page[|page| - 1]);
        TraversalIsOrdered(selected, listings, limits, i + 1, m');
        assert page[|page| - 1] in page;
        PageAndRest(selected, m, page, Traverse(selected, listings, limits, i + 1, m').delivered);
      }
    }
  }

  lemma OrderedConcat(a: seq<Snapshot>, b: seq<Snapshot>)
    requires a != [] && StrictlyOrdered(a) && StrictlyOrdered(b)
    requires forall s :: s in b ==> Precedes(a[|a| - 1], s)
    ensures StrictlyOrdered(a + b)
  {
    var last := a[|a| - 1];
    forall i, j | 0 <= i < |a| && 0 <= j < |b| ensures Precedes(a[i], b[j]) {
      assert b[j] in b;
      if i < |a| - 1 {
        PrecedesTransitive(a[i], last, b[j]);
      }
    }
  }

  lemma LaterStaysAfter(a: Snapshot, b: Snapshot, m: Marker)
    requires AfterMarker(a, m) && Precedes(a, b)
    ensures AfterMarker(b, m)
  {
    if m.time != 0 && a.time == m.time == b.time {
      StringLessTransitive(m.id, a.id, b.id);
    }
  }

  lemma StrictHasNoDuplicates(d: seq<Snapshot>)
    requires StrictlyOrdered(d)
    ensures NoDuplicates(d)
  {
    forall i, j | 0 <= i < j < |d| ensures d[i] != d[j] {
      assert Precedes(d[i], d[j]);
      StringLessIsStrict(d[i].id, d[i].id);
    }
  }

  /** A selected snapshot of the listing that sorts after the marker is on the page or sorts after it. */
  lemma OnPageOrAfter(selected: Snapshot -> bool, raw: seq<Snapshot>, m: Marker, n: nat, s: Snapshot)
    requires Repository(raw) && n >= 1 && s in raw && selected(s) && AfterMarker(s, m)
    ensures var rest := Remaining(selected, raw, m);
      s in Take(rest, n) || (|rest| > n && AfterMarker(s, MarkerOf(rest[n - 1])))
  {
    RemainingFacts(selected, raw, m);
    var rest := Remaining(selected, raw, m);
    var j :| 0 <= j < |rest| && rest[j] == s;
    if j < n {
      assert Take(rest, n)[j] == s;
    } else {
      assert Precedes(rest[n - 1], rest[j]);
    }
  }

  ghost predicate AlwaysListed(listings: seq<seq<Snapshot>>, i: nat, s: Snapshot) {
    forall k :: i <= k < |listings| ==> s in listings[k]
  }

  lemma TraverseEnds(selected: Snapshot -> bool, listings: seq<seq<Snapshot>>, limits: nat -> nat, i: nat, m: Marker,
      rest: seq<Snapshot>)
    requires i < |listings| && forall k :: limits(k) >= 1
    requires rest == Remaining(selected, listings[i], m) && |rest| <= limits(i)
    ensures Traverse(selected, listings, limits, i, m) == Traversal(rest, true)
  {
  }

  lemma TraverseGoesOn(selected: Snapshot -> bool, listings: seq<seq<Snapshot>>, limits: nat -> nat, i: nat, m: Marker,
      rest: seq<Snapshot>)
    requires i < |listings| && forall k :: limits(k) >= 1
    requires rest == Remaining(selected, listings[i], m) && |rest| > limits(i)
    ensures var t := Traverse(selected, listings, limits, i + 1, MarkerOf(rest[limits(i) - 1]));
      Traverse(selected, listings, limits, i, m) == Traversal(Take(rest, limits(i)) + t.delivered, t.done)
  {
  }

  lemma {:induction false} TraversalReaches(selected: Snapshot -> bool, listings: seq<seq<Snapshot>>,
          limits: nat -> nat, i: nat, m: Marker, s: Snapshot)
    requires AllRepositories(listings) && forall k :: limits(k) >= 1
    requires Traverse(selected, listings, limits, i, m).done
    requires selected(s) && AfterMarker(s, m) && AlwaysListed(listings, i, s)
    ensures s in Traverse(selected, listings, limits, i, m).delivered
    decreases |listings| - i
  {
    var rest, n := Remaining(selected, listings[i], m), limits(i);
    OnPageOrAfter(selected, listings[i], m, n, s);
    if |rest| <= n {
      TraverseEnds(selected, listings, limits, i, m, rest);
    } else {
      TraverseGoesOn(selected, listings, limits, i, m, rest);
    }
    if s !in Take(rest, n) {
      TraversalReaches(selected, listings, limits, i + 1, MarkerOf(rest[n - 1]), s);
    }
  }

  /** A snapshot that is visible in every listing is delivered, and only once, by every traversal that
      comes to its end. */
  lemma TraversalIsComplete(selected: Snapshot -> bool, listings: seq<seq<Snapshot>>, limits: nat -> nat, i: nat,
          m: Marker, s: Snapshot)
    requires AllRepositories(listings) && forall k :: limits(k) >= 1
    requires Traverse(selected, listings, limits, i, m).done
    requires selected(s) && AfterMarker(s, m) && AlwaysListed(listings, i, s)
    ensures var d := Traverse(selected, listings, limits, i, m).delivered;
      s in d && NoDuplicates(d)
  {
    TraversalReaches(selected, listings, limits, i, m, s);
    TraversalIsOrdered(selected, listings, limits, i, m);
    StrictHasNoDuplicates(Traverse(selected, listings, limits, i, m).delivered);
  }

  ghost predicate Unchanging(listings: seq<seq<Snapshot>>, raw: seq<Snapshot>) {
    forall k :: 0 <= k < |listings| ==> listings[k] == raw
  }

  lemma PageEndsNonZero(selected: Snapshot -> bool, raw: seq<Snapshot>, m: Marker, n: nat)
    requires Repository(raw) && 1 <= n <= |Remaining(selected, raw, m)|
    ensures Remaining(selected, raw, m)[n - 1].time != 0
  {
    RemainingFacts(selected, raw, m);
    assert Remaining(selected, raw, m)[n - 1] in raw;
  }

  /** In a repository the rest of a page is what a continuation finds. */
  lemma NextRemaining(selected: Snapshot -> bool, raw: seq<Snapshot>, m: Marker, n: nat, rest: seq<Snapshot>)
    requires Repository(raw) && rest == Remaining(selected, raw, m) && 1 <= n < |rest|
    ensures Remaining(selected, raw, MarkerOf(rest[n - 1])) == rest[n..]
  {
    PageEndsNonZero(selected, raw, m, n);
    RemainingAdvances(selected, raw, m, n);
  }

  lemma FixedGoesOn(selected: Snapshot -> bool, raw: seq<Snapshot>, listings: seq<seq<Snapshot>>, limits: nat -> nat,
          i: nat,
      m: Marker, rest: seq<Snapshot>)
    requires i < |listings| && listings[i] == raw && forall k :: limits(k) >= 1
    requires rest == Remaining(selected, raw, m) && |rest| > limits(i)
    requires Traverse(selected, listings, limits, i + 1, MarkerOf(rest[limits(i) - 1]))
        == Traversal(rest[limits(i)..], true)
    ensures Traverse(selected, listings, limits, i, m) == Traversal(rest, true)
  {
    TraverseGoesOn(selected, listings, limits, i, m, rest);
    TakeAndRest(rest, limits(i));
  }

  lemma {:induction false} FixedTraversal(selected: Snapshot -> bool, raw: seq<Snapshot>, listings: seq<seq<Snapshot>>,
      limits: nat -> nat, i: nat, m: Marker, rest: seq<Snapshot>)
    requires Repository(raw) && Unchanging(listings, raw) && forall k :: limits(k) >= 1
    requires rest == Remaining(selected, raw, m) && i + |rest| < |listings|
    ensures Traverse(selected, listings, limits, i, m) == Traversal(rest, true)
    decreases |listings| - i
  {
    assert listings[i] == raw;
    if |rest| > limits(i) {
      NextRemaining(selected, raw, m, limits(i), rest);
      FixedTraversal(selected, raw, listings, limits, i + 1, MarkerOf(rest[limits(i) - 1]), rest[limits(i)..]);
      FixedGoesOn(selected, raw, listings, limits, i, m, rest);
    } else {
      TraverseEnds(selected, listings, limits, i, m, rest);
    }
  }

  /** In a repository that does not change, a traversal of enough pages ends and delivers exactly the
      selected snapshots, newest first. */
  lemma FixedRepositoryIsListedWhole(selected: Snapshot -> bool, raw: seq<Snapshot>, listings: seq<seq<Snapshot>>,
      limits: nat -> nat, i: nat, m: Marker)
    requires Repository(raw) && Unchanging(listings, raw) && forall k :: limits(k) >= 1
    requires i + |Remaining(selected, raw, m)| < |listings|
    ensures Traverse(selected, listings, limits, i, m) == Traversal(Remaining(selected, raw, m), true)
  {
    FixedTraversal(selected, raw, listings, limits, i, m, Remaining(selected, raw, m));
  }

  /** So a client that follows every cursor of a request is shown a snapshot exactly when the repository holds it
      and the request wants it. */
  lemma ExactlyTheWantedAreDelivered(q: Query, raw: seq<Snapshot>, listings: seq<seq<Snapshot>>, limits: nat -> nat,
          s: Snapshot)
    requires Cleaned(q) && Repository(raw) && Unchanging(listings, raw) && |raw| < |listings|
    requires forall k :: limits(k) >= 1
    ensures var t := Traverse(SelectedBy(q), listings, limits, 0, Marker(0, ""));
      t.done && NoDuplicates(t.delivered) && (s in t.delivered <==> s in raw && Wanted(q, s))
  {
    var m := Marker(0, "");
    RemainingIsWanted(q, raw, m);
    RemainingIsShorter(SelectedBy(q), raw, m);
    FixedRepositoryIsListedWhole(SelectedBy(q), raw, listings, limits, 0, m);
    RemainingFacts(SelectedBy(q), raw, m);
    StrictHasNoDuplicates(Remaining(SelectedBy(q), raw, m));
    ListedIffWanted(q, raw, s);
  }

  lemma RemainingIsShorter(selected: Snapshot -> bool, raw: seq<Snapshot>, m: Marker)
    ensures |Remaining(selected, raw, m)| <= |raw|
  {
    PrecedesIsOrdering();
    StableSortSorts(raw, Precedes);
    assert |Parsed(raw)| == |multiset(Parsed(raw))| == |raw|;
    FilterIsShorter(Parsed(raw), s => selected(s) && AfterMarker(s, m));
  }

  lemma TakeAndRest(rest: seq<Snapshot>, n: nat)
    requires n < |rest|
    ensures Take(rest, n) + rest[n..] == rest && |rest[n..]| == |rest| - n
  {
  }

  /** Moving the marker to the last snapshot of a page leaves what the page left. */
  lemma RemainingAdvances(selected: Snapshot -> bool, raw: seq<Snapshot>, m: Marker, n: nat)
    requires UniqueIDs(raw) && 1 <= n < |Remaining(selected, raw, m)|
    requires Remaining(selected, raw, m)[n - 1].time != 0
    ensures Remaining(selected, raw, MarkerOf(Remaining(selected, raw, m)[n - 1])) == Remaining(selected, raw, m)[n..]
  {
    var rest := Remaining(selected, raw, m);
    var last := rest[n - 1];
    RemainingFacts(selected, raw, m);
    RemainingFacts(selected, raw, MarkerOf(last));
    var next := Remaining(selected, raw, MarkerOf(last));
    assert last in rest;
    StringLessIsStrict(last.id, last.id);
    assert StrictlyOrdered(rest[n..]);
    forall s ensures s in next <==> s in rest[n..] {
      if s in next {
        LaterStaysAfter(last, s, m);
        var k :| 0 <= k < |rest| && rest[k] == s;
        if k < n - 1 {
          assert Precedes(s, last) && Precedes(last, s);
          PrecedesTransitive(s, last, s);
          StringLessIsStrict(s.id, s.id);
          assert false;
        }
        assert k >= n;
        assert s == rest[n..][k - n];
      }
      if s in rest[n..] {
        var k :| 0 <= k < |rest[n..]| && rest[n..][k] == s;
        assert Precedes(last, rest[n + k]);
        assert s in rest;
      }
    }
    SameMembersSameOrder(next, rest[n..]);
  }

  /** A continuation goes on where its page ended exactly when the last snapshot of the page has a
      non-zero time. Otherwise its cursor carries no marker and the listing starts over. */
  lemma ContinuationAdvances(selected: Snapshot -> bool, raw: seq<Snapshot>, m: Marker, n: nat)
    requires UniqueIDs(raw) && 1 <= n < |Remaining(selected, raw, m)|
    ensures var rest := Remaining(selected, raw, m);
      Remaining(selected, raw, MarkerOf(rest[n - 1])) == rest[n..] <==> rest[n - 1].time != 0
  {
    var rest := Remaining(selected, raw, m);
    if rest[n - 1].time != 0 {
      RemainingAdvances(selected, raw, m, n);
    } else {
      ListingStartsOver(selected, raw, m, MarkerOf(rest[n - 1]), n);
    }
  }

  lemma ListingStartsOver(selected: Snapshot -> bool, raw: seq<Snapshot>, m: Marker, zero: Marker, n: nat)
    requires UniqueIDs(raw) && 1 <= n < |Remaining(selected, raw, m)| && zero.time == 0
    ensures var first := Remaining(selected, raw, m)[0];
      first in Remaining(selected, raw, zero) && first !in Remaining(selected, raw, m)[n..]
  {
    var rest := Remaining(selected, raw, m);
    RemainingFacts(selected, raw, m);
    RemainingFacts(selected, raw, zero);
    assert rest[0] in rest;
    forall k | n <= k < |rest| ensures rest[k] != rest[0] {
      assert Precedes(rest[0], rest[k]);
      StringLessIsStrict(rest[0].id, rest[0].id);
    }
  }

  lemma ZeroTimesRemain(selected: Snapshot -> bool, a: Snapshot, b: Snapshot, m: Marker)
    requires a.time == 0 && b.time == 0 && StringLess(a.id, b.id) && selected(a) && selected(b) && m.time == 0
    ensures Remaining(selected, [a, b], m) == [a, b]
  {
    StringLessIsStrict(a.id, b.id);
    assert [a, b][1..] == [b] && [b][1..] == [];
    assert StableSort([b][1..], Precedes) == [];
    assert Insert(b, [], Precedes) == [b];
    assert StableSort([b], Precedes) == [b];
    assert !Precedes(b, a) && Insert(a, [b], Precedes) == [a, b];
    FilterAll([a, b], s => selected(s) && AfterMarker(s, m));
  }

  lemma OneMore(a: Snapshot, d: seq<Snapshot>)
    requires forall k :: 0 <= k < |d| ==> d[k] == a
    ensures |[a] + d| == |d| + 1 && forall k :: 0 <= k < |[a] + d| ==> ([a] + d)[k] == a
  {
  }

  /** Two snapshots with zero times, listed one per page: every page is the first snapshot again, the second is
      never delivered, and the listing does not end. */
  lemma {:induction false} ZeroTimesRepeat(selected: Snapshot -> bool, a: Snapshot, b: Snapshot,
          listings: seq<seq<Snapshot>>, limits: nat -> nat, i: nat, m: Marker)
    requires a.time == 0 && b.time == 0 && StringLess(a.id, b.id) && selected(a) && selected(b) && m.time == 0
    requires Unchanging(listings, [a, b]) && (forall k :: limits(k) == 1) && i <= |listings|
    ensures var t := Traverse(selected, listings, limits, i, m);
      !t.done && |t.delivered| == |listings| - i && forall k :: 0 <= k < |t.delivered| ==> t.delivered[k] == a
    decreases |listings| - i
  {
    if i < |listings| {
      assert listings[i] == [a, b];
      ZeroTimesRemain(selected, a, b, m);
      TraverseGoesOn(selected, listings, limits, i, m, [a, b]);
      ZeroTimesRepeat(selected, a, b, listings, limits, i + 1, MarkerOf(a));
      OneMore(a, Traverse(selected, listings, limits, i + 1, MarkerOf(a)).delivered);
      assert Take([a, b], 1) == [a];
    }
  }

  lemma {:induction false} SameMembersSameOrder(a: seq<Snapshot>, b: seq<Snapshot>)
    requires StrictlyOrdered(a) && StrictlyOrdered(b) && forall s :: s in a <==> s in b
    ensures a == b
  {
    if a == [] {
      HasMember(b);
    } else {
      assert a[0] in b && b[0] in b;
      var i :| 0 <= i < |b| && b[i] == a[0];
      var j :| 0 <= j < |a| && a[j] == b[0];
      if i > 0 && j > 0 {
        assert Precedes(b[0], b[i]) && Precedes(a[0], a[j]);
        PrecedesTransitive(a[0], b[0], a[0]);
        StringLessIsStrict(a[0].id, a[0].id);
        assert false;
      }
      StringLessIsStrict(a[0].id, a[0].id);
      assert a[0] == b[0];
      forall s ensures s in a[1..] <==> s in b[1..] {
        TailMembers(a, s);
        TailMembers(b, s);
      }
      SameMembersSameOrder(a[1..], b[1..]);
    }
  }

  lemma HasMember(b: seq<Snapshot>)
    ensures b != [] ==> b[0] in b
  {
  }

  lemma TailMembers(a: seq<Snapshot>, s: Snapshot)
    requires StrictlyOrdered(a) && a != []
    ensures s in a[1..] <==> s in a && s != a[0]
  {
    StringLessIsStrict(a[0].id, a[0].id);
    if s in a[1..] {
      var k :| 0 <= k < |a[1..]| && a[1..][k] == s;
      assert Precedes(a[0], a[k + 1]);
    }
  }
}
