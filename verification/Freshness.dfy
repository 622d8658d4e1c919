/** The freshness summary: visible snapshots grouped by host (and tags), each group's latest snapshot and
    whether it is overdue. */
module Freshness {
  import opened Basics
  import opened Selection
  import Listing

  const NANOSECONDS := 1_000_000_000

  datatype Group = Group(
    key: string,
    hostname: string,
    tags: seq<string>,
    latestID: string,
    latestTime: int,
    count: nat,
    partialPaths: bool,
    ageSeconds: int,
    overdue: Option<bool>)

  datatype Status = NoVisibleSnapshots | Incomplete | RecencyOnly | Overdue | WithinCadence

  datatype Summary = Summary(groups: seq<Group>, partialPaths: bool, status: Status)

  /** Hostname, or hostname and sorted tags. */
  function GroupKey(s: Snapshot, byTag: bool): string {
    if byTag then s.hostname + "|" + JoinWith(SortedTags(s), ',') else s.hostname
  }

  function SortedTags(s: Snapshot): seq<string> {
    StableSort(s.tags, StringLess)
  }

  function Age(observed: int, time: int): int {
    if observed < time then 0 else observed - time
  }

  /** The snapshots of one group, in list order. */
  function Members(snapshots: seq<Snapshot>, byTag: bool, key: string): seq<Snapshot> {
    Filter(snapshots, s => GroupKey(s, byTag) == key)
  }

  /** What the summary says about a group with these members. */
  function GroupOf(key: string, members: seq<Snapshot>, partialIDs: set<string>, cadence: int, observed: int): Group
    requires members != []
  {
    var latest := members[0];
    var age := Age(observed, latest.time);
    Group(key, latest.hostname, SortedTags(latest), latest.id, latest.time, |members|, latest.id in partialIDs,
          age / NANOSECONDS, if cadence > 0 then Some(age > cadence) else None)
  }

  ghost predicate KeysIncrease(groups: seq<Group>) {
    forall i, j :: 0 <= i < j < |groups| ==> StringLess(groups[i].key, groups[j].key)
  }

  /** The groups a summary must hold: one for every key that occurs, in key order. */
  ghost predicate Summarizes(groups: seq<Group>, snapshots: seq<Snapshot>, byTag: bool, partialIDs: set<string>,
          cadence: int, observed: int) {
    && KeysIncrease(groups)
    && (forall i :: 0 <= i < |groups| ==>
          && Members(snapshots, byTag, groups[i].key) != []
          && groups[i]
             == GroupOf(groups[i].key, Members(snapshots, byTag, groups[i].key), partialIDs, cadence, observed))
    && (forall s :: s in snapshots ==> exists i :: 0 <= i < |groups| && groups[i].key == GroupKey(s, byTag))
  }

  // ---------------------------------------------------------------- keys

  /** Parsing a snapshot rejects empty tags. */
  predicate TagsNonEmpty(tags: seq<string>) {
    forall i :: 0 <= i < |tags| ==> tags[i] != ""
  }

  /** Host and tags that the separators of the key cannot blur. */
  predicate Separable(s: Snapshot) {
    '|' !in s.hostname && TagsNonEmpty(s.tags) && forall i :: 0 <= i < |s.tags| ==> ',' !in s.tags[i]
  }

  /** The tags cut at every comma: all that joining them with commas keeps. */
  function Pieces(tags: seq<string>): seq<string> {
    if tags == [] then [] else SplitOn(tags[0], ',') + Pieces(tags[1..])
  }

  function JoinedTags(s: Snapshot): string {
    JoinWith(SortedTags(s), ',')
  }

  /** The host of `s` is the host of `t`, a bar, and what the joined tags of `t` have in front of those of `s`. */
  predicate HostTakesTags(s: Snapshot, t: Snapshot) {
    var n := |t.hostname|;
    && n < |s.hostname| && s.hostname[..n + 1] == t.hostname + "|"
    && JoinedTags(t) == s.hostname[n + 1..] + "|" + JoinedTags(s)
  }

  lemma {:induction false} SplitOfJoin(tags: seq<string>)
    requires tags != []
    ensures SplitOn(JoinWith(tags, ','), ',') == Pieces(tags)
  {
    if |tags| > 1 {
      SplitOfJoin(tags[1..]);
      SplitAtSeparator(tags[0], ',', JoinWith(tags[1..], ','));
    } else {
      assert Pieces(tags[1..]) == [];
    }
  }

  lemma {:induction false} FreePieces(tags: seq<string>)
    requires forall i :: 0 <= i < |tags| ==> ',' !in tags[i]
    ensures Pieces(tags) == tags
  {
    if tags != [] {
      SplitWithoutSeparator(tags[0], ',');
      FreePieces(tags[1..]);
    }
  }

  /** Joining non-empty tags keeps their pieces and nothing else. */
  lemma JoinKeepsPieces(a: seq<string>, b: seq<string>)
    requires TagsNonEmpty(a) && TagsNonEmpty(b)
    ensures JoinWith(a, ',') == JoinWith(b, ',') <==> Pieces(a) == Pieces(b)
  {
    if a != [] && b != [] {
      SplitOfJoin(a);
      SplitOfJoin(b);
      JoinUndoesSplit(JoinWith(a, ','), ',');
      JoinUndoesSplit(JoinWith(b, ','), ',');
    } else {
      assert a != [] ==> JoinWith(a, ',') != "" && Pieces(a) != [];
      assert b != [] ==> JoinWith(b, ',') != "" && Pieces(b) != [];
    }
  }

  lemma SortedTagsAreTags(s: Snapshot)
    requires TagsNonEmpty(s.tags)
    ensures TagsNonEmpty(SortedTags(s))
    ensures forall i :: 0 <= i < |SortedTags(s)| ==> SortedTags(s)[i] in s.tags
  {
    TagOrder();
    StableSortSorts(s.tags, StringLess);
    RearrangementKeepsMembers(s.tags, SortedTags(s));
    forall i | 0 <= i < |SortedTags(s)| ensures SortedTags(s)[i] in s.tags {
      assert SortedTags(s)[i] in SortedTags(s);
    }
  }

  lemma TagOrder()
    ensures Ordering(StringLess)
  {
    forall x: string, y: string, z: string
      ensures StringLess(x, y) ==> !StringLess(y, x)
      ensures !StringLess(y, x) && !StringLess(z, y) ==> !StringLess(z, x)
    {
      StringNotAfterTransitive(x, y, z);
    }
  }

  /** Two ways to read one string as something, a bar and the rest: the one with the longer front has the other
      front, a bar, and part of the other rest in front of its own. */
  lemma BarReadings(a: string, b: string, a': string, b': string)
    requires a + "|" + b == a' + "|" + b' && |a'| < |a|
    ensures a[..|a'| + 1] == a' + "|" && b' == a[|a'| + 1..] + "|" + b
  {
    var x, n := a + "|" + b, |a'|;
    assert x[..n + 1] == a[..n + 1];
    assert (a' + "|" + b')[..n + 1] == a' + "|";
    assert x[n + 1..] == a[n + 1..] + "|" + b;
    assert (a' + "|" + b')[n + 1..] == b';
  }

  lemma SameFront(a: string, b: string, a': string, b': string)
    requires a + "|" + b == a' + "|" + b' && |a| == |a'|
    ensures a == a' && b == b'
  {
    var x, n := a + "|" + b, |a|;
    assert a == x[..n] == (a' + "|" + b')[..n] == a';
    assert b == x[n + 1..] == (a' + "|" + b')[n + 1..] == b';
  }

  lemma TakenTagsJoin(s: Snapshot, t: Snapshot)
    requires HostTakesTags(s, t)
    ensures GroupKey(s, true) == GroupKey(t, true) && '|' in s.hostname && s.hostname != t.hostname
  {
    var n := |t.hostname|;
    var x := s.hostname[n + 1..];
    assert (t.hostname + "|")[n] == '|';
    assert s.hostname[..n + 1][n] == s.hostname[n];
    assert s.hostname == t.hostname + "|" + x;
    assert t.hostname + "|" + (x + "|" + JoinedTags(s)) == (t.hostname + "|" + x) + "|" + JoinedTags(s);
  }

  /** Grouped by host and tags, two snapshots share a group exactly when they have the same host and the same
      pieces of tags, or the host of one of them spells the other host, a bar, and the tags it has more. */
  lemma GroupSharedIff(s: Snapshot, t: Snapshot)
    requires TagsNonEmpty(s.tags) && TagsNonEmpty(t.tags)
    ensures GroupKey(s, true) == GroupKey(t, true)
       <==> || (s.hostname == t.hostname && Pieces(SortedTags(s)) == Pieces(SortedTags(t)))
            || HostTakesTags(s, t) || HostTakesTags(t, s)
  {
    SortedTagsAreTags(s);
    SortedTagsAreTags(t);
    JoinKeepsPieces(SortedTags(s), SortedTags(t));
    if HostTakesTags(s, t) {
      TakenTagsJoin(s, t);
    } else if HostTakesTags(t, s) {
      TakenTagsJoin(t, s);
    } else if GroupKey(s, true) == GroupKey(t, true) {
      if |t.hostname| < |s.hostname| {
        BarReadings(s.hostname, JoinedTags(s), t.hostname, JoinedTags(t));
      } else if |s.hostname| < |t.hostname| {
        BarReadings(t.hostname, JoinedTags(t), s.hostname, JoinedTags(s));
      } else {
        SameFront(s.hostname, JoinedTags(s), t.hostname, JoinedTags(t));
      }
    }
  }

  /** While no host contains the bar, they share one exactly when host and pieces of tags agree. */
  lemma KeyNamesHostAndPieces(s: Snapshot, t: Snapshot)
    requires TagsNonEmpty(s.tags) && TagsNonEmpty(t.tags) && '|' !in s.hostname && '|' !in t.hostname
    ensures GroupKey(s, true) == GroupKey(t, true)
       <==> s.hostname == t.hostname && Pieces(SortedTags(s)) == Pieces(SortedTags(t))
  {
    GroupSharedIff(s, t);
    if HostTakesTags(s, t) {
      TakenTagsJoin(s, t);
    } else if HostTakesTags(t, s) {
      TakenTagsJoin(t, s);
    }
  }

  /** While no tag contains a comma either, exactly when host and tags agree. */
  lemma KeyNamesHostAndTags(s: Snapshot, t: Snapshot)
    requires Separable(s) && Separable(t)
    ensures GroupKey(s, true) == GroupKey(t, true) <==> s.hostname == t.hostname && SortedTags(s) == SortedTags(t)
  {
    SortedTagsAreTags(s);
    SortedTagsAreTags(t);
    FreePieces(SortedTags(s));
    FreePieces(SortedTags(t));
    KeyNamesHostAndPieces(s, t);
  }

  /** Grouped by host alone, they share one exactly when the hosts are the same. */
  lemma HostKeyNamesHost(s: Snapshot, t: Snapshot)
    ensures GroupKey(s, false) == GroupKey(t, false) <==> s.hostname == t.hostname
  {
  }

  /** The comma blurs the tags: one tag "x,y", and the two tags "x" and "y". */
  lemma TagsCanCollide(s: Snapshot)
    ensures GroupKey(s.(tags := ["x,y"]), true) == GroupKey(s.(tags := ["x", "y"]), true)
    ensures SortedTags(s.(tags := ["x,y"])) != SortedTags(s.(tags := ["x", "y"]))
  {
    assert ["x,y"][1..] == [] && ["x", "y"][1..] == ["y"] && ["y"][1..] == [];
    assert StableSort(["x,y"], StringLess) == ["x,y"];
    assert StableSort(["y"], StringLess) == ["y"];
    assert !StringLess("y", "x");
    assert StableSort(["x", "y"], StringLess) == ["x", "y"];
    assert "x" + "," + "y" == "x,y";
    assert JoinWith(["x", "y"], ',') == "x,y" && JoinWith(["x,y"], ',') == "x,y";
  }

  /** The bar blurs host and tags: host "a|b" with the tag "c", and host "a" with the tag "b|c". */
  lemma HostsCanCollide(s: Snapshot)
    ensures GroupKey(s.(hostname := "a|b", tags := ["c"]), true) == GroupKey(s.(hostname := "a", tags := ["b|c"]), true)
  {
    assert ["c"][1..] == [] && ["b|c"][1..] == [];
    assert StableSort(["c"], StringLess) == ["c"] && StableSort(["b|c"], StringLess) == ["b|c"];
    assert "a|b" + "|" + "c" == "a" + "|" + "b|c";
  }

  // ---------------------------------------------------------------- the loops

  /** The first loop: one accumulator per key, opened by the key's first snapshot. */
  ghost predicate Accumulated(groups: map<string, Group>, snapshots: seq<Snapshot>, byTag: bool,
          partialIDs: set<string>) {
    && (forall s :: s in snapshots ==> GroupKey(s, byTag) in groups)
    && (forall k :: k in groups ==> IsAccumulator(groups[k], k, Members(snapshots, byTag, k), partialIDs))
  }

  predicate IsAccumulator(g: Group, key: string, members: seq<Snapshot>, partialIDs: set<string>) {
    members != [] && g == Group(key, members[0].hostname, SortedTags(members[0]), members[0].id, members[0].time,
                                |members|, members[0].id in partialIDs, 0, None)
  }

  lemma MembersStep(snapshots: seq<Snapshot>, i: nat, byTag: bool, key: string)
    requires i < |snapshots|
    ensures Members(snapshots[..i + 1], byTag, key)
         == Members(snapshots[..i], byTag, key) + if GroupKey(snapshots[i], byTag) == key then [snapshots[i]] else []
  {
    FilterStep(snapshots, i, s => GroupKey(s, byTag) == key);
  }

  lemma NoMembers(snapshots: seq<Snapshot>, byTag: bool, key: string)
    requires forall s :: s in snapshots ==> GroupKey(s, byTag) != key
    ensures Members(snapshots, byTag, key) == []
  {
    var members := Members(snapshots, byTag, key);
    if members != [] {
      FilterMember(snapshots, s => GroupKey(s, byTag) == key, members[0]);
    }
  }

  /** What one snapshot does to the accumulators. */
  function Counted(groups: map<string, Group>, s: Snapshot, key: string, partialIDs: set<string>): map<string, Group> {
    if key in groups then groups[key := groups[key].(count := groups[key].count + 1)]
    else groups[key := Group(key, s.hostname, SortedTags(s), s.id, s.time, 1, s.id in partialIDs, 0, None)]
  }

  lemma AccumulatorAfter(before: map<string, Group>, snapshots: seq<Snapshot>, i: nat, byTag: bool,
          partialIDs: set<string>, k: string)
    requires i < |snapshots| && Accumulated(before, snapshots[..i], byTag, partialIDs)
    requires k in Counted(before, snapshots[i], GroupKey(snapshots[i], byTag), partialIDs)
    ensures IsAccumulator(Counted(before, snapshots[i], GroupKey(snapshots[i], byTag), partialIDs)[k], k,
                          Members(snapshots[..i + 1], byTag, k), partialIDs)
  {
    MembersStep(snapshots, i, byTag, k);
    if k in before {
      assert IsAccumulator(before[k], k, Members(snapshots[..i], byTag, k), partialIDs);
    } else {
      NoMembers(snapshots[..i], byTag, k);
    }
  }

  /** One snapshot more: its group is opened or counted up, the others stay as they are. */
  lemma AccumulateStep(before: map<string, Group>, snapshots: seq<Snapshot>, i: nat, byTag: bool,
          partialIDs: set<string>)
    requires i < |snapshots| && Accumulated(before, snapshots[..i], byTag, partialIDs)
    ensures Accumulated(Counted(before, snapshots[i], GroupKey(snapshots[i], byTag), partialIDs),
                        snapshots[..i + 1], byTag, partialIDs)
  {
    var after := Counted(before, snapshots[i], GroupKey(snapshots[i], byTag), partialIDs);
    forall s | s in snapshots[..i + 1] ensures GroupKey(s, byTag) in after {
      assert s == snapshots[i] || s in snapshots[..i];
    }
    forall k | k in after ensures IsAccumulator(after[k], k, Members(snapshots[..i + 1], byTag, k), partialIDs) {
      AccumulatorAfter(before, snapshots, i, byTag, partialIDs, k);
    }
  }

  ghost predicate AnyPartial(snapshots: seq<Snapshot>, partialIDs: set<string>) {
    exists s :: s in snapshots && s.id in partialIDs
  }

  lemma AnyPartialStep(snapshots: seq<Snapshot>, i: nat, partialIDs: set<string>)
    requires i < |snapshots|
    ensures AnyPartial(snapshots[..i + 1], partialIDs)
       <==> AnyPartial(snapshots[..i], partialIDs) || snapshots[i].id in partialIDs
  {
    assert snapshots[..i + 1] == snapshots[..i] + [snapshots[i]];
    assert snapshots[i] in snapshots[..i + 1];
  }

  method Count(before: map<string, Group>, s: Snapshot, key: string,
          partialIDs: set<string>) returns (groups: map<string, Group>)
    ensures groups == Counted(before, s, key, partialIDs)
  {
    groups := before;
    if key !in groups {
      groups := groups[key := Group(key, s.hostname, SortedTags(s), s.id, s.time, 0, s.id in partialIDs, 0, None)];
    }
    groups := groups[key := groups[key].(count := groups[key].count + 1)];
  }

  /** What the first loop knows after `i` snapshots. */
  ghost predicate Seen(groups: map<string, Group>, partialPaths: bool, snapshots: seq<Snapshot>, i: nat, byTag: bool,
          partialIDs: set<string>)
    requires i <= |snapshots|
  {
    && Accumulated(groups, snapshots[..i], byTag, partialIDs)
    && (partialPaths <==> AnyPartial(snapshots[..i], partialIDs))
  }

  method CountNext(before: map<string, Group>, partialBefore: bool, snapshots: seq<Snapshot>, i: nat, byTag: bool,
          partialIDs: set<string>)
      returns (groups: map<string, Group>, partialPaths: bool)
    requires i < |snapshots| && Seen(before, partialBefore, snapshots, i, byTag, partialIDs)
    ensures Seen(groups, partialPaths, snapshots, i + 1, byTag, partialIDs)
  {
    AccumulateStep(before, snapshots, i, byTag, partialIDs);
    AnyPartialStep(snapshots, i, partialIDs);
    groups := Count(before, snapshots[i], GroupKey(snapshots[i], byTag), partialIDs);
    partialPaths := partialBefore;
    if snapshots[i].id in partialIDs {
      partialPaths := true;
    }
  }

  method Accumulate(snapshots: seq<Snapshot>, byTag: bool,
          partialIDs: set<string>) returns (groups: map<string, Group>, partialPaths: bool)
    ensures Seen(groups, partialPaths, snapshots, |snapshots|, byTag, partialIDs)
  {
    groups, partialPaths := map[], false;
    for i := 0 to |snapshots|
      invariant Seen(groups, partialPaths, snapshots, i, byTag, partialIDs)
    {
      groups, partialPaths := CountNext(groups, partialPaths, snapshots, i, byTag, partialIDs);
    }
  }

  function Judged(g: Group, cadence: int, observed: int): Group {
    var age := Age(observed, g.latestTime);
    if cadence > 0 then g.(ageSeconds := age / NANOSECONDS, overdue := Some(age > cadence))
    else g.(ageSeconds := age / NANOSECONDS)
  }

  ghost predicate AnyOverdue(groups: seq<Group>) {
    exists i :: 0 <= i < |groups| && groups[i].overdue == Some(true)
  }

  ghost predicate HasKey(groups: seq<Group>, k: string) {
    exists i :: 0 <= i < |groups| && groups[i].key == k
  }

  ghost predicate DistinctKeys(groups: seq<Group>) {
    forall i, j :: 0 <= i < j < |groups| ==> groups[i].key != groups[j].key
  }

  ghost predicate KeyedByKey(accumulators: map<string, Group>) {
    forall k :: k in accumulators ==> accumulators[k].key == k && accumulators[k].overdue == None
  }

  /** One judged group for every accumulator outside `rest`, in any order. */
  ghost predicate JudgedOutside(groups: seq<Group>, accumulators: map<string, Group>, rest: set<string>, cadence: int,
          observed: int) {
    && DistinctKeys(groups)
    && (forall i :: 0 <= i < |groups| ==>
          && groups[i].key in accumulators && groups[i].key !in rest
          && groups[i] == Judged(accumulators[groups[i].key], cadence, observed))
    && (forall k :: k in accumulators && k !in rest ==> HasKey(groups, k))
  }

  lemma JudgeStep(groups: seq<Group>, accumulators: map<string, Group>, rest: set<string>, cadence: int,
          observed: int, k: string)
    requires KeyedByKey(accumulators) && JudgedOutside(groups, accumulators, rest, cadence, observed)
    requires k in rest && k in accumulators
    ensures var group := Judged(accumulators[k], cadence, observed);
      && JudgedOutside(groups + [group], accumulators, rest - {k}, cadence, observed)
      && (AnyOverdue(groups + [group]) <==> AnyOverdue(groups) || group.overdue == Some(true))
  {
    var group := Judged(accumulators[k], cadence, observed);
    var after := groups + [group];
    assert after[|groups|] == group;
    assert forall i :: 0 <= i < |groups| ==> after[i] == groups[i];
    forall k' | k' in accumulators && k' !in rest - {k} ensures HasKey(after, k') {
      if k' != k {
        assert HasKey(groups, k');
        var i :| 0 <= i < |groups| && groups[i].key == k';
        assert after[i].key == k';
      }
    }
  }

  /** The second loop: ages and judgements, the map visited in any order. */
  method Judge(accumulators: map<string, Group>, cadence: int, observed: int) returns (groups: seq<Group>,
          overdue: bool)
    requires KeyedByKey(accumulators)
    ensures JudgedOutside(groups, accumulators, {}, cadence, observed)
    ensures overdue <==> AnyOverdue(groups)
  {
    groups, overdue := [], false;
    var rest := accumulators.Keys;
    while rest != {}
      invariant rest <= accumulators.Keys
      invariant JudgedOutside(groups, accumulators, rest, cadence, observed)
      invariant overdue <==> AnyOverdue(groups)
      decreases rest
    {
      var k :| k in rest;
      JudgeStep(groups, accumulators, rest, cadence, observed, k);
      rest := rest - {k};
      var group := accumulators[k];
      var age := observed - group.latestTime;
      if age < 0 {
        age := 0;
      }
      group := group.(ageSeconds := age / NANOSECONDS);
      if cadence > 0 {
        group := group.(overdue := Some(age > cadence));
        if age > cadence {
          overdue := true;
        }
      }
      groups := groups + [group];
    }
  }

  function StatusOf(groups: seq<Group>, incomplete: bool, cadence: int, overdue: bool): Status {
    if groups == [] then NoVisibleSnapshots
    else if incomplete then Incomplete
    else if cadence == 0 then RecencyOnly
    else if overdue then Overdue
    else WithinCadence
  }

  predicate KeyLess(a: Group, b: Group) {
    StringLess(a.key, b.key)
  }

  lemma AccumulatorsAreKeyed(accumulators: map<string, Group>, snapshots: seq<Snapshot>, byTag: bool,
          partialIDs: set<string>)
    requires Accumulated(accumulators, snapshots, byTag, partialIDs)
    ensures KeyedByKey(accumulators)
  {
    forall k | k in accumulators ensures accumulators[k].key == k && accumulators[k].overdue == None {
      assert IsAccumulator(accumulators[k], k, Members(snapshots, byTag, k), partialIDs);
    }
  }

  /** A judged accumulator is the summary of its group. */
  lemma JudgedIsGroup(g: Group, key: string, members: seq<Snapshot>, partialIDs: set<string>, cadence: int,
          observed: int)
    requires IsAccumulator(g, key, members, partialIDs)
    ensures Judged(g, cadence, observed) == GroupOf(key, members, partialIDs, cadence, observed)
  {
  }

  lemma SortedSummarizes(accumulators: map<string, Group>, groups: seq<Group>, sorted: seq<Group>,
                         snapshots: seq<Snapshot>, byTag: bool, partialIDs: set<string>, cadence: int, observed: int)
    requires Accumulated(accumulators, snapshots, byTag, partialIDs)
    requires JudgedOutside(groups, accumulators, {}, cadence, observed)
    requires KeysIncrease(sorted) && forall g :: g in sorted <==> g in groups
    ensures Summarizes(sorted, snapshots, byTag, partialIDs, cadence, observed)
  {
    forall i | 0 <= i < |sorted|
      ensures Members(snapshots, byTag, sorted[i].key) != []
      ensures sorted[i]
           == GroupOf(sorted[i].key, Members(snapshots, byTag, sorted[i].key), partialIDs, cadence, observed)
    {
      assert sorted[i] in groups;
      var k := sorted[i].key;
      assert IsAccumulator(accumulators[k], k, Members(snapshots, byTag, k), partialIDs);
      JudgedIsGroup(accumulators[k], k, Members(snapshots, byTag, k), partialIDs, cadence, observed);
    }
    forall s | s in snapshots ensures exists i :: 0 <= i < |sorted| && sorted[i].key == GroupKey(s, byTag) {
      assert HasKey(groups, GroupKey(s, byTag));
      var i :| 0 <= i < |groups| && groups[i].key == GroupKey(s, byTag);
      assert groups[i] in sorted;
    }
  }

  // ---------------------------------------------------------------- what the status means

  ghost predicate NewestFirst(snapshots: seq<Snapshot>) {
    forall i, j :: 0 <= i < j < |snapshots| ==> snapshots[i].time >= snapshots[j].time
  }

  /** Every snapshot with this key is older than the cadence. */
  ghost predicate AllOlder(snapshots: seq<Snapshot>, byTag: bool, key: string, cadence: int, observed: int) {
    forall t :: t in snapshots && GroupKey(t, byTag) == key ==> observed - t.time > cadence
  }

  /** Some snapshot with this key is not. */
  ghost predicate SomeRecent(snapshots: seq<Snapshot>, byTag: bool, key: string, cadence: int, observed: int) {
    exists t :: t in snapshots && GroupKey(t, byTag) == key && observed - t.time <= cadence
  }

  /** Some group has only snapshots that are older than the cadence. */
  ghost predicate SomeGroupIsLate(snapshots: seq<Snapshot>, byTag: bool, cadence: int, observed: int) {
    exists s :: s in snapshots && AllOlder(snapshots, byTag, GroupKey(s, byTag), cadence, observed)
  }

  /** What a status says about the snapshots, on a newest-first list. */
  ghost predicate StatusSays(status: Status, snapshots: seq<Snapshot>, byTag: bool, cadence: int, incomplete: bool,
          observed: int) {
    && (status == NoVisibleSnapshots <==> snapshots == [])
    && (status == Incomplete <==> snapshots != [] && incomplete)
    && (status == RecencyOnly <==> snapshots != [] && !incomplete && cadence == 0)
    && (status == Overdue <==>
          snapshots != [] && !incomplete && cadence > 0 && SomeGroupIsLate(snapshots, byTag, cadence, observed))
    && (status == WithinCadence <==>
          && snapshots != [] && !incomplete && cadence > 0
          && forall s :: s in snapshots ==> SomeRecent(snapshots, byTag, GroupKey(s, byTag), cadence, observed))
  }

  lemma {:induction false} FirstKeptIsNewest(snapshots: seq<Snapshot>, keep: Snapshot -> bool)
    requires NewestFirst(snapshots)
    ensures var kept := Filter(snapshots, keep);
      kept != [] ==>
        && kept[0] in snapshots && keep(kept[0])
        && (forall t :: t in snapshots && keep(t) ==> t.time <= kept[0].time)
  {
    if snapshots != [] {
      FirstKeptIsNewest(snapshots[1..], keep);
      FilterMember(snapshots, keep, snapshots[0]);
      forall t | t in snapshots ensures t.time <= snapshots[0].time && (t == snapshots[0] || t in snapshots[1..]) {
        var k :| 0 <= k < |snapshots| && snapshots[k] == t;
        assert k > 0 ==> snapshots[1..][k - 1] == t;
      }
    }
  }

  lemma OverdueMeansAllOlder(groups: seq<Group>, snapshots: seq<Snapshot>, byTag: bool, partialIDs: set<string>,
          cadence: int, observed: int, i: nat)
    requires Summarizes(groups, snapshots, byTag, partialIDs, cadence, observed) && NewestFirst(snapshots)
    requires i < |groups| && cadence > 0
    ensures groups[i].overdue == Some(true) <==> AllOlder(snapshots, byTag, groups[i].key, cadence, observed)
  {
    FirstKeptIsNewest(snapshots, s => GroupKey(s, byTag) == groups[i].key);
  }

  ghost predicate KeyOccurs(snapshots: seq<Snapshot>, byTag: bool, key: string) {
    exists s :: s in snapshots && GroupKey(s, byTag) == key
  }

  /** The keys of the groups are the keys of the snapshots. */
  ghost predicate SameKeys(groups: seq<Group>, snapshots: seq<Snapshot>, byTag: bool) {
    && (forall i :: 0 <= i < |groups| ==> KeyOccurs(snapshots, byTag, groups[i].key))
    && (forall s :: s in snapshots ==> HasKey(groups, GroupKey(s, byTag)))
  }

  lemma SummaryHasSameKeys(groups: seq<Group>, snapshots: seq<Snapshot>, byTag: bool, partialIDs: set<string>,
          cadence: int, observed: int)
    requires Summarizes(groups, snapshots, byTag, partialIDs, cadence, observed)
    ensures SameKeys(groups, snapshots, byTag)
  {
    forall i | 0 <= i < |groups| ensures KeyOccurs(snapshots, byTag, groups[i].key) {
      var members := Members(snapshots, byTag, groups[i].key);
      FilterMember(snapshots, s => GroupKey(s, byTag) == groups[i].key, members[0]);
    }
  }

  lemma NoKeysNoSnapshots(groups: seq<Group>, snapshots: seq<Snapshot>, byTag: bool)
    requires SameKeys(groups, snapshots, byTag)
    ensures groups == [] <==> snapshots == []
  {
    assert groups != [] ==> KeyOccurs(snapshots, byTag, groups[0].key);
    if snapshots != [] {
      assert snapshots[0] in snapshots;
      assert HasKey(groups, GroupKey(snapshots[0], byTag));
    }
  }

  lemma OverdueSomewhere(groups: seq<Group>, snapshots: seq<Snapshot>, byTag: bool, late: string -> bool)
    requires SameKeys(groups, snapshots, byTag)
    requires forall i :: 0 <= i < |groups| ==> (groups[i].overdue == Some(true) <==> late(groups[i].key))
    ensures AnyOverdue(groups) <==> exists s :: s in snapshots && late(GroupKey(s, byTag))
  {
    if i :| 0 <= i < |groups| && groups[i].overdue == Some(true) {
      assert KeyOccurs(snapshots, byTag, groups[i].key);
    }
    if s :| s in snapshots && late(GroupKey(s, byTag)) {
      assert HasKey(groups, GroupKey(s, byTag));
    }
  }

  lemma AnyOverdueIsSomeGroupLate(groups: seq<Group>, snapshots: seq<Snapshot>, byTag: bool, partialIDs: set<string>,
          cadence: int, observed: int)
    requires Summarizes(groups, snapshots, byTag, partialIDs, cadence, observed) && NewestFirst(snapshots)
    requires cadence > 0
    ensures AnyOverdue(groups) <==> SomeGroupIsLate(snapshots, byTag, cadence, observed)
  {
    var late := (k: string) => AllOlder(snapshots, byTag, k, cadence, observed);
    SummaryHasSameKeys(groups, snapshots, byTag, partialIDs, cadence, observed);
    forall i | 0 <= i < |groups| ensures groups[i].overdue == Some(true) <==> late(groups[i].key) {
      OverdueMeansAllOlder(groups, snapshots, byTag, partialIDs, cadence, observed, i);
    }
    OverdueSomewhere(groups, snapshots, byTag, late);
  }

  lemma RecentOrAllOlder(snapshots: seq<Snapshot>, byTag: bool, key: string, cadence: int, observed: int)
    ensures SomeRecent(snapshots, byTag, key, cadence, observed)
       <==> !AllOlder(snapshots, byTag, key, cadence, observed)
  {
  }

  lemma NoGroupIsLate(snapshots: seq<Snapshot>, byTag: bool, cadence: int, observed: int)
    ensures !SomeGroupIsLate(snapshots, byTag, cadence, observed)
       <==> forall s :: s in snapshots ==> SomeRecent(snapshots, byTag, GroupKey(s, byTag), cadence, observed)
  {
    forall s | s in snapshots
      ensures SomeRecent(snapshots, byTag, GroupKey(s, byTag), cadence, observed)
         <==> !AllOlder(snapshots, byTag, GroupKey(s, byTag), cadence, observed)
    {
      RecentOrAllOlder(snapshots, byTag, GroupKey(s, byTag), cadence, observed);
    }
  }

  lemma StatusOfSays(groups: seq<Group>, overdue: bool, snapshots: seq<Snapshot>, byTag: bool, cadence: int,
          incomplete: bool, observed: int)
    requires cadence >= 0 && (groups == [] <==> snapshots == [])
    requires cadence > 0 ==> (overdue <==> SomeGroupIsLate(snapshots, byTag, cadence, observed))
    ensures StatusSays(StatusOf(groups, incomplete, cadence, overdue), snapshots, byTag, cadence, incomplete, observed)
  {
    NoGroupIsLate(snapshots, byTag, cadence, observed);
  }

  lemma StatusMeans(groups: seq<Group>, snapshots: seq<Snapshot>, byTag: bool, partialIDs: set<string>,
          cadence: int, incomplete: bool, observed: int)
    requires Summarizes(groups, snapshots, byTag, partialIDs, cadence, observed) && NewestFirst(snapshots)
    requires cadence >= 0
    ensures StatusSays(StatusOf(groups, incomplete, cadence, AnyOverdue(groups)), snapshots, byTag, cadence,
                       incomplete, observed)
  {
    SummaryHasSameKeys(groups, snapshots, byTag, partialIDs, cadence, observed);
    NoKeysNoSnapshots(groups, snapshots, byTag);
    if cadence > 0 {
      AnyOverdueIsSomeGroupLate(groups, snapshots, byTag, partialIDs, cadence, observed);
    }
    StatusOfSays(groups, AnyOverdue(groups), snapshots, byTag, cadence, incomplete, observed);
  }

  method BuildFreshness(snapshots: seq<Snapshot>, partialIDs: set<string>, byTag: bool, cadence: int,
          incomplete: bool, observed: int)
      returns (summary: Summary)
    requires cadence >= 0
    ensures Summarizes(summary.groups, snapshots, byTag, partialIDs, cadence, observed)
    ensures summary.partialPaths <==> exists s :: s in snapshots && s.id in partialIDs
    ensures summary.status == StatusOf(summary.groups, incomplete, cadence, AnyOverdue(summary.groups))
    ensures NewestFirst(snapshots) ==>
      StatusSays(summary.status, snapshots, byTag, cadence, incomplete, observed)
  {
    var accumulators, partialPaths := Accumulate(snapshots, byTag, partialIDs);
    assert snapshots[..|snapshots|] == snapshots;
    AccumulatorsAreKeyed(accumulators, snapshots, byTag, partialIDs);
    var groups, overdue := Judge(accumulators, cadence, observed);
    var sorted := StableSort(groups, KeyLess);
    SortedGroups(groups, sorted);
    SortedSummarizes(accumulators, groups, sorted, snapshots, byTag, partialIDs, cadence, observed);
    OverdueAfterSorting(groups, sorted);
    summary := Summary(sorted, partialPaths, StatusOf(sorted, incomplete, cadence, overdue));
    if NewestFirst(snapshots) {
      StatusMeans(sorted, snapshots, byTag, partialIDs, cadence, incomplete, observed);
    }
  }

  lemma KeyOrder()
    ensures Ordering(KeyLess)
  {
    forall x: Group, y: Group, z: Group
      ensures KeyLess(x, y) ==> !KeyLess(y, x)
      ensures !KeyLess(y, x) && !KeyLess(z, y) ==> !KeyLess(z, x)
    {
      StringNotAfterTransitive(x.key, y.key, z.key);
    }
  }

  /** Sorting groups with distinct keys puts them in strictly increasing key order. */
  lemma SortedGroups(groups: seq<Group>, sorted: seq<Group>)
    requires sorted == StableSort(groups, KeyLess)
    requires DistinctKeys(groups)
    ensures KeysIncrease(sorted) && forall g :: g in sorted <==> g in groups
  {
    KeyOrder();
    StableSortSorts(groups, KeyLess);
    RearrangementKeepsMembers(groups, sorted);
    forall i, j | 0 <= i < j < |sorted| ensures StringLess(sorted[i].key, sorted[j].key) {
      assert !KeyLess(sorted[j], sorted[i]);
      StringLessIsStrict(sorted[i].key, sorted[j].key);
      if sorted[i].key == sorted[j].key {
        SameKeySameGroup(groups, sorted[i], sorted[j]);
      }
    }
  }

  lemma SameKeySameGroup(groups: seq<Group>, a: Group, b: Group)
    requires DistinctKeys(groups)
    requires a in groups && b in groups && a.key == b.key
    ensures a == b
  {
    var i :| 0 <= i < |groups| && groups[i] == a;
    var j :| 0 <= j < |groups| && groups[j] == b;
  }

  lemma OverdueAfterSorting(groups: seq<Group>, sorted: seq<Group>)
    requires forall g :: g in sorted <==> g in groups
    ensures AnyOverdue(groups) <==> AnyOverdue(sorted)
  {
    if i :| 0 <= i < |groups| && groups[i].overdue == Some(true) {
      assert groups[i] in sorted;
    }
    if i :| 0 <= i < |sorted| && sorted[i].overdue == Some(true) {
      assert sorted[i] in groups;
    }
  }

  // ---------------------------------------------------------------- what the summary means

  /** The summary is determined by its input: whatever order the map was visited in, there is only one
      sequence of groups that summarizes the snapshots. */
  lemma SummaryIsUnique(a: seq<Group>, b: seq<Group>, snapshots: seq<Snapshot>, byTag: bool, partialIDs: set<string>,
          cadence: int, observed: int)
    requires Summarizes(a, snapshots, byTag, partialIDs, cadence, observed)
    requires Summarizes(b, snapshots, byTag, partialIDs, cadence, observed)
    ensures a == b
  {
    forall g ensures g in a ==> g in b {
      if g in a {
        SummaryContains(a, b, g, snapshots, byTag, partialIDs, cadence, observed);
      }
    }
    forall g ensures g in b ==> g in a {
      if g in b {
        SummaryContains(b, a, g, snapshots, byTag, partialIDs, cadence, observed);
      }
    }
    IncreasingIsUnique(a, b);
  }

  lemma SummaryContains(a: seq<Group>, b: seq<Group>, g: Group, snapshots: seq<Snapshot>, byTag: bool,
          partialIDs: set<string>, cadence: int, observed: int)
    requires Summarizes(a, snapshots, byTag, partialIDs, cadence, observed)
    requires Summarizes(b, snapshots, byTag, partialIDs, cadence, observed)
    requires g in a
    ensures g in b
  {
    var members := Members(snapshots, byTag, g.key);
    FilterMember(snapshots, s => GroupKey(s, byTag) == g.key, members[0]);
    var i :| 0 <= i < |b| && b[i].key == GroupKey(members[0], byTag);
    assert b[i] == g;
  }

  lemma {:induction false} IncreasingIsUnique(a: seq<Group>, b: seq<Group>)
    requires KeysIncrease(a) && KeysIncrease(b) && forall g :: g in a <==> g in b
    ensures a == b
  {
    HasFirst(a);
    HasFirst(b);
    if a != [] {
      var i :| 0 <= i < |b| && b[i] == a[0];
      var j :| 0 <= j < |a| && a[j] == b[0];
      StringLessIsStrict(a[0].key, b[0].key);
      assert a[0] == b[0];
      forall g ensures g in a[1..] <==> g in b[1..] {
        RestMembers(a, g);
        RestMembers(b, g);
      }
      IncreasingIsUnique(a[1..], b[1..]);
    }
  }

  lemma HasFirst(a: seq<Group>)
    ensures a != [] ==> a[0] in a
  {
  }

  lemma RestMembers(a: seq<Group>, g: Group)
    requires KeysIncrease(a) && a != []
    ensures g in a[1..] <==> g in a && g != a[0]
  {
    StringLessIsStrict(a[0].key, a[0].key);
    if g in a[1..] {
      var k :| 0 <= k < |a[1..]| && a[1..][k] == g;
      assert StringLess(a[0].key, a[k + 1].key);
    }
  }

  function TotalCount(groups: seq<Group>): nat {
    if groups == [] then 0 else TotalCount(groups[..|groups| - 1]) + groups[|groups| - 1].count
  }

  /** Every snapshot is counted in exactly one group. */
  lemma CountsSumUp(groups: seq<Group>, snapshots: seq<Snapshot>, byTag: bool, partialIDs: set<string>, cadence: int,
          observed: int)
    requires Summarizes(groups, snapshots, byTag, partialIDs, cadence, observed)
    ensures TotalCount(groups) == |snapshots|
  {
    CountsOfPart(groups, snapshots, byTag, |groups|);
    var listed := (s: Snapshot) => KeyListed(groups, |groups|, GroupKey(s, byTag));
    forall i | 0 <= i < |snapshots| ensures listed(snapshots[i]) {
      assert snapshots[i] in snapshots;
    }
    FilterAll(snapshots, listed);
  }

  predicate KeyListed(groups: seq<Group>, n: nat, key: string)
    requires n <= |groups|
  {
    exists i :: 0 <= i < n && groups[i].key == key
  }

  /** The first `n` groups count the snapshots whose keys they list. */
  lemma {:induction false} CountsOfPart(groups: seq<Group>, snapshots: seq<Snapshot>, byTag: bool, n: nat)
    requires n <= |groups| && KeysIncrease(groups)
    requires forall i :: 0 <= i < |groups| ==> groups[i].count == |Members(snapshots, byTag, groups[i].key)|
    ensures TotalCount(groups[..n]) == |Filter(snapshots, (s: Snapshot) => KeyListed(groups, n, GroupKey(s, byTag)))|
    ensures groups[..|groups|] == groups
  {
    if n == 0 {
      FilterNothing(snapshots, (s: Snapshot) => KeyListed(groups, 0, GroupKey(s, byTag)));
    } else {
      CountsOfPart(groups, snapshots, byTag, n - 1);
      assert groups[..n][..n - 1] == groups[..n - 1];
      forall i | 0 <= i < n - 1 ensures groups[i].key != groups[n - 1].key {
        StringLessIsStrict(groups[i].key, groups[n - 1].key);
      }
      FilterSplits(snapshots,
        (s: Snapshot) => KeyListed(groups, n, GroupKey(s, byTag)),
        (s: Snapshot) => KeyListed(groups, n - 1, GroupKey(s, byTag)),
        s => GroupKey(s, byTag) == groups[n - 1].key);
    }
  }

  lemma {:induction false} FilterNothing<T>(s: seq<T>, keep: T -> bool)
    requires forall x :: x in s ==> !keep(x)
    ensures Filter(s, keep) == []
  {
    if s != [] {
      FilterNothing(s[1..], keep);
    }
  }

  lemma {:induction false} FilterSplits<T(!new)>(s: seq<T>, either: T -> bool, one: T -> bool, other: T -> bool)
    requires forall x :: either(x) <==> one(x) || other(x)
    requires forall x :: !(one(x) && other(x))
    ensures |Filter(s, either)| == |Filter(s, one)| + |Filter(s, other)|
  {
    if s != [] {
      FilterSplits(s[1..], either, one, other);
      assert either(s[0]) <==> one(s[0]) || other(s[0]);
    }
  }

  /** What a group reports: host, tags in order, id and time of its first snapshot and whether that one is partly
      hidden, how many snapshots share its key, the whole seconds since it was taken, never negative, and a
      judgement exactly under a cadence. */
  ghost predicate ReportsOn(g: Group, latest: Snapshot, members: seq<Snapshot>, partialIDs: set<string>, cadence: int,
          observed: int) {
    && g.hostname == latest.hostname && g.latestID == latest.id && g.latestTime == latest.time
    && multiset(g.tags) == multiset(latest.tags)
    && (forall j, k :: 0 <= j < k < |g.tags| ==> !StringLess(g.tags[k], g.tags[j]))
    && g.count == |members| && (g.partialPaths <==> latest.id in partialIDs)
    && (if observed <= latest.time then g.ageSeconds == 0
        else g.ageSeconds * 1_000_000_000 <= observed - latest.time < (g.ageSeconds + 1) * 1_000_000_000)
    && (g.overdue.Some? <==> cadence > 0)
  }

  lemma GroupReports(groups: seq<Group>, snapshots: seq<Snapshot>, byTag: bool, partialIDs: set<string>, cadence: int,
          observed: int, i: nat)
    requires Summarizes(groups, snapshots, byTag, partialIDs, cadence, observed) && i < |groups|
    ensures var members := Filter(snapshots, s => GroupKey(s, byTag) == groups[i].key);
      members != [] && ReportsOn(groups[i], members[0], members, partialIDs, cadence, observed)
  {
    var latest := Members(snapshots, byTag, groups[i].key)[0];
    TagOrder();
    StableSortSorts(latest.tags, StringLess);
  }

  /** On a newest-first list a group's latest snapshot is its maximum, and the group is overdue exactly
      when every one of its snapshots is older than the cadence. */
  lemma LatestIsNewest(groups: seq<Group>, snapshots: seq<Snapshot>, byTag: bool, partialIDs: set<string>,
          cadence: int, observed: int, i: nat)
    requires Summarizes(groups, snapshots, byTag, partialIDs, cadence, observed) && i < |groups|
    requires Listing.StrictlyOrdered(snapshots)
    ensures var g := groups[i];
      && (exists s :: s in snapshots && GroupKey(s, byTag) == g.key && s.time == g.latestTime && s.id == g.latestID)
      && (forall s :: s in snapshots && GroupKey(s, byTag) == g.key ==> s.time <= g.latestTime)
      && (cadence > 0 ==>
            (g.overdue == Some(true) <==>
               forall s :: s in snapshots && GroupKey(s, byTag) == g.key ==> observed - s.time > cadence))
  {
    var g := groups[i];
    var inGroup := (s: Snapshot) => GroupKey(s, byTag) == g.key;
    var members := Members(snapshots, byTag, g.key);
    Listing.FilterKeepsOrder(snapshots, inGroup);
    FilterMember(snapshots, inGroup, members[0]);
    forall s | s in snapshots && GroupKey(s, byTag) == g.key ensures s.time <= g.latestTime {
      FilterMember(snapshots, inGroup, s);
      var k :| 0 <= k < |members| && members[k] == s;
      assert k > 0 ==> Listing.Precedes(members[0], members[k]);
    }
  }
}
