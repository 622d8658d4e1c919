/** How `find_files` shows its pages, and what a client that follows every cursor receives. */
module FindDisplay {
  import opened Basics
  import opened Paging
  import opened ScanFind
  import opened FindPages

  // ---------------------------------------------------------------- display order

  predicate PathLess(a: Entry, b: Entry) {
    StringLess(a.path, b.path)
  }

  predicate SnapshotLess(a: FindGroup, b: FindGroup) {
    StringLess(a.snapshot, b.snapshot)
  }

  function SortMatches(group: FindGroup): FindGroup {
    var matches := StableSort(group.matches, PathLess);
    group.(matches := matches, hits := |matches|)
  }

  function SortEach(groups: seq<FindGroup>): (r: seq<FindGroup>)
    ensures |r| == |groups|
    ensures forall i :: 0 <= i < |groups| ==> r[i] == SortMatches(groups[i])
  {
    Map(groups, SortMatches)
  }

  /** The handler sorts the matches of every group by path, then the groups by snapshot id. */
  function Displayed(groups: seq<FindGroup>): seq<FindGroup> {
    StableSort(SortEach(groups), SnapshotLess)
  }

  lemma PathOrder()
    ensures Ordering(PathLess)
  {
    forall a: Entry, b: Entry, c: Entry
      ensures PathLess(a, b) ==> !PathLess(b, a)
      ensures !PathLess(b, a) && !PathLess(c, b) ==> !PathLess(c, a)
    {
      StringNotAfterTransitive(a.path, b.path, c.path);
    }
  }

  lemma SnapshotOrder()
    ensures Ordering(SnapshotLess)
  {
    forall a: FindGroup, b: FindGroup, c: FindGroup
      ensures SnapshotLess(a, b) ==> !SnapshotLess(b, a)
      ensures !SnapshotLess(b, a) && !SnapshotLess(c, b) ==> !SnapshotLess(c, a)
    {
      StringNotAfterTransitive(a.snapshot, b.snapshot, c.snapshot);
    }
  }

  /** `shown` is `group` with its matches in path order, those of one path as they were. */
  ghost predicate InPathOrder(shown: FindGroup, group: FindGroup) {
    && shown.snapshot == group.snapshot && shown.hits == |shown.matches|
    && multiset(shown.matches) == multiset(group.matches)
    && (forall i, j :: 0 <= i < j < |shown.matches| ==> !StringLess(shown.matches[j].path, shown.matches[i].path))
    && (forall path: string :: AtPath(shown.matches, path) == AtPath(group.matches, path))
  }

  ghost function AtPath(matches: seq<Entry>, path: string): seq<Entry> {
    Filter(matches, (e: Entry) => e.path == path)
  }

  /** `shown` are `groups` by snapshot id, those of one snapshot as they were. */
  ghost predicate InSnapshotOrder(shown: seq<FindGroup>, groups: seq<FindGroup>) {
    && multiset(shown) == multiset(groups)
    && (forall i, j :: 0 <= i < j < |shown| ==> !StringLess(shown[j].snapshot, shown[i].snapshot))
    && (forall id: string :: OfSnapshot(shown, id) == OfSnapshot(groups, id))
  }

  ghost function OfSnapshot(groups: seq<FindGroup>, id: string): seq<FindGroup> {
    Filter(groups, (g: FindGroup) => g.snapshot == id)
  }

  lemma SortedGroups(groups: seq<FindGroup>)
    ensures InSnapshotOrder(StableSort(groups, SnapshotLess), groups)
  {
    SnapshotOrder();
    StableSortSorts(groups, SnapshotLess);
    forall id: string ensures OfSnapshot(StableSort(groups, SnapshotLess), id) == OfSnapshot(groups, id) {
      StringLessIsStrict(id, id);
      StableSortIsStable(groups, SnapshotLess, (g: FindGroup) => g.snapshot == id);
    }
  }

  lemma SortedMatches(group: FindGroup)
    ensures InPathOrder(SortMatches(group), group)
    ensures multiset(GroupRows(SortMatches(group))) == multiset(GroupRows(group))
  {
    PathOrder();
    StableSortSorts(group.matches, PathLess);
    forall path: string ensures AtPath(SortMatches(group).matches, path) == AtPath(group.matches, path) {
      StringLessIsStrict(path, path);
      StableSortIsStable(group.matches, PathLess, (e: Entry) => e.path == path);
    }
    MapRearranges(SortMatches(group).matches, group.matches, m => Row(group.snapshot, m));
  }

  function GroupRows(group: FindGroup): seq<Row> {
    RowsUnder(group.snapshot, group.matches)
  }

  lemma {:induction false} RowsAppend(groups: seq<FindGroup>, group: FindGroup)
    ensures Rows(groups + [group]) == Rows(groups) + GroupRows(group)
  {
    assert (groups + [group])[..|groups|] == groups;
  }

  lemma {:induction false} RowsFront(group: FindGroup, groups: seq<FindGroup>)
    ensures Rows([group] + groups) == GroupRows(group) + Rows(groups)
  {
    if groups == [] {
      assert [group] + groups == [] + [group];
      RowsAppend([], group);
    } else {
      var n := |groups| - 1;
      assert [group] + groups == ([group] + groups[..n]) + [groups[n]] && groups == groups[..n] + [groups[n]];
      RowsAppend([group] + groups[..n], groups[n]);
      RowsAppend(groups[..n], groups[n]);
      RowsFront(group, groups[..n]);
    }
  }

  lemma RowsOfFront(groups: seq<FindGroup>)
    requires groups != []
    ensures multiset(Rows(groups)) == multiset(GroupRows(groups[0])) + multiset(Rows(groups[1..]))
  {
    RowsFront(groups[0], groups[1..]);
    assert groups == [groups[0]] + groups[1..];
  }

  lemma SortEachFront(groups: seq<FindGroup>)
    requires groups != []
    ensures SortEach(groups)[0] == SortMatches(groups[0]) && SortEach(groups)[1..] == SortEach(groups[1..])
  {
  }

  lemma {:induction false} SortEachKeepsRows(groups: seq<FindGroup>)
    ensures multiset(Rows(SortEach(groups))) == multiset(Rows(groups))
  {
    if groups != [] {
      SortEachFront(groups);
      SortedMatches(groups[0]);
      SortEachKeepsRows(groups[1..]);
      RowsOfFront(groups);
      RowsOfFront(SortEach(groups));
    }
  }

  lemma {:induction false} InsertKeepsRows(x: FindGroup, groups: seq<FindGroup>)
    ensures multiset(Rows(Insert(x, groups, SnapshotLess))) == multiset(GroupRows(x)) + multiset(Rows(groups))
  {
    RowsFront(x, groups);
    if groups != [] && SnapshotLess(groups[0], x) {
      InsertKeepsRows(x, groups[1..]);
      RowsOfFront(groups);
      RowsFront(groups[0], Insert(x, groups[1..], SnapshotLess));
    }
  }

  lemma {:induction false} SortKeepsRows(groups: seq<FindGroup>)
    ensures multiset(Rows(StableSort(groups, SnapshotLess))) == multiset(Rows(groups))
  {
    if groups != [] {
      SortKeepsRows(groups[1..]);
      InsertKeepsRows(groups[0], StableSort(groups[1..], SnapshotLess));
      RowsOfFront(groups);
    }
  }

  /** Sorting a page for display keeps exactly the groups and orders them by snapshot id; each group keeps
      its own matches and lists them in path order. So the page lists what it listed, and under the same
      snapshots. */
  lemma DisplayKeepsMatches(groups: seq<FindGroup>)
    ensures InSnapshotOrder(Displayed(groups), SortEach(groups))
    ensures forall i :: 0 <= i < |groups| ==> InPathOrder(SortEach(groups)[i], groups[i])
    ensures multiset(Rows(Displayed(groups))) == multiset(Rows(groups))
    ensures multiset(MatchesOf(Displayed(groups))) == multiset(MatchesOf(groups))
  {
    SortedGroups(SortEach(groups));
    forall i | 0 <= i < |groups| ensures InPathOrder(SortEach(groups)[i], groups[i]) {
      SortedMatches(groups[i]);
    }
    SortEachKeepsRows(groups);
    SortKeepsRows(SortEach(groups));
    MatchesOfRows(groups);
    MatchesOfRows(Displayed(groups));
    MapRearranges(Rows(Displayed(groups)), Rows(groups), (r: Row) => r.entry);
  }

  // ---------------------------------------------------------------- the client

  /** What `find_files` answers for an offset and a limit. */
  function SearchReply(doc: Document, max: nat, accept: Accept, offset: nat, limit: nat): Reply<seq<FindGroup>> {
    match PageOfDocument(doc, max, offset, limit, accept)
    case ProtocolError => Refused
    case Scanned(groups, stats) => Reply(Displayed(groups), stats.page, stats)
  }

  function Search(doc: Document, max: nat, accept: Accept, limits: nat -> nat): Received<seq<FindGroup>> {
    SearchServes(doc, max, accept);
    Follow((o, l) => SearchReply(doc, max, accept, o, l), |VisitDocument(doc, max, accept).visit.hits|, limits, 0, 0)
  }

  /** A displayed page shows the matches of a page of the walk, rearranged. */
  function ShowsMatches(): (seq<FindGroup>, seq<Hit>) -> bool {
    (groups, hits) => multiset(MatchesOf(groups)) == multiset(Map(hits, EntryOfHit))
  }

  lemma SearchAnswers(doc: Document, max: nat, accept: Accept, offset: nat, limit: nat)
    ensures Answers(SearchReply(doc, max, accept, offset, limit),
                    PageOf(VisitDocument(doc, max, accept).visit, offset, limit), ShowsMatches())
  {
    var p := PageOf(VisitDocument(doc, max, accept).visit, offset, limit);
    if p.Page? {
      PageRegrouped(doc, max, offset, limit, accept);
      DisplayKeepsMatches(PageOfDocument(doc, max, offset, limit, accept).groups);
      EntriesAreMapped(p.hits);
      FlagDiscipline(VisitDocument(doc, max, accept).visit, offset, limit);
    }
  }

  lemma SearchServes(doc: Document, max: nat, accept: Accept)
    ensures Serves((o, l) => SearchReply(doc, max, accept, o, l), VisitDocument(doc, max, accept).visit, ShowsMatches())
    ensures StaysWithin((o, l) => SearchReply(doc, max, accept, o, l), |VisitDocument(doc, max, accept).visit.hits|)
  {
    var fetch := (o: nat, l: nat) => SearchReply(doc, max, accept, o, l);
    var v := VisitDocument(doc, max, accept).visit;
    forall offset: nat, limit: nat ensures Answers(fetch(offset, limit), PageOf(v, offset, limit), ShowsMatches()) {
      SearchAnswers(doc, max, accept, offset, limit);
    }
    ServingStaysWithin(fetch, v, ShowsMatches());
  }

  /** A client that searches to the end is shown, over all its pages, every accepted match exactly as often
      as it was accepted, and only some of them when the document is malformed further on. */
  lemma SearchDelivers(doc: Document, max: nat, accept: Accept, limits: nat -> nat)
    requires forall i :: limits(i) >= 1
    ensures var r, v := Search(doc, max, accept, limits), VisitDocument(doc, max, accept).visit;
      var shown := multiset(Flatten(Map(r.pages, MatchesOf)));
      && r.finish == v.stop != Running && |r.pages| <= |v.hits| + 1
      && (r.finish != Failed ==> shown == multiset(Entries(v.hits)))
      && shown <= multiset(Entries(v.hits))
  {
    var v := VisitDocument(doc, max, accept).visit;
    var r, w := Search(doc, max, accept, limits), WalkFrom(v, limits, 0, 0);
    SearchServes(doc, max, accept);
    ClientSeesWalk((o, l) => SearchReply(doc, max, accept, o, l), v, ShowsMatches(), limits, 0, 0);
    ShownRearranged(w.pages, Map(r.pages, MatchesOf), EntryOfHit);
    EntriesAreMapped(Flatten(w.pages));
    FindWalkDelivers(doc, max, accept, limits);
    PrefixIsPart(Flatten(w.pages), v.hits);
  }

  lemma PrefixIsPart(a: seq<Hit>, b: seq<Hit>)
    requires a <= b
    ensures multiset(Entries(a)) <= multiset(Entries(b))
  {
    assert Entries(b) == Entries(a) + Entries(b[|a|..]);
  }
}
