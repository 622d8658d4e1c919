/** What a page of `find` means: a slice of the accepted matches, each listed under a snapshot. */
module FindPages {
  import opened Basics
  import opened Paths
  import opened Paging
  import opened ScanFind
  import ScanLS

  // ---------------------------------------------------------------- shape of a visit

  /** The hits of `v` lie in groups `lo` to `hi - 1` in stream order, and nothing was decoded beyond the limit. */
  ghost predicate Shaped(v: Visit, lo: nat, hi: nat, decoded: nat, max: nat) {
    && decoded <= v.decoded <= max
    && Grouped(v.hits)
    && (forall i :: 0 <= i < |v.hits| ==> lo <= v.hits[i].group < hi && v.hits[i].at <= max)
  }

  lemma ShapedThen(v: Visit, w: Visit, lo: nat, mid: nat, from: nat, hi: nat, decoded: nat, max: nat)
    requires Shaped(v, lo, mid, decoded, max) && Shaped(w, from, hi, v.decoded, max)
    requires lo <= from && mid <= from + 1 && mid <= hi
    ensures Shaped(Then(v, w), lo, hi, decoded, max)
  {
  }

  lemma {:induction false} ItemsShaped(items: seq<RawMatch>, g: nat, id: string, decoded: nat, max: nat, accept: Accept)
    requires decoded <= max
    ensures Shaped(VisitItems(items, g, id, decoded, max, accept), g, g + 1, decoded, max)
  {
    if items != [] && decoded < max && EntryOf(items[0]).Some? {
      ItemsShaped(items[1..], g, id, decoded + 1, max, accept);
    }
  }

  lemma {:induction false} FieldsShaped(fields: seq<Field>, g: nat, id: string, pending: Option<Matches>,
          decoded: nat, max: nat, accept: Accept)
    requires decoded <= max
    ensures Shaped(VisitFields(fields, g, id, pending, decoded, max, accept).visit, g, g + 1, decoded, max)
  {
    if fields != [] {
      var first := VisitField(fields[0], g, id, pending, decoded, max, accept);
      if fields[0].MatchesField? && fields[0].matches.Array? {
        ItemsShaped(fields[0].matches.items, g, id, decoded, max, accept);
      }
      assert Shaped(first.visit, g, g + 1, decoded, max);
      FieldsShaped(fields[1..], g, first.id, first.pending, first.visit.decoded, max, accept);
      ShapedThen(first.visit,
        VisitFields(fields[1..], g, first.id, first.pending, first.visit.decoded, max, accept).visit,
        g, g + 1, g, g + 1, decoded, max);
    }
  }

  lemma GroupShaped(fields: seq<Field>, tail: Option<(Partial, Fault)>, g: nat, decoded: nat, max: nat, accept: Accept)
    requires decoded <= max
    ensures Shaped(VisitGroup(fields, tail, g, decoded, max, accept).visit, g, g + 1, decoded, max)
  {
    FieldsShaped(fields, g, "", None, decoded, max, accept);
    var gv := VisitFields(fields, g, "", None, decoded, max, accept);
    var end := VisitGroupEnd(gv, tail, g, max, accept);
    match tail
    case None =>
      if gv.pending.Some? && gv.pending.value.Array? {
        ItemsShaped(gv.pending.value.items, g, gv.id, gv.visit.decoded, max, accept);
      }
      ShapedThen(gv.visit, end, g, g + 1, g, g + 1, decoded, max);
    case Some(t) =>
      if t.0.MatchesFault? {
        ItemsShaped(t.0.items, g, gv.id, gv.visit.decoded, max, accept);
        var v := VisitItems(t.0.items, g, gv.id, gv.visit.decoded, max, accept);
        ShapedThen(v, Visit([], v.decoded, StopFor(t.1)), g, g + 1, g, g + 1, gv.visit.decoded, max);
      }
      ShapedThen(gv.visit, end, g, g + 1, g, g + 1, decoded, max);
  }

  lemma FoundShaped(gv: GroupVisit, rest: Found, g: nat, decoded: nat, max: nat)
    requires Shaped(gv.visit, g, g + 1, decoded, max)
    requires gv.visit.stop.Running? ==> Shaped(rest.visit, g + 1, g + 1 + |rest.ids|, gv.visit.decoded, max)
    ensures var f := FoundThen(Found(gv.visit, [gv.id]), rest);
      Shaped(f.visit, g, g + |f.ids|, decoded, max)
  {
    if gv.visit.stop.Running? {
      ShapedThen(gv.visit, rest.visit, g, g + 1, g + 1, g + 1 + |rest.ids|, decoded, max);
    }
  }

  lemma TailShaped(tail: Tail, g: nat, decoded: nat, max: nat, accept: Accept)
    requires decoded <= max
    ensures var f := VisitTail(tail, g, decoded, max, accept);
      Shaped(f.visit, g, g + |f.ids|, decoded, max)
  {
    if tail.Within? && decoded < max {
      GroupShaped(tail.fields, Some((tail.partial, tail.fault)), g, decoded + 1, max, accept);
    }
  }

  lemma {:induction false} ElementsShaped(elements: seq<Element>, tail: Tail, i: nat, decoded: nat, max: nat,
          accept: Accept)
    requires decoded <= max && i <= |elements|
    ensures var f := VisitElements(elements[i..], tail, i, decoded, max, accept);
      Shaped(f.visit, i, i + |f.ids|, decoded, max)
    decreases |elements| - i
  {
    VisitElementsStep(elements, i, tail, decoded, max, accept);
    if i == |elements| {
      TailShaped(tail, i, decoded, max, accept);
    } else if decoded < max && elements[i].Object? {
      var gv := VisitGroup(elements[i].fields, None, i, decoded + 1, max, accept);
      GroupShaped(elements[i].fields, None, i, decoded + 1, max, accept);
      ElementsShaped(elements, tail, i + 1, gv.visit.decoded, max, accept);
      FoundShaped(gv, VisitElements(elements[i + 1..], tail, i + 1, gv.visit.decoded, max, accept),
        i, decoded + 1, max);
    }
  }

  lemma DocumentShaped(doc: Document, max: nat, accept: Accept)
    ensures var f := VisitDocument(doc, max, accept);
      Shaped(f.visit, 0, |f.ids|, 0, max) && !f.visit.stop.Running?
  {
    if doc.List? {
      assert doc.elements[0..] == doc.elements;
      ElementsShaped(doc.elements, doc.tail, 0, 0, max, accept);
      ElementsStop(doc.elements, doc.tail, 0, 0, max, accept);
    }
  }

  lemma {:induction false} ElementsStop(elements: seq<Element>, tail: Tail, g: nat, decoded: nat, max: nat,
          accept: Accept)
    ensures !VisitElements(elements, tail, g, decoded, max, accept).visit.stop.Running?
  {
    if elements != [] && decoded < max && elements[0].Object? {
      var gv := VisitGroup(elements[0].fields, None, g, decoded + 1, max, accept);
      ElementsStop(elements[1..], tail, g + 1, gv.visit.decoded, max, accept);
    }
  }

  // ---------------------------------------------------------------- regrouping

  function MatchesOf(groups: seq<FindGroup>): seq<Entry> {
    if groups == [] then [] else MatchesOf(groups[..|groups| - 1]) + groups[|groups| - 1].matches
  }

  /** In stream order the entries of the last group are the last entries. */
  lemma {:induction false} LastGroupIsSuffix(u: seq<Hit>, g: nat)
    requires Grouped(u) && forall i :: 0 <= i < |u| ==> u[i].group <= g
    ensures |OfGroup(u, g)| <= |u|
    ensures forall i :: 0 <= i < |u| ==> (u[i].group == g <==> i >= |u| - |OfGroup(u, g)|)
  {
    if u != [] {
      var n := |u| - 1;
      LastGroupIsSuffix(u[..n], g);
      if u[n].group != g {
        assert forall i :: 0 <= i < n ==> u[i].group <= u[n].group < g;
        OfGroupNone(u[..n], g);
      }
    }
  }

  lemma {:induction false} OfGroupIsAll(u: seq<Hit>, g: nat)
    requires InGroup(u, g)
    ensures OfGroup(u, g) == Entries(u)
  {
    if u != [] {
      OfGroupIsAll(u[..|u| - 1], g);
    }
  }

  lemma {:induction false} OfGroupSkips(head: seq<Hit>, tail: seq<Hit>, g: nat)
    requires forall i :: 0 <= i < |head| ==> head[i].group != g
    ensures OfGroup(head + tail, g) == OfGroup(tail, g)
  {
    if tail == [] {
      assert head + tail == head;
      OfGroupNone(head, g);
    } else {
      var n := |tail| - 1;
      assert head + tail == (head + tail[..n]) + [tail[n]];
      OfGroupStep(head + tail[..n], tail[n], g);
      OfGroupSkips(head, tail[..n], g);
    }
  }

  lemma CutAt(u: seq<Hit>, n: nat, g: nat)
    requires n <= |u| && Grouped(u)
    requires forall i :: 0 <= i < |u| ==> u[i].group <= g && (u[i].group == g <==> i >= n)
    ensures u == u[..n] + u[n..] && InGroup(u[n..], g) && Grouped(u[..n])
    ensures forall i :: 0 <= i < n ==> u[..n][i].group < g
  {
  }

  lemma LastGroupSplits(u: seq<Hit>, g: nat)
    requires Grouped(u) && forall i :: 0 <= i < |u| ==> u[i].group <= g
    ensures |OfGroup(u, g)| <= |u|
    ensures var n := |u| - |OfGroup(u, g)|;
      && u == u[..n] + u[n..] && InGroup(u[n..], g) && Grouped(u[..n])
      && (forall i :: 0 <= i < n ==> u[..n][i].group < g)
      && OfGroup(u, g) == Entries(u[n..])
  {
    LastGroupIsSuffix(u, g);
    var n := |u| - |OfGroup(u, g)|;
    CutAt(u, n, g);
    OfGroupSkips(u[..n], u[n..], g);
    OfGroupIsAll(u[n..], g);
  }

  /** A match as it is listed: under a snapshot id. */
  datatype Row = Row(snapshot: string, entry: Entry)

  function RowsUnder(id: string, matches: seq<Entry>): seq<Row> {
    Map(matches, m => Row(id, m))
  }

  /** A hit listed under the id it was tested under. */
  function HitRow(h: Hit): Row {
    Row(h.id, h.entry)
  }

  /** Everything the groups of a page list. */
  function Rows(groups: seq<FindGroup>): seq<Row> {
    if groups == [] then []
    else
      var last := groups[|groups| - 1];
      Rows(groups[..|groups| - 1]) + RowsUnder(last.snapshot, last.matches)
  }

  function IDOf(ids: seq<string>, g: nat): string {
    if g < |ids| then ids[g] else ""
  }

  /** Hits listed under the ids of their groups. */
  function RowsOf(hits: seq<Hit>, ids: seq<string>): seq<Row> {
    Map(hits, (h: Hit) => Row(IDOf(ids, h.group), h.entry))
  }

  function RowEntries(rows: seq<Row>): seq<Entry> {
    Map(rows, (r: Row) => r.entry)
  }

  lemma {:induction false} MatchesOfRows(groups: seq<FindGroup>)
    ensures MatchesOf(groups) == RowEntries(Rows(groups))
  {
    if groups != [] {
      MatchesOfRows(groups[..|groups| - 1]);
    }
  }

  /** Regrouping loses nothing, keeps the order, and lists every hit under the id of its group. */
  lemma {:induction false} RegroupingKeepsOrder(u: seq<Hit>, ids: seq<string>)
    requires Grouped(u) && forall i :: 0 <= i < |u| ==> u[i].group < |ids|
    ensures Rows(Groups(u, ids)) == RowsOf(u, ids)
    ensures MatchesOf(Groups(u, ids)) == Entries(u)
    decreases |ids|
  {
    MatchesOfRows(Groups(u, ids));
    if ids == [] {
      NoGroupsNoHits(u);
    } else {
      var g := |ids| - 1;
      var own := OfGroup(u, g);
      LastGroupSplits(u, g);
      var head, tail := u[..|u| - |own|], u[|u| - |own|..];
      GroupsPrefix(head, tail, ids[..g], g);
      RegroupingKeepsOrder(head, ids[..g]);
      LastGroupGoesLast(Groups(head, ids[..g]), own, ids[g]);
      RowsSplit(head, tail, ids);
    }
    RowEntriesOfHits(u, ids);
  }

  lemma NoGroupsNoHits(u: seq<Hit>)
    requires forall i :: 0 <= i < |u| ==> u[i].group < 0
    ensures u == []
  {
    assert u != [] ==> u[0].group < 0;
  }

  lemma RowEntriesOfHits(u: seq<Hit>, ids: seq<string>)
    ensures RowEntries(RowsOf(u, ids)) == Entries(u)
  {
  }

  lemma RowsSplit(head: seq<Hit>, tail: seq<Hit>, ids: seq<string>)
    requires ids != [] && InGroup(tail, |ids| - 1) && forall i :: 0 <= i < |head| ==> head[i].group < |ids| - 1
    ensures RowsOf(head + tail, ids) == RowsOf(head, ids[..|ids| - 1]) + RowsUnder(ids[|ids| - 1], Entries(tail))
  {
  }

  lemma LastGroupGoesLast(groups: seq<FindGroup>, own: seq<Entry>, id: string)
    ensures Rows(groups + if own == [] then [] else [FindGroup(|own|, id, own)]) == Rows(groups) + RowsUnder(id, own)
  {
    if own == [] {
      assert groups + [] == groups;
    } else {
      assert (groups + [FindGroup(|own|, id, own)])[..|groups|] == groups;
    }
  }

  /** A group on a page without overflow holds at most `limit` entries. */
  lemma {:induction false} GroupFits(u: seq<Hit>, g: nat, limit: nat)
    requires Grouped(u) && forall k :: 0 <= k < |u| ==> !Overflows(u, k, limit)
    ensures |OfGroup(u, g)| <= limit
  {
    if u != [] {
      var n := |u| - 1;
      forall k | 0 <= k < n ensures !Overflows(u[..n], k, limit) {
        assert !Overflows(u, k, limit);
      }
      GroupFits(u[..n], g, limit);
      if u[n].group == g {
        LastGroupIsSuffix(u[..n], g);
        assert !Overflows(u, n, limit);
      }
    }
  }

  ghost predicate ProperGroup(group: FindGroup, limit: nat) {
    group.hits == |group.matches| && 1 <= |group.matches| <= limit
  }

  lemma {:induction false} GroupsAreProper(u: seq<Hit>, ids: seq<string>, limit: nat)
    requires Grouped(u) && forall k :: 0 <= k < |u| ==> !Overflows(u, k, limit)
    ensures forall i :: 0 <= i < |Groups(u, ids)| ==> ProperGroup(Groups(u, ids)[i], limit)
  {
    if ids != [] {
      GroupsAreProper(u, ids[..|ids| - 1], limit);
      GroupFits(u, |ids| - 1, limit);
    }
  }

  function TotalHits(groups: seq<FindGroup>): nat {
    if groups == [] then 0 else TotalHits(groups[..|groups| - 1]) + groups[|groups| - 1].hits
  }

  lemma {:induction false} HitsCountMatches(groups: seq<FindGroup>)
    requires forall i :: 0 <= i < |groups| ==> groups[i].hits == |groups[i].matches|
    ensures TotalHits(groups) == |MatchesOf(groups)|
  {
    if groups != [] {
      HitsCountMatches(groups[..|groups| - 1]);
    }
  }

  // ---------------------------------------------------------------- the page

  /** A page of `find`, read group by group, is the slice of accepted matches that starts at `skip`, in
      stream order, each listed under the id its group had when the page ended; every group on it is
      non-empty, holds at most `limit` matches and counts them. */
  lemma FindPageIsSlice(doc: Document, max: nat, skip: nat, limit: nat, accept: Accept)
    requires PageOfDocument(doc, max, skip, limit, accept).Scanned?
    ensures var r := PageOfDocument(doc, max, skip, limit, accept);
      var f := VisitDocument(doc, max, accept);
      var accepted := Entries(f.visit.hits);
      && MatchesOf(r.groups) == Take(Drop(accepted, skip), r.stats.page)
      && Rows(r.groups) == RowsOf(Take(Drop(f.visit.hits, skip), r.stats.page), PageIDs(f, skip, limit))
      && TotalHits(r.groups) == r.stats.page == |MatchesOf(r.groups)|
      && (forall i :: 0 <= i < |r.groups| ==> ProperGroup(r.groups[i], limit))
      && r.stats.decoded <= max
  {
    var f := VisitDocument(doc, max, accept);
    DocumentShaped(doc, max, accept);
    PageOfShaped(f, skip, limit);
    PageCountsDecoded(f.visit, skip, limit, max);
    var page := PageOf(f.visit, skip, limit).hits;
    HitsCountMatches(Groups(page, PageIDs(f, skip, limit)));
    ScanLS.SliceOfEntries(f.visit.hits, skip, |page|);
  }

  lemma PageOfShaped(f: Found, skip: nat, limit: nat)
    requires Grouped(f.visit.hits) && forall i :: 0 <= i < |f.visit.hits| ==> f.visit.hits[i].group < |f.ids|
    requires PageOf(f.visit, skip, limit).Page?
    ensures var p := PageOf(f.visit, skip, limit);
      var groups := Groups(p.hits, PageIDs(f, skip, limit));
      && |p.hits| == p.stats.page && p.hits == Take(Drop(f.visit.hits, skip), p.stats.page)
      && MatchesOf(groups) == Entries(p.hits)
      && Rows(groups) == RowsOf(p.hits, PageIDs(f, skip, limit))
      && forall i :: 0 <= i < |groups| ==> ProperGroup(groups[i], limit)
  {
    PageStart(f, skip, limit);
    var p := PageOf(f.visit, skip, limit);
    RegroupingKeepsOrder(p.hits, PageIDs(f, skip, limit));
    GroupsAreProper(p.hits, PageIDs(f, skip, limit), limit);
  }

  lemma PageStart(f: Found, skip: nat, limit: nat)
    requires Grouped(f.visit.hits) && forall i :: 0 <= i < |f.visit.hits| ==> f.visit.hits[i].group < |f.ids|
    requires PageOf(f.visit, skip, limit).Page?
    ensures var p := PageOf(f.visit, skip, limit);
      && |p.hits| == p.stats.page && p.hits == Take(Drop(f.visit.hits, skip), p.stats.page)
      && Grouped(p.hits) && (forall k :: 0 <= k < |p.hits| ==> !Overflows(p.hits, k, limit))
      && forall k :: 0 <= k < |p.hits| ==> p.hits[k].group < |PageIDs(f, skip, limit)|
  {
    var u := Drop(f.visit.hits, skip);
    var n := PageLength(u, limit);
    forall k | 0 <= k < n ensures !Overflows(u[..n], k, limit) {
      assert !Overflows(u, k, limit);
    }
  }

  /** Searching page by page, with any limits: the walk ends as the stream ends, and its pages joined
      together are the accepted matches, each exactly once. */
  lemma FindWalkDelivers(doc: Document, max: nat, accept: Accept, limits: nat -> nat)
    requires forall i :: limits(i) >= 1
    ensures var v := VisitDocument(doc, max, accept).visit;
      var w := WalkFrom(v, limits, 0, 0);
      && w.finish == v.stop != Running
      && (w.finish != Failed ==> Flatten(w.pages) == v.hits)
      && Flatten(w.pages) <= v.hits
      && |w.pages| <= |v.hits| + 1
  {
    var v := VisitDocument(doc, max, accept).visit;
    DocumentShaped(doc, max, accept);
    WalkDelivers(v, limits, 0, 0);
    assert v.hits[0..] == v.hits;
  }

  lemma PageRegrouped(doc: Document, max: nat, skip: nat, limit: nat, accept: Accept)
    requires PageOfDocument(doc, max, skip, limit, accept).Scanned?
    ensures var f := VisitDocument(doc, max, accept);
      var groups := PageOfDocument(doc, max, skip, limit, accept).groups;
      && MatchesOf(groups) == Entries(PageOf(f.visit, skip, limit).hits)
      && Rows(groups) == RowsOf(PageOf(f.visit, skip, limit).hits, PageIDs(f, skip, limit))
  {
    DocumentShaped(doc, max, accept);
    PageOfShaped(VisitDocument(doc, max, accept), skip, limit);
  }

  /** The first page of a document with one accepted match. */
  lemma OneHitPage(hit: Hit, id: string, stop: Stop)
    requires hit.group == 0 && !stop.Running?
    ensures PageOfFound(Found(Visit([hit], 2, stop), [id]), 0, 10)
         == if stop == Failed then ProtocolError
            else Scanned([FindGroup(1, id, [hit.entry])],
                         Stats(2, 1, 1, stop == Ended, false, stop == OutOfBudget, stop == OutOfBudget))
  {
    assert Drop([hit], 0) == [hit];
    PageLengthIs([hit], 10, 1);
    assert [hit][..0] == [] && [id][..0] == [];
    assert OfGroup([], 0) == [] && OfGroup([hit], 0) == [hit.entry];
    assert Groups([hit], []) == [];
    assert Groups([hit], [id]) == [FindGroup(1, id, [hit.entry])];
  }
}
