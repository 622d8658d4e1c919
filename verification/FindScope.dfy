/** Under which snapshot `find` lists a match, and whether the policy accepts it there. */
module FindScope {
  import opened Basics
  import opened Paging
  import opened ScanFind
  import opened FindPages
  import FindDisplay
  import KeyOrder

  // ---------------------------------------------------------------- what was tested

  /** Every hit was accepted under the id that was current when it was tested. */
  predicate Tested(hits: seq<Hit>, accept: Accept) {
    forall i :: 0 <= i < |hits| ==> accept(hits[i].id, hits[i].entry)
  }

  lemma {:induction false} ItemsTested(items: seq<RawMatch>, g: nat, id: string, decoded: nat, max: nat, accept: Accept)
    ensures var v := VisitItems(items, g, id, decoded, max, accept);
      Tested(v.hits, accept) && forall i :: 0 <= i < |v.hits| ==> v.hits[i].id == id && v.hits[i].group == g
  {
    if items != [] && decoded < max && EntryOf(items[0]).Some? {
      ItemsTested(items[1..], g, id, decoded + 1, max, accept);
    }
  }

  lemma FieldTested(field: Field, g: nat, id: string, pending: Option<Matches>, decoded: nat, max: nat, accept: Accept)
    ensures var gv := VisitField(field, g, id, pending, decoded, max, accept);
      Tested(gv.visit.hits, accept)
      && forall i :: 0 <= i < |gv.visit.hits| ==> gv.visit.hits[i].id == id == gv.id && gv.visit.hits[i].group == g
  {
    if field.MatchesField? && field.matches.Array? {
      ItemsTested(field.matches.items, g, id, decoded, max, accept);
    }
  }

  lemma {:induction false} FieldsTested(fields: seq<Field>, g: nat, id: string, pending: Option<Matches>,
          decoded: nat, max: nat, accept: Accept)
    ensures var v := VisitFields(fields, g, id, pending, decoded, max, accept).visit;
      Tested(v.hits, accept) && InGroup(v.hits, g)
  {
    if fields != [] {
      var first := VisitField(fields[0], g, id, pending, decoded, max, accept);
      FieldTested(fields[0], g, id, pending, decoded, max, accept);
      FieldsTested(fields[1..], g, first.id, first.pending, first.visit.decoded, max, accept);
    }
  }

  lemma GroupEndTested(gv: GroupVisit, tail: Option<(Partial, Fault)>, g: nat, max: nat, accept: Accept)
    ensures var v := VisitGroupEnd(gv, tail, g, max, accept);
      Tested(v.hits, accept) && forall i :: 0 <= i < |v.hits| ==> v.hits[i].id == gv.id && v.hits[i].group == g
  {
    match tail
    case None =>
      if gv.pending.Some? && gv.pending.value.Array? {
        ItemsTested(gv.pending.value.items, g, gv.id, gv.visit.decoded, max, accept);
      }
    case Some(t) =>
      if t.0.MatchesFault? {
        ItemsTested(t.0.items, g, gv.id, gv.visit.decoded, max, accept);
      }
  }

  lemma GroupTested(fields: seq<Field>, tail: Option<(Partial, Fault)>, g: nat, decoded: nat, max: nat, accept: Accept)
    ensures var v := VisitGroup(fields, tail, g, decoded, max, accept).visit;
      Tested(v.hits, accept) && InGroup(v.hits, g)
  {
    FieldsTested(fields, g, "", None, decoded, max, accept);
    GroupEndTested(VisitFields(fields, g, "", None, decoded, max, accept), tail, g, max, accept);
  }

  lemma {:induction false} ElementsTested(elements: seq<Element>, tail: Tail, g: nat, decoded: nat, max: nat,
          accept: Accept)
    ensures Tested(VisitElements(elements, tail, g, decoded, max, accept).visit.hits, accept)
  {
    if elements == [] {
      if tail.Within? && decoded < max {
        GroupTested(tail.fields, Some((tail.partial, tail.fault)), g, decoded + 1, max, accept);
      }
    } else if decoded < max && elements[0].Object? {
      var gv := VisitGroup(elements[0].fields, None, g, decoded + 1, max, accept);
      GroupTested(elements[0].fields, None, g, decoded + 1, max, accept);
      ElementsTested(elements[1..], tail, g + 1, gv.visit.decoded, max, accept);
    }
  }

  // ---------------------------------------------------------------- what is listed

  /** Every match on the page is accepted under the snapshot it is listed under. */
  predicate Authorized(groups: seq<FindGroup>, accept: Accept) {
    forall i, j :: 0 <= i < |groups| && 0 <= j < |groups[i].matches| ==>
        accept(groups[i].snapshot, groups[i].matches[j])
  }

  predicate AuthorizedRows(rows: seq<Row>, accept: Accept) {
    forall i :: 0 <= i < |rows| ==> accept(rows[i].snapshot, rows[i].entry)
  }

  lemma {:induction false} AuthorizedByRows(groups: seq<FindGroup>, accept: Accept)
    ensures Authorized(groups, accept) <==> AuthorizedRows(Rows(groups), accept)
  {
    if groups != [] {
      var n := |groups| - 1;
      var front, own := groups[..n], RowsUnder(groups[n].snapshot, groups[n].matches);
      AuthorizedByRows(front, accept);
      assert AuthorizedRows(own, accept) <==>
        forall j :: 0 <= j < |groups[n].matches| ==> accept(groups[n].snapshot, groups[n].matches[j]);
      RowsAuthorizedTogether(Rows(front), own, accept);
      assert forall i :: 0 <= i < n ==> front[i] == groups[i];
    }
  }

  lemma RowsAuthorizedTogether(a: seq<Row>, b: seq<Row>, accept: Accept)
    ensures AuthorizedRows(a + b, accept) <==> AuthorizedRows(a, accept) && AuthorizedRows(b, accept)
  {
    forall i | 0 <= i < |a| ensures (a + b)[i] == a[i] {
    }
    forall i | 0 <= i < |b| ensures (a + b)[|a| + i] == b[i] {
    }
  }

  /** The group of hit `j` is over within `c` hits, and hit `n`, in a later group, overflows a page of `c`. */
  ghost predicate ClosedByPage(hits: seq<Hit>, j: nat, c: nat, n: nat) {
    && c >= 1 && j + c <= n < |hits|
    && hits[j + c].group != hits[j].group && hits[n - c].group == hits[n].group
  }

  /** Some page lists hit `j` with its group read to the end: the document can be read to its end, or a later
      group holds more accepted matches than are left of the own group from `j` on. */
  ghost predicate CanBeClosed(f: Found, j: nat) {
    || f.visit.stop == Ended || f.visit.stop == OutOfBudget
    || exists c: nat, n: nat :: ClosedByPage(f.visit.hits, j, c, n)
  }

  /** A hit is accepted under the final id of its group, if some page can show it with that, and under the ids of
      the hits that follow it in the group, at any of which a page may end. */
  ghost predicate StaysAuthorized(f: Found, accept: Accept) {
    && (forall j :: 0 <= j < |f.visit.hits| && CanBeClosed(f, j) ==>
          accept(IDOf(f.ids, f.visit.hits[j].group), f.visit.hits[j].entry))
    && (forall j, n :: 0 <= j < n < |f.visit.hits| && f.visit.hits[j].group == f.visit.hits[n].group ==>
          accept(f.visit.hits[n].id, f.visit.hits[j].entry))
  }

  ghost predicate InRange(f: Found) {
    Grouped(f.visit.hits) && forall i :: 0 <= i < |f.visit.hits| ==> f.visit.hits[i].group < |f.ids|
  }

  /** A hit on a page that ends in another group can be closed. */
  lemma PageCloses(f: Found, skip: nat, limit: nat, j: nat)
    requires InRange(f) && skip <= j < |f.visit.hits|
    requires var u := Drop(f.visit.hits, skip);
      var n := PageLength(u, limit);
      j - skip < n < |u| && u[n].group != f.visit.hits[j].group
    ensures CanBeClosed(f, j)
  {
    var h := f.visit.hits;
    var u := Drop(h, skip);
    var n := PageLength(u, limit);
    assert u[n] == h[skip + n] && u[n - limit] == h[skip + n - limit];
    assert h[skip + n - limit].group == h[skip + n].group;
    assert h[j].group < h[skip + n].group;
    assert j < skip + n - limit;
    assert !Overflows(u, j + limit - skip, limit);
    assert u[j + limit - skip] == h[j + limit] && u[j - skip] == h[j];
    assert ClosedByPage(h, j, limit, skip + n);
  }

  lemma PageRowsAreAuthorized(f: Found, accept: Accept, skip: nat, limit: nat)
    requires InRange(f) && StaysAuthorized(f, accept) && PageOf(f.visit, skip, limit).Page?
    ensures AuthorizedRows(RowsOf(PageOf(f.visit, skip, limit).hits, PageIDs(f, skip, limit)), accept)
  {
    var u, p := Drop(f.visit.hits, skip), PageOf(f.visit, skip, limit).hits;
    var n := PageLength(u, limit);
    forall k | 0 <= k < |p| ensures accept(IDOf(PageIDs(f, skip, limit), p[k].group), p[k].entry) {
      assert p[k] == u[k] == f.visit.hits[skip + k];
      if n < |u| {
        assert u[n] == f.visit.hits[skip + n] && u[k].group <= u[n].group;
        if u[k].group != u[n].group {
          PageCloses(f, skip, limit, skip + k);
        }
      }
    }
  }

  /** A page that starts at hit `j` and holds all that is left lists it under its group's final id. */
  lemma WholePageShows(f: Found, j: nat)
    requires InRange(f) && j < |f.visit.hits| && (f.visit.stop == Ended || f.visit.stop == OutOfBudget)
    ensures ShowsFirst(f, j, |f.visit.hits| + 1, Row(IDOf(f.ids, f.visit.hits[j].group), f.visit.hits[j].entry))
  {
    var u := Drop(f.visit.hits, j);
    PageLengthIs(u, |f.visit.hits| + 1, |u|);
  }

  /** A page that starts at hit `j` and ends in a later group lists it under its group's final id. */
  lemma ClosedPageShows(f: Found, j: nat, c: nat, n: nat)
    requires InRange(f) && ClosedByPage(f.visit.hits, j, c, n)
    ensures ShowsFirst(f, j, c, Row(IDOf(f.ids, f.visit.hits[j].group), f.visit.hits[j].entry))
  {
    var h := f.visit.hits;
    var u := Drop(h, j);
    var end := PageLength(u, c);
    assert u[n - j] == h[n] && u[n - j - c] == h[n - c];
    assert Overflows(u, n - j, c);
    assert end <= n - j && c <= end;
    assert u[end] == h[j + end] && h[j + c].group <= h[j + end].group && h[j].group < h[j + c].group;
  }

  /** The page of `limit` matches that starts at hit `j` lists `row` first. */
  ghost predicate ShowsFirst(f: Found, j: nat, limit: nat, row: Row) {
    && PageOf(f.visit, j, limit).Page?
    && RowsOf(PageOf(f.visit, j, limit).hits, PageIDs(f, j, limit)) != []
    && RowsOf(PageOf(f.visit, j, limit).hits, PageIDs(f, j, limit))[0] == row
  }

  /** A page that starts at hit `j` and ends at hit `n` of the same group lists `j` under the id of `n`. */
  lemma BrokenPageShows(f: Found, j: nat, n: nat)
    requires InRange(f) && j < n < |f.visit.hits| && f.visit.hits[j].group == f.visit.hits[n].group
    ensures ShowsFirst(f, j, n - j, Row(f.visit.hits[n].id, f.visit.hits[j].entry))
  {
    var u := Drop(f.visit.hits, j);
    assert u[0] == f.visit.hits[j] && u[n - j] == f.visit.hits[n];
    PageLengthIs(u, n - j, n - j);
  }

  ghost predicate AllPagesAuthorized(doc: Document, max: nat, accept: Accept) {
    forall skip: nat, limit: nat :: PageOfDocument(doc, max, skip, limit, accept).Scanned? ==>
      Authorized(PageOfDocument(doc, max, skip, limit, accept).groups, accept)
  }

  /** Whatever some page lists first is accepted under the snapshot it is listed under. */
  ghost predicate FirstRowsAccepted(f: Found, accept: Accept) {
    forall skip: nat, limit: nat, row: Row :: ShowsFirst(f, skip, limit, row) ==> accept(row.snapshot, row.entry)
  }

  lemma UnderFinalID(f: Found, accept: Accept, j: nat)
    requires FirstRowsAccepted(f, accept)
    requires InRange(f) && j < |f.visit.hits| && CanBeClosed(f, j)
    ensures accept(IDOf(f.ids, f.visit.hits[j].group), f.visit.hits[j].entry)
  {
    if f.visit.stop == Ended || f.visit.stop == OutOfBudget {
      WholePageShows(f, j);
    } else {
      var c: nat, n: nat :| ClosedByPage(f.visit.hits, j, c, n);
      ClosedPageShows(f, j, c, n);
    }
  }

  lemma UnderLaterID(f: Found, accept: Accept, j: nat, n: nat)
    requires FirstRowsAccepted(f, accept)
    requires InRange(f) && j < n < |f.visit.hits| && f.visit.hits[j].group == f.visit.hits[n].group
    ensures accept(f.visit.hits[n].id, f.visit.hits[j].entry)
  {
    BrokenPageShows(f, j, n);
  }

  lemma AuthorizedPagesTell(doc: Document, max: nat, accept: Accept, f: Found)
    requires AllPagesAuthorized(doc, max, accept) && f == VisitDocument(doc, max, accept)
    requires InRange(f)
    ensures StaysAuthorized(f, accept)
  {
    forall skip: nat, limit: nat, row: Row | ShowsFirst(f, skip, limit, row) ensures accept(row.snapshot, row.entry) {
      ShownRowIsAccepted(doc, max, accept, f, skip, limit, row);
    }
    FirstRowsTell(f, accept);
  }

  lemma FirstRowsTell(f: Found, accept: Accept)
    requires FirstRowsAccepted(f, accept) && InRange(f)
    ensures StaysAuthorized(f, accept)
  {
    forall j | 0 <= j < |f.visit.hits| && CanBeClosed(f, j)
      ensures accept(IDOf(f.ids, f.visit.hits[j].group), f.visit.hits[j].entry) {
      UnderFinalID(f, accept, j);
    }
    forall j, n | 0 <= j < n < |f.visit.hits| && f.visit.hits[j].group == f.visit.hits[n].group
      ensures accept(f.visit.hits[n].id, f.visit.hits[j].entry)
    {
      UnderLaterID(f, accept, j, n);
    }
  }

  /** The exact condition for the policy to hold on every page that can be asked for, of malformed documents too:
      every hit must be accepted under the id of every later hit of its group, and under its group's final id
      unless no page can show it with that. */
  lemma PagesAuthorizedIff(doc: Document, max: nat, accept: Accept)
    ensures AllPagesAuthorized(doc, max, accept) <==> StaysAuthorized(VisitDocument(doc, max, accept), accept)
  {
    DocumentShaped(doc, max, accept);
    if StaysAuthorized(VisitDocument(doc, max, accept), accept) {
      forall skip: nat, limit: nat | PageOfDocument(doc, max, skip, limit, accept).Scanned?
        ensures Authorized(PageOfDocument(doc, max, skip, limit, accept).groups, accept)
      {
        PageIsAuthorized(doc, max, accept, skip, limit);
      }
    }
    if AllPagesAuthorized(doc, max, accept) {
      AuthorizedPagesTell(doc, max, accept, VisitDocument(doc, max, accept));
    }
  }

  lemma PageIsAuthorized(doc: Document, max: nat, accept: Accept, skip: nat, limit: nat)
    requires StaysAuthorized(VisitDocument(doc, max, accept), accept)
    requires PageOfDocument(doc, max, skip, limit, accept).Scanned?
    ensures Authorized(PageOfDocument(doc, max, skip, limit, accept).groups, accept)
  {
    var f := VisitDocument(doc, max, accept);
    DocumentShaped(doc, max, accept);
    PageRegrouped(doc, max, skip, limit, accept);
    PageRowsAreAuthorized(f, accept, skip, limit);
    AuthorizedByRows(PageOfDocument(doc, max, skip, limit, accept).groups, accept);
  }

  lemma ShownRowIsAccepted(doc: Document, max: nat, accept: Accept, f: Found, skip: nat, limit: nat, row: Row)
    requires AllPagesAuthorized(doc, max, accept) && f == VisitDocument(doc, max, accept)
    requires ShowsFirst(f, skip, limit, row)
    ensures accept(row.snapshot, row.entry)
  {
    assert PageOfDocument(doc, max, skip, limit, accept).Scanned?;
    PageRegrouped(doc, max, skip, limit, accept);
    AuthorizedByRows(PageOfDocument(doc, max, skip, limit, accept).groups, accept);
  }

  // ---------------------------------------------------------------- groups that keep their id

  /** No snapshot key with another id comes after a matches array that was streamed; `id` is the id so far. */
  predicate Steady(fields: seq<Field>, id: string, streamed: bool) {
    if fields == [] then true
    else match fields[0]
      case SnapshotField(next) => (streamed ==> next == id) && Steady(fields[1..], next, streamed)
      case MatchesField(matches) =>
        Steady(fields[1..], id, streamed || (id != "" && matches.Array? && matches.items != []))
      case _ => Steady(fields[1..], id, streamed)
  }

  predicate SteadyElement(element: Element) {
    element.Object? ==> Steady(element.fields, "", false)
  }

  predicate SteadyDocument(doc: Document) {
    doc.List? ==>
      && (forall i :: 0 <= i < |doc.elements| ==> SteadyElement(doc.elements[i]))
      && (doc.tail.Within? ==> Steady(doc.tail.fields, "", false))
  }

  predicate AllUnder(hits: seq<Hit>, id: string) {
    forall i :: 0 <= i < |hits| ==> hits[i].id == id
  }

  lemma AllUnderTogether(v: Visit, w: Visit, id: string)
    requires AllUnder(v.hits, id) && AllUnder(w.hits, id)
    ensures AllUnder(Then(v, w).hits, id)
  {
  }

  lemma {:induction false} SteadyFieldsKeepID(fields: seq<Field>, g: nat, id: string, pending: Option<Matches>,
          streamed: bool,
          decoded: nat, max: nat, accept: Accept)
    requires Steady(fields, id, streamed)
    ensures var gv := VisitFields(fields, g, id, pending, decoded, max, accept);
      (streamed ==> gv.id == id) && AllUnder(gv.visit.hits, gv.id)
  {
    if fields != [] {
      var first := VisitField(fields[0], g, id, pending, decoded, max, accept);
      FieldTested(fields[0], g, id, pending, decoded, max, accept);
      if first.visit.stop.Running? {
        var streamed' := streamed
          || (fields[0].MatchesField? && id != "" && fields[0].matches.Array? && fields[0].matches.items != []);
        assert first.visit.hits != [] ==> streamed' && first.id == id;
        SteadyFieldsKeepID(fields[1..], g, first.id, first.pending, streamed', first.visit.decoded, max, accept);
        var rest := VisitFields(fields[1..], g, first.id, first.pending, first.visit.decoded, max, accept);
        assert AllUnder(first.visit.hits, rest.id);
        AllUnderTogether(first.visit, rest.visit, rest.id);
      }
    }
  }

  lemma SteadyGroupKeepsID(fields: seq<Field>, tail: Option<(Partial, Fault)>, g: nat, decoded: nat, max: nat,
          accept: Accept)
    requires Steady(fields, "", false)
    ensures var gv := VisitGroup(fields, tail, g, decoded, max, accept);
      forall i :: 0 <= i < |gv.visit.hits| ==> gv.visit.hits[i].id == gv.id && gv.visit.hits[i].group == g
  {
    SteadyFieldsKeepID(fields, g, "", None, false, decoded, max, accept);
    FieldsTested(fields, g, "", None, decoded, max, accept);
    GroupEndTested(VisitFields(fields, g, "", None, decoded, max, accept), tail, g, max, accept);
  }

  /** Every hit has the final id of its group, the groups being numbered from `g`. */
  ghost predicate OwnIDs(f: Found, g: nat) {
    forall i :: 0 <= i < |f.visit.hits| ==>
      var h := f.visit.hits[i];
      g <= h.group < g + |f.ids| && f.ids[h.group - g] == h.id
  }

  lemma OwnIDsThen(gv: GroupVisit, rest: Found, g: nat)
    requires forall i :: 0 <= i < |gv.visit.hits| ==> gv.visit.hits[i].id == gv.id && gv.visit.hits[i].group == g
    requires OwnIDs(rest, g + 1)
    ensures OwnIDs(FoundThen(Found(gv.visit, [gv.id]), rest), g)
  {
  }

  lemma {:induction false} SteadyElementsOwnIDs(elements: seq<Element>, tail: Tail, g: nat, decoded: nat, max: nat,
          accept: Accept)
    requires SteadyDocument(List(elements, tail))
    ensures OwnIDs(VisitElements(elements, tail, g, decoded, max, accept), g)
  {
    if elements == [] {
      if tail.Within? && decoded < max {
        SteadyGroupKeepsID(tail.fields, Some((tail.partial, tail.fault)), g, decoded + 1, max, accept);
      }
    } else if decoded < max && elements[0].Object? {
      assert SteadyElement(elements[0]);
      var gv := VisitGroup(elements[0].fields, None, g, decoded + 1, max, accept);
      SteadyGroupKeepsID(elements[0].fields, None, g, decoded + 1, max, accept);
      assert forall i :: 0 <= i < |elements| - 1 ==> elements[1..][i] == elements[i + 1];
      SteadyElementsOwnIDs(elements[1..], tail, g + 1, gv.visit.decoded, max, accept);
      OwnIDsThen(gv, VisitElements(elements[1..], tail, g + 1, gv.visit.decoded, max, accept), g);
    }
  }

  lemma SteadyVisit(doc: Document, max: nat, accept: Accept)
    requires SteadyDocument(doc)
    ensures var f := VisitDocument(doc, max, accept);
      OwnIDs(f, 0) && Tested(f.visit.hits, accept) && StaysAuthorized(f, accept)
  {
    if doc.List? {
      SteadyElementsOwnIDs(doc.elements, doc.tail, 0, 0, max, accept);
      ElementsTested(doc.elements, doc.tail, 0, 0, max, accept);
    }
  }

  /** In a document whose groups keep their ids, every match on every page is accepted under the snapshot
      it is listed under: whatever the page asked for, the budgets, and wherever the output breaks off. */
  lemma SteadyPagesAreAuthorized(doc: Document, max: nat, skip: nat, limit: nat, accept: Accept)
    requires SteadyDocument(doc) && PageOfDocument(doc, max, skip, limit, accept).Scanned?
    ensures Authorized(PageOfDocument(doc, max, skip, limit, accept).groups, accept)
  {
    SteadyVisit(doc, max, accept);
    PageIsAuthorized(doc, max, accept, skip, limit);
  }

  lemma {:induction false} OneIDIsSteady(fields: seq<Field>, current: string, streamed: bool, id: string)
    requires forall k :: 0 <= k < |fields| && fields[k].SnapshotField? ==> fields[k].id == id
    requires streamed ==> current == id
    requires current == "" || current == id
    ensures Steady(fields, current, streamed)
  {
    if fields != [] {
      var next := if fields[0].SnapshotField? then id else current;
      var streamed' := streamed
        || (fields[0].MatchesField? && current != "" && fields[0].matches.Array? && fields[0].matches.items != []);
      OneIDIsSteady(fields[1..], next, streamed', id);
    }
  }

  /** Well-formed groups name one snapshot each, so their pages are authorized. */
  lemma WellFormedListsAreSteady(elements: seq<Element>, cs: seq<KeyOrder.Carried>, tail: Tail)
    requires KeyOrder.ListCarries(elements, cs) && !tail.Within?
    ensures SteadyDocument(List(elements, tail))
  {
    forall i | 0 <= i < |elements| ensures SteadyElement(elements[i]) {
      assert KeyOrder.Carries(elements[i], cs[i]);
      OneIDIsSteady(elements[i].fields, "", false, cs[i].id);
    }
  }

  // ---------------------------------------------------------------- which id is final

  /** Every streamed array with an accepted match was tested under the id `last`; `id` is the id so far. */
  predicate Settled(fields: seq<Field>, id: string, last: string, accept: Accept) {
    if fields == [] then true
    else match fields[0]
      case SnapshotField(next) => Settled(fields[1..], next, last, accept)
      case MatchesField(matches) =>
        && (id != "" && matches.Array? && KeyOrder.AcceptedItems(id, matches.items, accept) != [] ==> id == last)
        && Settled(fields[1..], id, last, accept)
      case _ => Settled(fields[1..], id, last, accept)
  }

  lemma {:induction false} FieldsSettled(fields: seq<Field>, g: nat, id: string, pending: Option<Matches>, last: string,
          decoded: nat, max: nat, accept: Accept)
    requires VisitFields(fields, g, id, pending, decoded, max, accept).visit.stop.Running?
    ensures var hits := VisitFields(fields, g, id, pending, decoded, max, accept).visit.hits;
      (forall i :: 0 <= i < |hits| ==> hits[i].id == last) <==> Settled(fields, id, last, accept)
  {
    if fields != [] {
      var first := VisitField(fields[0], g, id, pending, decoded, max, accept);
      var rest := VisitFields(fields[1..], g, first.id, first.pending, first.visit.decoded, max, accept);
      FieldTested(fields[0], g, id, pending, decoded, max, accept);
      FieldsSettled(fields[1..], g, first.id, first.pending, last, first.visit.decoded, max, accept);
      if fields[0].MatchesField? && fields[0].matches.Array? && id != "" {
        KeyOrder.WholeArrayYields(fields[0].matches.items, g, id, decoded, max, accept);
      }
      SameIDTogether(first.visit.hits, rest.visit.hits, id, last);
    }
  }

  lemma SameIDTogether(a: seq<Hit>, b: seq<Hit>, id: string, last: string)
    requires forall i :: 0 <= i < |a| ==> a[i].id == id
    ensures (forall i :: 0 <= i < |a + b| ==> (a + b)[i].id == last)
       <==> (a == [] || id == last) && forall i :: 0 <= i < |b| ==> b[i].id == last
  {
    assert a != [] ==> (a + b)[0] == a[0];
    forall i | 0 <= i < |b| ensures (a + b)[|a| + i] == b[i] {
    }
  }

  /** A group that was read whole has tested all its matches under its final id exactly when no array with an
      accepted match was streamed under another. */
  lemma GroupSettledIff(fields: seq<Field>, g: nat, decoded: nat, max: nat, accept: Accept)
    requires VisitGroup(fields, None, g, decoded, max, accept).visit.stop.Running?
    ensures var gv := VisitGroup(fields, None, g, decoded, max, accept);
      (forall i :: 0 <= i < |gv.visit.hits| ==> gv.visit.hits[i].id == gv.id) <==> Settled(fields, "", gv.id, accept)
  {
    var gv := VisitFields(fields, g, "", None, decoded, max, accept);
    var end := VisitGroupEnd(gv, None, g, max, accept);
    FieldsSettled(fields, g, "", None, gv.id, decoded, max, accept);
    GroupEndTested(gv, None, g, max, accept);
    assert forall i :: 0 <= i < |gv.visit.hits| ==> (gv.visit.hits + end.hits)[i] == gv.visit.hits[i];
  }

  /** Another snapshot key after the matches moves them: a match that is accepted under the first id only is
      listed under the second, on a page that is complete. */
  lemma LateIDMovesMatches(a: string, b: string, m: RawMatch, accept: Accept)
    requires ConcreteID(a) && ConcreteID(b) && EntryOf(m).Some?
    requires accept(a, EntryOf(m).value) && !accept(b, EntryOf(m).value)
    ensures var doc := List([Object([SnapshotField(a), MatchesField(Array([m])), SnapshotField(b)])], Closed);
      var r := PageOfDocument(doc, 100, 0, 10, accept);
      && r == Scanned([FindGroup(1, b, [EntryOf(m).value])], Stats(2, 1, 1, true, false, false, false))
      && !Authorized(r.groups, accept)
  {
    var fields := [SnapshotField(a), MatchesField(Array([m])), SnapshotField(b)];
    var e := EntryOf(m).value;
    var hit := Hit(0, a, e, 2);
    LateIDGroup(a, b, m, accept);
    var elements := [Object(fields)];
    assert elements[1..] == [] && [hit] + [] == [hit] && [b] + [] == [b];
    assert VisitElements([], Closed, 1, 2, 100, accept) == Found(Visit([], 2, Ended), []);
    assert VisitDocument(List(elements, Closed), 100, accept) == Found(Visit([hit], 2, Ended), [b]);
    OneHitPage(hit, b, Ended);
    var groups := [FindGroup(1, b, [e])];
    assert groups[0].matches[0] == e;
  }

  lemma LateIDGroup(a: string, b: string, m: RawMatch, accept: Accept)
    requires ConcreteID(a) && ConcreteID(b) && EntryOf(m).Some? && accept(a, EntryOf(m).value)
    ensures var fields := [SnapshotField(a), MatchesField(Array([m])), SnapshotField(b)];
      var gv := VisitGroup(fields, None, 0, 1, 100, accept);
      gv.visit == Visit([Hit(0, a, EntryOf(m).value, 2)], 2, Running) && gv.id == b
  {
    var f0, f1, f2 := SnapshotField(a), MatchesField(Array([m])), SnapshotField(b);
    var hit := Hit(0, a, EntryOf(m).value, 2);
    assert [f0, f1, f2][1..] == [f1, f2] && [f1, f2][1..] == [f2] && [f2][1..] == [];
    OneItem(m, 0, a, 1, 100, accept);
    assert [hit] + [] == [hit] && [] + [hit] == [hit];
    assert VisitFields([f2], 0, a, None, 2, 100, accept) == GroupVisit(Visit([], 2, Running), b, None);
    assert VisitFields([f1, f2], 0, a, None, 1, 100, accept) == GroupVisit(Visit([hit], 2, Running), b, None);
    assert VisitFields([f0, f1, f2], 0, "", None, 1, 100, accept) == GroupVisit(Visit([hit], 2, Running), b, None);
  }

  // ---------------------------------------------------------------- the client

  function ShowsRows(): (seq<FindGroup>, seq<Hit>) -> bool {
    (groups, hits) => multiset(Rows(groups)) == multiset(Map(hits, HitRow))
  }

  lemma OwnRows(f: Found, skip: nat, limit: nat)
    requires OwnIDs(f, 0) && InRange(f) && PageOf(f.visit, skip, limit).Page?
    ensures RowsOf(PageOf(f.visit, skip, limit).hits, PageIDs(f, skip, limit))
        == Map(PageOf(f.visit, skip, limit).hits, HitRow)
  {
    var u, p := Drop(f.visit.hits, skip), PageOf(f.visit, skip, limit).hits;
    var n := PageLength(u, limit);
    forall k | 0 <= k < |p| ensures IDOf(PageIDs(f, skip, limit), p[k].group) == p[k].id {
      assert p[k] == u[k] == f.visit.hits[skip + k];
      if n < |u| {
        assert u[n] == f.visit.hits[skip + n] && u[k].group <= u[n].group;
      }
    }
  }

  lemma SteadyAnswers(doc: Document, max: nat, accept: Accept, offset: nat, limit: nat)
    requires SteadyDocument(doc)
    ensures Answers(FindDisplay.SearchReply(doc, max, accept, offset, limit),
                    PageOf(VisitDocument(doc, max, accept).visit, offset, limit), ShowsRows())
  {
    var f := VisitDocument(doc, max, accept);
    DocumentShaped(doc, max, accept);
    if PageOf(f.visit, offset, limit).Page? {
      SteadyVisit(doc, max, accept);
      OwnRows(f, offset, limit);
      PageRegrouped(doc, max, offset, limit, accept);
      FindDisplay.DisplayKeepsMatches(PageOfDocument(doc, max, offset, limit, accept).groups);
      FlagDiscipline(f.visit, offset, limit);
    }
  }

  /** A client that searches such a document to the end is shown, over all its pages, every accepted match
      exactly as often as it was accepted and under the snapshot it was accepted under, and nothing else. */
  lemma SteadySearchDelivers(doc: Document, max: nat, accept: Accept, limits: nat -> nat)
    requires SteadyDocument(doc) && forall i :: limits(i) >= 1
    ensures var r, v := FindDisplay.Search(doc, max, accept, limits), VisitDocument(doc, max, accept).visit;
      var shown := multiset(Flatten(Map(r.pages, Rows)));
      && Tested(v.hits, accept)
      && (r.finish != Failed ==> shown == multiset(Map(v.hits, HitRow)))
      && shown <= multiset(Map(v.hits, HitRow))
  {
    var fetch := (o: nat, l: nat) => FindDisplay.SearchReply(doc, max, accept, o, l);
    var v := VisitDocument(doc, max, accept).visit;
    var r, w := FindDisplay.Search(doc, max, accept, limits), WalkFrom(v, limits, 0, 0);
    FindDisplay.SearchServes(doc, max, accept);
    forall offset: nat, limit: nat ensures Answers(fetch(offset, limit), PageOf(v, offset, limit), ShowsRows()) {
      SteadyAnswers(doc, max, accept, offset, limit);
    }
    ClientSeesWalk(fetch, v, ShowsRows(), limits, 0, 0);
    ShownRearranged(w.pages, Map(r.pages, Rows), HitRow);
    FindWalkDelivers(doc, max, accept, limits);
    RowsOfPrefix(Flatten(w.pages), v.hits);
    SteadyVisit(doc, max, accept);
  }

  lemma RowsOfPrefix(a: seq<Hit>, b: seq<Hit>)
    requires a <= b
    ensures multiset(Map(a, HitRow)) <= multiset(Map(b, HitRow))
  {
    MapAppend(a, b[|a|..], HitRow);
    assert b == a + b[|a|..];
  }

  lemma AllDecodedRows(v: Visit, cs: seq<KeyOrder.Carried>, accept: Accept)
    requires KeyOrder.YieldsDecoded(v, cs, 0, accept)
    ensures v.decoded <= KeyOrder.Records(cs)
    ensures Map(v.hits, HitRow) == KeyOrder.AcceptedRows(KeyOrder.FirstRecords(cs, v.decoded), accept)
    ensures v.stop == Ended ==> Map(v.hits, HitRow) == KeyOrder.AcceptedRows(cs, accept)
  {
    KeyOrder.AllRecords(cs);
  }

  lemma CarriedVisit(elements: seq<Element>, cs: seq<KeyOrder.Carried>, tail: Tail, max: nat, accept: Accept)
    requires KeyOrder.ListCarries(elements, cs) && !tail.Within?
    ensures KeyOrder.YieldsDecoded(VisitDocument(List(elements, tail), max, accept).visit, cs, 0, accept)
  {
    KeyOrder.ListYieldsCarried(elements, cs, tail, 0, 0, max, accept);
    KeyOrder.CarriedRows(cs, tail, 0, 0, max, accept);
  }

  /** A client that searches a list of well-formed groups to the end is shown, over all its pages, under the
      snapshots that carry them, exactly the accepted matches: all of them when the document ends normally, those
      among the first decoded records when a budget ends the scan, and nothing else when it is malformed. */
  lemma CarriedSearchDelivers(elements: seq<Element>, cs: seq<KeyOrder.Carried>, tail: Tail, max: nat, accept: Accept,
          limits: nat -> nat)
    requires KeyOrder.ListCarries(elements, cs) && !tail.Within? && forall i :: limits(i) >= 1
    ensures var doc := List(elements, tail);
      var r, v := FindDisplay.Search(doc, max, accept, limits), VisitDocument(doc, max, accept).visit;
      var shown := multiset(Flatten(Map(r.pages, Rows)));
      var read := multiset(KeyOrder.AcceptedRows(KeyOrder.FirstRecords(cs, v.decoded), accept));
      && r.finish == v.stop && v.decoded <= KeyOrder.Records(cs)
      && (r.finish == Ended ==> shown == multiset(KeyOrder.AcceptedRows(cs, accept)))
      && (r.finish == OutOfBudget ==> shown == read)
      && shown <= read
  {
    var doc := List(elements, tail);
    var v := VisitDocument(doc, max, accept).visit;
    WellFormedListsAreSteady(elements, cs, tail);
    SteadySearchDelivers(doc, max, accept, limits);
    FindDisplay.SearchDelivers(doc, max, accept, limits);
    CarriedVisit(elements, cs, tail, max, accept);
    AllDecodedRows(v, cs, accept);
  }
}
