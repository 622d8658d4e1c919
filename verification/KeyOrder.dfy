/** The order of the keys in a `find` group, and what a complete scan counts. */
module KeyOrder {
  import opened Basics
  import opened Paging
  import opened ScanFind
  import opened FindPages

  // ---------------------------------------------------------------- key order

  /** A well-formed group object: one snapshot key, one matches key, nothing else of interest. */
  ghost predicate GroupObject(fields: seq<Field>, i: nat, j: nat, id: string, items: seq<RawMatch>) {
    && i < |fields| && j < |fields| && i != j && ConcreteID(id)
    && fields[i] == SnapshotField(id) && fields[j] == MatchesField(Array(items))
    && forall k :: 0 <= k < |fields| && k != i && k != j ==> fields[k] == Ignored
  }

  lemma {:induction false} IgnoredKeys(fields: seq<Field>, g: nat, id: string, pending: Option<Matches>, decoded: nat,
          max: nat, accept: Accept)
    requires forall k :: 0 <= k < |fields| ==> fields[k] == Ignored
    ensures VisitFields(fields, g, id, pending, decoded, max, accept)
        == GroupVisit(Visit([], decoded, Running), id, pending)
  {
    if fields != [] {
      IgnoredKeys(fields[1..], g, id, pending, decoded, max, accept);
    }
  }

  /** A key preceded by ignored ones. */
  lemma KeyAfterIgnored(fields: seq<Field>, n: nat, g: nat, id: string, pending: Option<Matches>, decoded: nat,
          max: nat, accept: Accept)
    requires n < |fields| && forall k :: 0 <= k < n ==> fields[k] == Ignored
    ensures VisitFields(fields, g, id, pending, decoded, max, accept)
      == var a := VisitField(fields[n], g, id, pending, decoded, max, accept);
         GroupThen(a, VisitFields(fields[n + 1..], g, a.id, a.pending, a.visit.decoded, max, accept))
  {
    var a := VisitField(fields[n], g, id, pending, decoded, max, accept);
    VisitFieldsAppend(fields[..n], fields[n..], g, id, pending, decoded, max, accept);
    assert fields == fields[..n] + fields[n..];
    IgnoredKeys(fields[..n], g, id, pending, decoded, max, accept);
    assert fields[n..][1..] == fields[n + 1..];
    ThenNothing(VisitFields(fields[n..], g, id, pending, decoded, max, accept).visit, decoded);
  }

  lemma ThenNoMore(v: Visit)
    ensures Then(v, Visit([], v.decoded, Running)) == v
  {
    assert v.hits + [] == v.hits;
  }

  /** Nothing of interest follows the second key. */
  lemma LastKey(fields: seq<Field>, n: nat, g: nat, id: string, pending: Option<Matches>, decoded: nat, max: nat,
          accept: Accept)
    requires n < |fields| && forall k :: 0 <= k < |fields| && k != n ==> fields[k] == Ignored
    ensures VisitFields(fields, g, id, pending, decoded, max, accept)
        == VisitField(fields[n], g, id, pending, decoded, max, accept)
  {
    var a := VisitField(fields[n], g, id, pending, decoded, max, accept);
    KeyAfterIgnored(fields, n, g, id, pending, decoded, max, accept);
    IgnoredKeys(fields[n + 1..], g, a.id, a.pending, a.visit.decoded, max, accept);
    ThenNoMore(a.visit);
  }

  lemma IdFirst(fields: seq<Field>, i: nat, j: nat, id: string, items: seq<RawMatch>, g: nat, decoded: nat, max: nat,
          accept: Accept)
    requires GroupObject(fields, i, j, id, items) && i < j
    ensures VisitFields(fields, g, "", None, decoded, max, accept)
         == GroupVisit(VisitItems(items, g, id, decoded, max, accept), id, None)
  {
    var rest := fields[i + 1..];
    assert rest[j - i - 1] == fields[j];
    KeyAfterIgnored(fields, i, g, "", None, decoded, max, accept);
    LastKey(rest, j - i - 1, g, id, None, decoded, max, accept);
    ThenNothing(VisitItems(items, g, id, decoded, max, accept), decoded);
  }

  lemma MatchesFirst(fields: seq<Field>, i: nat, j: nat, id: string, items: seq<RawMatch>, g: nat, decoded: nat,
          max: nat, accept: Accept)
    requires GroupObject(fields, i, j, id, items) && j < i
    ensures VisitFields(fields, g, "", None, decoded, max, accept)
         == GroupVisit(Visit([], decoded, Running), id, Some(Array(items)))
  {
    var rest := fields[j + 1..];
    assert rest[i - j - 1] == fields[i];
    KeyAfterIgnored(fields, j, g, "", None, decoded, max, accept);
    LastKey(rest, i - j - 1, g, "", Some(Array(items)), decoded, max, accept);
    ThenNothing(Visit([], decoded, Running), decoded);
  }

  /** Wherever its keys stand, a well-formed group is its matches tested under its id: the buffered path
      and the streaming path agree, even when the decoded-entry limit stops them. */
  lemma KeyOrderDoesNotMatter(fields: seq<Field>, i: nat, j: nat, id: string, items: seq<RawMatch>,
                              g: nat, decoded: nat, max: nat, accept: Accept)
    requires GroupObject(fields, i, j, id, items)
    ensures var gv := VisitGroup(fields, None, g, decoded, max, accept);
      gv.visit == VisitItems(items, g, id, decoded, max, accept) && gv.id == id
  {
    var v := VisitItems(items, g, id, decoded, max, accept);
    ThenNoMore(v);
    ThenNothing(v, decoded);
    if i < j {
      IdFirst(fields, i, j, id, items, g, decoded, max, accept);
    } else {
      MatchesFirst(fields, i, j, id, items, g, decoded, max, accept);
    }
  }

  /** What a well-formed group carries. */
  datatype Carried = Carried(id: string, items: seq<RawMatch>)

  ghost predicate Carries(element: Element, c: Carried) {
    element.Object? && exists i: nat, j: nat :: GroupObject(element.fields, i, j, c.id, c.items)
  }

  ghost predicate ListCarries(elements: seq<Element>, cs: seq<Carried>) {
    |elements| == |cs| && forall k :: 0 <= k < |cs| ==> Carries(elements[k], cs[k])
  }

  /** What the carried groups yield, with no JSON left in sight. */
  function VisitCarried(cs: seq<Carried>, tail: Tail, g: nat, decoded: nat, max: nat, accept: Accept): Found {
    if cs == [] then VisitTail(tail, g, decoded, max, accept)
    else if decoded >= max then Found(Visit([], decoded, OutOfBudget), [])
    else
      var v := VisitItems(cs[0].items, g, cs[0].id, decoded + 1, max, accept);
      if v.stop.Running? then
        var rest := VisitCarried(cs[1..], tail, g + 1, v.decoded, max, accept);
        Found(Then(v, rest.visit), [cs[0].id] + rest.ids)
      else Found(v, [cs[0].id])
  }

  lemma ElementYieldsCarried(element: Element, c: Carried, g: nat, decoded: nat, max: nat, accept: Accept)
    requires Carries(element, c)
    ensures var gv := VisitGroup(element.fields, None, g, decoded, max, accept);
      gv.visit == VisitItems(c.items, g, c.id, decoded, max, accept) && gv.id == c.id
  {
    var i: nat, j: nat :| GroupObject(element.fields, i, j, c.id, c.items);
    KeyOrderDoesNotMatter(element.fields, i, j, c.id, c.items, g, decoded, max, accept);
  }

  lemma RestCarries(elements: seq<Element>, cs: seq<Carried>)
    requires ListCarries(elements, cs) && cs != []
    ensures Carries(elements[0], cs[0]) && ListCarries(elements[1..], cs[1..])
  {
    forall k | 0 <= k < |cs| - 1 ensures Carries(elements[1..][k], cs[1..][k]) {
      assert Carries(elements[k + 1], cs[k + 1]);
    }
  }

  lemma FrontYieldsCarried(elements: seq<Element>, cs: seq<Carried>, tail: Tail, g: nat, decoded: nat, max: nat,
          accept: Accept)
    requires |elements| == |cs| > 0 && decoded < max && elements[0].Object?
    requires var gv := VisitGroup(elements[0].fields, None, g, decoded + 1, max, accept);
      && gv.visit == VisitItems(cs[0].items, g, cs[0].id, decoded + 1, max, accept) && gv.id == cs[0].id
      && VisitElements(elements[1..], tail, g + 1, gv.visit.decoded, max, accept)
         == VisitCarried(cs[1..], tail, g + 1, gv.visit.decoded, max, accept)
    ensures VisitElements(elements, tail, g, decoded, max, accept) == VisitCarried(cs, tail, g, decoded, max, accept)
  {
  }

  lemma {:induction false} ListYieldsCarried(elements: seq<Element>, cs: seq<Carried>, tail: Tail, g: nat,
          decoded: nat, max: nat, accept: Accept)
    requires ListCarries(elements, cs)
    ensures VisitElements(elements, tail, g, decoded, max, accept) == VisitCarried(cs, tail, g, decoded, max, accept)
  {
    if cs != [] && decoded < max {
      RestCarries(elements, cs);
      ElementYieldsCarried(elements[0], cs[0], g, decoded + 1, max, accept);
      var v := VisitItems(cs[0].items, g, cs[0].id, decoded + 1, max, accept);
      ListYieldsCarried(elements[1..], cs[1..], tail, g + 1, v.decoded, max, accept);
      FrontYieldsCarried(elements, cs, tail, g, decoded, max, accept);
    }
  }

  /** Two documents that carry the same groups, whatever the order of the keys, give the same pages:
      groups, counts and flags, for every page request and every decoded-entry limit. */
  lemma FieldOrderIndependence(a: seq<Element>, b: seq<Element>, cs: seq<Carried>, tail: Tail, max: nat, skip: nat,
          limit: nat, accept: Accept)
    requires ListCarries(a, cs) && ListCarries(b, cs)
    ensures PageOfDocument(List(a, tail), max, skip, limit, accept)
        == PageOfDocument(List(b, tail), max, skip, limit, accept)
  {
    ListYieldsCarried(a, cs, tail, 0, 0, max, accept);
    ListYieldsCarried(b, cs, tail, 0, 0, max, accept);
  }

  // ---------------------------------------------------------------- meaning of a complete scan

  /** The accepted ones among the matches of one group. */
  function AcceptedItems(id: string, items: seq<RawMatch>, accept: Accept): seq<Entry> {
    if items == [] then []
    else
      var e := EntryOf(items[0]);
      var rest := AcceptedItems(id, items[1..], accept);
      if e.Some? && accept(id, e.value) then [e.value] + rest else rest
  }

  function AcceptedMatches(cs: seq<Carried>, accept: Accept): seq<Entry> {
    if cs == [] then []
    else AcceptedItems(cs[0].id, cs[0].items, accept) + AcceptedMatches(cs[1..], accept)
  }

  function Records(cs: seq<Carried>): nat {
    if cs == [] then 0 else 1 + |cs[0].items| + Records(cs[1..])
  }

  /** The groups cut down to their first `n` records, a group object being a record and each match another. */
  function FirstRecords(cs: seq<Carried>, n: nat): seq<Carried> {
    if cs == [] || n == 0 then []
    else if n > |cs[0].items| then [cs[0]] + FirstRecords(cs[1..], n - 1 - |cs[0].items|)
    else [Carried(cs[0].id, cs[0].items[..n - 1])]
  }

  /** The accepted matches, each under the snapshot that carries it. */
  function AcceptedRows(cs: seq<Carried>, accept: Accept): seq<Row> {
    if cs == [] then []
    else RowsUnder(cs[0].id, AcceptedItems(cs[0].id, cs[0].items, accept)) + AcceptedRows(cs[1..], accept)
  }

  lemma {:induction false} EntriesOfAcceptedRows(cs: seq<Carried>, accept: Accept)
    ensures RowEntries(AcceptedRows(cs, accept)) == AcceptedMatches(cs, accept)
  {
    if cs != [] {
      EntriesOfAcceptedRows(cs[1..], accept);
    }
  }

  lemma {:induction false} AllRecords(cs: seq<Carried>)
    ensures FirstRecords(cs, Records(cs)) == cs
  {
    if cs != [] {
      AllRecords(cs[1..]);
      assert cs == [cs[0]] + cs[1..];
    }
  }

  lemma {:induction false} FirstItemsAccepted(id: string, items: seq<RawMatch>, n: nat, accept: Accept)
    requires n <= |items|
    ensures AcceptedItems(id, items[..n], accept) <= AcceptedItems(id, items, accept)
  {
    if n > 0 {
      FirstItemsAccepted(id, items[1..], n - 1, accept);
      assert items[..n][1..] == items[1..][..n - 1];
    }
  }

  /** What is accepted among the first records comes first among all that is accepted. */
  lemma {:induction false} FirstRecordsComeFirst(cs: seq<Carried>, n: nat, accept: Accept)
    ensures AcceptedMatches(FirstRecords(cs, n), accept) <= AcceptedMatches(cs, accept)
  {
    if cs != [] && n > 0 {
      var own, others := AcceptedItems(cs[0].id, cs[0].items, accept), AcceptedMatches(cs[1..], accept);
      if n > |cs[0].items| {
        FirstRecordsComeFirst(cs[1..], n - 1 - |cs[0].items|, accept);
        assert ([cs[0]] + FirstRecords(cs[1..], n - 1 - |cs[0].items|))[1..]
            == FirstRecords(cs[1..], n - 1 - |cs[0].items|);
      } else {
        var cut := AcceptedItems(cs[0].id, cs[0].items[..n - 1], accept);
        FirstItemsAccepted(cs[0].id, cs[0].items, n - 1, accept);
        assert cut + [] == cut && cut <= own + others;
      }
    }
  }

  lemma EntriesCons(hit: Hit, rest: seq<Hit>)
    ensures Entries([hit] + rest) == [hit.entry] + Entries(rest)
  {
  }

  /** The hits of one array are the accepted matches among the items that were decoded. */
  lemma {:induction false} ItemsYield(items: seq<RawMatch>, g: nat, id: string, decoded: nat, max: nat, accept: Accept)
    ensures var v := VisitItems(items, g, id, decoded, max, accept);
      && decoded <= v.decoded <= decoded + |items|
      && Entries(v.hits) == AcceptedItems(id, items[..v.decoded - decoded], accept)
      && (v.stop.Running? <==> v.decoded == decoded + |items|)
      && (forall i :: 0 <= i < |v.hits| ==> v.hits[i].id == id)
  {
    if items != [] && decoded < max && EntryOf(items[0]).Some? {
      ItemsYield(items[1..], g, id, decoded + 1, max, accept);
      var e := EntryOf(items[0]).value;
      var rest := VisitItems(items[1..], g, id, decoded + 1, max, accept);
      EntriesCons(Hit(g, id, e, decoded + 1), rest.hits);
      assert items[..rest.decoded - decoded][1..] == items[1..][..rest.decoded - decoded - 1];
    }
  }

  lemma WholeArrayYields(items: seq<RawMatch>, g: nat, id: string, decoded: nat, max: nat, accept: Accept)
    requires VisitItems(items, g, id, decoded, max, accept).stop.Running?
    ensures Entries(VisitItems(items, g, id, decoded, max, accept).hits) == AcceptedItems(id, items, accept)
  {
    ItemsYield(items, g, id, decoded, max, accept);
    assert items[..|items|] == items;
  }

  /** What one group of the list yields. */
  lemma GroupRows(c: Carried, g: nat, decoded: nat, max: nat, accept: Accept)
    ensures var v := VisitItems(c.items, g, c.id, decoded, max, accept);
      var k := v.decoded - decoded;
      && 0 <= k <= |c.items| && (v.stop.Running? <==> k == |c.items|)
      && Map(v.hits, HitRow) == RowsUnder(c.id, AcceptedItems(c.id, c.items[..k], accept))
  {
    ItemsYield(c.items, g, c.id, decoded, max, accept);
  }

  lemma RowsOfFirst(c: Carried, rest: seq<Carried>, accept: Accept)
    ensures AcceptedRows([c] + rest, accept)
         == RowsUnder(c.id, AcceptedItems(c.id, c.items, accept)) + AcceptedRows(rest, accept)
  {
    assert ([c] + rest)[1..] == rest;
  }

  lemma RowsOfOne(c: Carried, accept: Accept)
    ensures AcceptedRows([c], accept) == RowsUnder(c.id, AcceptedItems(c.id, c.items, accept))
  {
    assert [c][1..] == [];
  }

  /** The hits of `v` are the accepted ones among the matches that were decoded since `decoded`. */
  ghost predicate YieldsDecoded(v: Visit, cs: seq<Carried>, decoded: nat, accept: Accept) {
    && decoded <= v.decoded <= decoded + Records(cs)
    && (v.stop == Ended ==> v.decoded == decoded + Records(cs))
    && Map(v.hits, HitRow) == AcceptedRows(FirstRecords(cs, v.decoded - decoded), accept)
  }

  lemma GroupGoesOn(cs: seq<Carried>, v: Visit, w: Visit, decoded: nat, accept: Accept)
    requires cs != [] && v.stop.Running? && v.decoded == decoded + 1 + |cs[0].items|
    requires Map(v.hits, HitRow) == RowsUnder(cs[0].id, AcceptedItems(cs[0].id, cs[0].items, accept))
    requires YieldsDecoded(w, cs[1..], v.decoded, accept)
    ensures YieldsDecoded(Then(v, w), cs, decoded, accept)
  {
    RowsOfFirst(cs[0], FirstRecords(cs[1..], w.decoded - v.decoded), accept);
    MapAppend(v.hits, w.hits, HitRow);
  }

  lemma GroupStops(cs: seq<Carried>, v: Visit, k: nat, decoded: nat, accept: Accept)
    requires cs != [] && v.stop != Ended && k < |cs[0].items| && v.decoded == decoded + 1 + k
    requires Map(v.hits, HitRow) == RowsUnder(cs[0].id, AcceptedItems(cs[0].id, cs[0].items[..k], accept))
    ensures YieldsDecoded(v, cs, decoded, accept)
  {
    RowsOfOne(Carried(cs[0].id, cs[0].items[..k]), accept);
  }

  lemma VisitCarriedStep(cs: seq<Carried>, tail: Tail, g: nat, decoded: nat, max: nat, accept: Accept, v: Visit)
    requires cs != [] && decoded < max && v == VisitItems(cs[0].items, g, cs[0].id, decoded + 1, max, accept)
    ensures VisitCarried(cs, tail, g, decoded, max, accept).visit
         == if v.stop.Running? then Then(v, VisitCarried(cs[1..], tail, g + 1, v.decoded, max, accept).visit) else v
  {
  }

  lemma NoGroupsYield(tail: Tail, g: nat, decoded: nat, max: nat, accept: Accept)
    requires !tail.Within?
    ensures YieldsDecoded(VisitTail(tail, g, decoded, max, accept).visit, [], decoded, accept)
  {
  }

  /** The hits of a list are the accepted ones among the matches that were decoded, whatever stopped the scan. */
  lemma {:induction false} CarriedRows(cs: seq<Carried>, tail: Tail, g: nat, decoded: nat, max: nat, accept: Accept)
    requires !tail.Within?
    ensures YieldsDecoded(VisitCarried(cs, tail, g, decoded, max, accept).visit, cs, decoded, accept)
  {
    if cs == [] {
      NoGroupsYield(tail, g, decoded, max, accept);
    } else if decoded < max {
      var v := VisitItems(cs[0].items, g, cs[0].id, decoded + 1, max, accept);
      GroupRows(cs[0], g, decoded + 1, max, accept);
      VisitCarriedStep(cs, tail, g, decoded, max, accept, v);
      if v.stop.Running? {
        CarriedRows(cs[1..], tail, g + 1, v.decoded, max, accept);
        assert cs[0].items[..|cs[0].items|] == cs[0].items;
        GroupGoesOn(cs, v, VisitCarried(cs[1..], tail, g + 1, v.decoded, max, accept).visit, decoded, accept);
      } else {
        GroupStops(cs, v, v.decoded - decoded - 1, decoded, accept);
      }
    }
  }

  lemma DecodedMatches(v: Visit, cs: seq<Carried>, decoded: nat, accept: Accept)
    requires YieldsDecoded(v, cs, decoded, accept)
    ensures Entries(v.hits) == AcceptedMatches(FirstRecords(cs, v.decoded - decoded), accept)
  {
    EntriesOfAcceptedRows(FirstRecords(cs, v.decoded - decoded), accept);
    EntriesOfHitRows(v.hits);
  }

  /** The same without the snapshots: all accepted matches when the scan ends normally, those among the decoded
      records when anything stops it earlier. */
  lemma CarriedYield(cs: seq<Carried>, tail: Tail, g: nat, decoded: nat, max: nat, accept: Accept)
    requires !tail.Within?
    ensures var v := VisitCarried(cs, tail, g, decoded, max, accept).visit;
      && decoded <= v.decoded <= decoded + Records(cs)
      && Entries(v.hits) == AcceptedMatches(FirstRecords(cs, v.decoded - decoded), accept)
      && Entries(v.hits) <= AcceptedMatches(cs, accept)
      && (v.stop == Ended ==>
            Entries(v.hits) == AcceptedMatches(cs, accept) && v.decoded == decoded + Records(cs))
  {
    var v := VisitCarried(cs, tail, g, decoded, max, accept).visit;
    CarriedRows(cs, tail, g, decoded, max, accept);
    DecodedMatches(v, cs, decoded, accept);
    FirstRecordsComeFirst(cs, v.decoded - decoded, accept);
    AllRecords(cs);
  }

  lemma EntriesOfHitRows(hits: seq<Hit>)
    ensures RowEntries(Map(hits, HitRow)) == Entries(hits)
  {
  }

  lemma SliceOfPrefix(a: seq<Entry>, b: seq<Entry>, skip: nat, n: nat)
    requires a <= b
    ensures Take(Drop(a, skip), n) <= Drop(b, skip)
    ensures n >= |Drop(a, skip)| ==> Take(Drop(a, skip), n) == Drop(a, skip)
  {
  }

  lemma CompletePage(v: Visit, skip: nat, limit: nat)
    requires PageOf(v, skip, limit).Page? && PageOf(v, skip, limit).stats.complete
    ensures var s := PageOf(v, skip, limit).stats;
      v.stop == Ended && s.accepted == |v.hits| && s.decoded == v.decoded && s.page == |Drop(Entries(v.hits), skip)|
  {
  }

  lemma CompletePageDecoded(f: Found, skip: nat, limit: nat)
    requires PageOfFound(f, skip, limit).Scanned? && PageOfFound(f, skip, limit).stats.complete
    ensures f.visit.stop == Ended && PageOfFound(f, skip, limit).stats.decoded == f.visit.decoded
  {
    CompletePage(f.visit, skip, limit);
  }

  /** A complete scan has counted every accepted match of the document, so its total is the true one. */
  lemma CompleteScanCountsEverything(elements: seq<Element>, cs: seq<Carried>, max: nat, skip: nat, limit: nat,
          accept: Accept)
    requires ListCarries(elements, cs)
    requires PageOfDocument(List(elements, Closed), max, skip, limit, accept).Scanned?
    ensures var r := PageOfDocument(List(elements, Closed), max, skip, limit, accept);
      && (r.stats.complete ==>
            && r.stats.accepted == |AcceptedMatches(cs, accept)|
            && r.stats.decoded == Records(cs)
            && MatchesOf(r.groups) == Drop(AcceptedMatches(cs, accept), skip))
      && MatchesOf(r.groups) <= Drop(AcceptedMatches(cs, accept), skip)
  {
    var r := PageOfDocument(List(elements, Closed), max, skip, limit, accept);
    var v := VisitDocument(List(elements, Closed), max, accept).visit;
    ListYieldsCarried(elements, cs, Closed, 0, 0, max, accept);
    CarriedYield(cs, Closed, 0, 0, max, accept);
    FindPageIsSlice(List(elements, Closed), max, skip, limit, accept);
    SliceOfPrefix(Entries(v.hits), AcceptedMatches(cs, accept), skip, r.stats.page);
    if r.stats.complete {
      CompletePage(v, skip, limit);
    }
  }

  // ---------------------------------------------------------------- pages over their limit

  function LoneMatch(id: string, m: RawMatch): Element {
    Object([SnapshotField(id), MatchesField(Array([m]))])
  }

  /** `Paging.PageSizeBound` is not vacuous: two snapshots with one accepted match each fill a page of
      limit 1 with two matches, and the scan calls it complete. */
  lemma FindPageCanExceedItsLimit(id: string, m: RawMatch, accept: Accept)
    requires ConcreteID(id) && EntryOf(m).Some? && accept(id, EntryOf(m).value)
    ensures var doc := List([LoneMatch(id, m), LoneMatch(id, m)], Closed);
      PageOf(VisitDocument(doc, 100, accept).visit, 0, 1)
      == var e := EntryOf(m).value;
         Page([Hit(0, id, e, 2), Hit(1, id, e, 4)], Stats(4, 2, 2, true, false, false, false))
  {
    var elements := [LoneMatch(id, m), LoneMatch(id, m)];
    var cs := [Carried(id, [m]), Carried(id, [m])];
    assert GroupObject(LoneMatch(id, m).fields, 0, 1, id, [m]);
    assert Carries(LoneMatch(id, m), Carried(id, [m]));
    ListYieldsCarried(elements, cs, Closed, 0, 0, 100, accept);
    TwoLoneMatches(id, m, accept);
    var e := EntryOf(m).value;
    var hits := [Hit(0, id, e, 2), Hit(1, id, e, 4)];
    assert Drop(hits, 0) == hits;
    PageLengthIs(hits, 1, 2);
    assert hits[..2] == hits;
  }

  lemma TwoLoneMatches(id: string, m: RawMatch, accept: Accept)
    requires EntryOf(m).Some? && accept(id, EntryOf(m).value)
    ensures VisitCarried([Carried(id, [m]), Carried(id, [m])], Closed, 0, 0, 100, accept).visit
         == Visit([Hit(0, id, EntryOf(m).value, 2), Hit(1, id, EntryOf(m).value, 4)], 4, Ended)
  {
    var e := EntryOf(m).value;
    var c := Carried(id, [m]);
    assert [m][1..] == [] && [c, c][1..] == [c] && [c][1..] == [];
    assert VisitItems([m], 1, id, 3, 100, accept) == Visit([Hit(1, id, e, 4)], 4, Running);
    assert VisitCarried([c], Closed, 1, 2, 100, accept).visit == Visit([Hit(1, id, e, 4)], 4, Ended);
    assert VisitItems([m], 0, id, 1, 100, accept) == Visit([Hit(0, id, e, 2)], 2, Running);
  }
}
