/** Output of `find` that the byte budget cuts short. */
module ByteCuts {
  import opened Basics
  import opened Paging
  import opened ScanFind
  import opened FindPages
  import opened FindReports
  import KeyOrder

  // ---------------------------------------------------------------- what the tail adds

  /** A list read to its end, and then what its tail yields. */
  function Extended(f: Found, t: Found): Found {
    Found(Visit(f.visit.hits + t.visit.hits, t.visit.decoded, t.visit.stop), f.ids + t.ids)
  }

  lemma FrontElement(elements: seq<Element>, tail: Tail, g: nat, decoded: nat, max: nat, accept: Accept)
    requires elements != [] && decoded < max && elements[0].Object?
    ensures var gv := VisitGroup(elements[0].fields, None, g, decoded + 1, max, accept);
      VisitElements(elements, tail, g, decoded, max, accept)
      == FoundThen(Found(gv.visit, [gv.id]), VisitElements(elements[1..], tail, g + 1, gv.visit.decoded, max, accept))
  {
  }

  /** `f` is what a list yields up to its end, `h` what it yields with a tail that yields `t`. */
  predicate WithTail(f: Found, t: Found, h: Found) {
    h == if f.visit.stop == Ended then Extended(f, t) else f
  }

  lemma TailFollowsFront(gv: GroupVisit, f: Found, h: Found, after: nat -> Found)
    requires WithTail(f, after(f.visit.decoded), h) && !gv.visit.stop.Ended?
    ensures var front := Found(gv.visit, [gv.id]);
      WithTail(FoundThen(front, f), after(FoundThen(front, f).visit.decoded), FoundThen(front, h))
  {
    if gv.visit.stop.Running? {
      ExtendedFront(gv, f, after(f.visit.decoded));
    }
  }

  lemma TailAlone(t: Found, decoded: nat)
    ensures WithTail(Found(Visit([], decoded, Ended), []), t, t)
  {
    assert [] + t.visit.hits == t.visit.hits && [] + t.ids == t.ids;
  }

  /** One element in front of a list that the tail follows. */
  lemma TailFollowsElement(elements: seq<Element>, tail: Tail, g: nat, decoded: nat, max: nat, accept: Accept,
          gv: GroupVisit, f: Found, h: Found, after: nat -> Found)
    requires elements != [] && decoded < max && elements[0].Object?
    requires gv == VisitGroup(elements[0].fields, None, g, decoded + 1, max, accept) && !gv.visit.stop.Ended?
    requires f == VisitElements(elements[1..], Closed, g + 1, gv.visit.decoded, max, accept)
    requires h == VisitElements(elements[1..], tail, g + 1, gv.visit.decoded, max, accept)
    requires WithTail(f, after(f.visit.decoded), h)
    ensures var all := VisitElements(elements, Closed, g, decoded, max, accept);
      WithTail(all, after(all.visit.decoded), VisitElements(elements, tail, g, decoded, max, accept))
  {
    FrontElement(elements, tail, g, decoded, max, accept);
    FrontElement(elements, Closed, g, decoded, max, accept);
    TailFollowsFront(gv, f, h, after);
  }

  lemma StopsBeforeTail(elements: seq<Element>, tail: Tail, g: nat, decoded: nat, max: nat, accept: Accept)
    requires elements != [] && !(decoded < max && elements[0].Object?)
    ensures VisitElements(elements, tail, g, decoded, max, accept)
         == VisitElements(elements, Closed, g, decoded, max, accept)
    ensures VisitElements(elements, Closed, g, decoded, max, accept).visit.stop != Ended
  {
  }

  /** The tail of a list is read only after all elements were, and adds to what they yield. */
  lemma {:induction false} TailFollows(elements: seq<Element>, tail: Tail, g: nat, decoded: nat, max: nat,
          accept: Accept,
          after: nat -> Found)
    requires forall d :: after(d) == VisitTail(tail, g + |elements|, d, max, accept)
    ensures var f := VisitElements(elements, Closed, g, decoded, max, accept);
      WithTail(f, after(f.visit.decoded), VisitElements(elements, tail, g, decoded, max, accept))
  {
    if elements == [] {
      TailAlone(after(decoded), decoded);
    } else if decoded < max && elements[0].Object? {
      var gv := VisitGroup(elements[0].fields, None, g, decoded + 1, max, accept);
      TailFollows(elements[1..], tail, g + 1, gv.visit.decoded, max, accept, after);
      TailFollowsElement(elements, tail, g, decoded, max, accept, gv,
        VisitElements(elements[1..], Closed, g + 1, gv.visit.decoded, max, accept),
        VisitElements(elements[1..], tail, g + 1, gv.visit.decoded, max, accept), after);
    } else {
      StopsBeforeTail(elements, tail, g, decoded, max, accept);
    }
  }

  lemma ExtendedFront(gv: GroupVisit, f: Found, t: Found)
    requires gv.visit.stop.Running?
    ensures var front := Found(gv.visit, [gv.id]);
      FoundThen(front, Extended(f, t)) == Extended(FoundThen(front, f), t)
  {
    assert gv.visit.hits + (f.visit.hits + t.visit.hits) == gv.visit.hits + f.visit.hits + t.visit.hits;
    assert [gv.id] + (f.ids + t.ids) == [gv.id] + f.ids + t.ids;
  }

  /** A page that is full before the tail does not see it. */
  lemma FullPageHidesTail(f: Found, t: Found, skip: nat, limit: nat)
    requires forall i :: 0 <= i < |f.visit.hits| ==> f.visit.hits[i].group < |f.ids|
    requires PageLength(Drop(f.visit.hits, skip), limit) < |Drop(f.visit.hits, skip)|
    ensures PageOfFound(Extended(f, t), skip, limit) == PageOfFound(f, skip, limit)
  {
    var u, u' := Drop(f.visit.hits, skip), Drop(f.visit.hits + t.visit.hits, skip);
    var n := PageLength(u, limit);
    assert u' == u + t.visit.hits;
    forall k | 0 <= k <= n ensures Overflows(u', k, limit) <==> Overflows(u, k, limit) {
    }
    PageLengthIs(u', limit, n);
    assert u'[n] == u[n] && u'[..n] == u[..n];
    assert (f.ids + t.ids)[..u[n].group] == f.ids[..u[n].group];
  }

  /** A page that reaches the tail: nothing overflows before it. */
  lemma ReachesTail(f: Found, t: Found, skip: nat, limit: nat)
    requires PageLength(Drop(f.visit.hits, skip), limit) == |Drop(f.visit.hits, skip)|
    ensures |Drop(f.visit.hits, skip)| <= PageLength(Drop(Extended(f, t).visit.hits, skip), limit)
  {
    var u, u' := Drop(f.visit.hits, skip), Drop(f.visit.hits + t.visit.hits, skip);
    var n := PageLength(u', limit);
    if skip <= |f.visit.hits| {
      assert u' == u + t.visit.hits;
      forall k | 0 <= k < |u| ensures !Overflows(u', k, limit) {
        assert !Overflows(u, k, limit);
      }
    }
  }

  // ---------------------------------------------------------------- how a cut is reported

  /** The byte budget was crossed somewhere behind the last complete group. */
  predicate ByteCut(tail: Tail) {
    tail == Between(ByteBudget) || tail == CutAfterList || (tail.Within? && tail.fault == ByteBudget)
  }

  /** The part of a broken group that is there can be read. */
  predicate BrokenGroupReads(tail: Tail, g: nat, decoded: nat, max: nat, accept: Accept) {
    tail.Within? ==> VisitTail(tail, g, decoded, max, accept).visit.stop != Failed
  }

  predicate ReadableField(field: Field) {
    match field
    case SnapshotField(id) => ConcreteID(id)
    case MatchesField(matches) => matches.Array? && ReadableItems(matches.items)
    case Ignored => true
    case BadField => false
  }

  lemma {:induction false} ReadableItemsRead(items: seq<RawMatch>, g: nat, id: string, decoded: nat, max: nat,
          accept: Accept)
    requires ReadableItems(items)
    ensures VisitItems(items, g, id, decoded, max, accept).stop != Failed
  {
    if items != [] && decoded < max {
      EntryIsListing(items[0]);
      ReadableItemsRead(items[1..], g, id, decoded + 1, max, accept);
    }
  }

  lemma {:induction false} ReadableFieldsRead(fields: seq<Field>, g: nat, id: string, pending: Option<Matches>,
          decoded: nat, max: nat, accept: Accept)
    requires forall i :: 0 <= i < |fields| ==> ReadableField(fields[i])
    ensures VisitFields(fields, g, id, pending, decoded, max, accept).visit.stop != Failed
  {
    if fields != [] {
      assert ReadableField(fields[0]);
      var first := VisitField(fields[0], g, id, pending, decoded, max, accept);
      if fields[0].MatchesField? {
        ReadableItemsRead(fields[0].matches.items, g, id, decoded, max, accept);
      }
      ReadableFieldsRead(fields[1..], g, first.id, first.pending, first.visit.decoded, max, accept);
    }
  }

  /** A broken group whose keys and matches are well formed can be read. */
  lemma WellFormedCutsRead(tail: Tail, g: nat, decoded: nat, max: nat, accept: Accept)
    requires tail.Within? && tail.fault == ByteBudget
    requires forall i :: 0 <= i < |tail.fields| ==> ReadableField(tail.fields[i])
    requires tail.partial.MatchesFault? ==> ReadableItems(tail.partial.items)
    ensures BrokenGroupReads(tail, g, decoded, max, accept)
  {
    ReadableFieldsRead(tail.fields, g, "", None, decoded + 1, max, accept);
    var gv := VisitFields(tail.fields, g, "", None, decoded + 1, max, accept);
    if tail.partial.MatchesFault? {
      ReadableItemsRead(tail.partial.items, g, gv.id, gv.visit.decoded, max, accept);
    }
  }

  lemma CutTailStops(tail: Tail, g: nat, decoded: nat, max: nat, accept: Accept)
    requires ByteCut(tail) && BrokenGroupReads(tail, g, decoded, max, accept)
    ensures var t := VisitTail(tail, g, decoded, max, accept).visit;
      t.stop == if tail == CutAfterList then Failed else OutOfBudget
    ensures !tail.Within? ==>
      VisitTail(tail, g, decoded, max, accept)
      == Found(Visit([], decoded, if tail == CutAfterList then Failed else OutOfBudget), [])
  {
    if tail.Within? && decoded < max {
      BrokenGroupStops(tail.fields, tail.partial, tail.fault, g, decoded + 1, max, accept);
    }
  }

  lemma BrokenGroupStops(fields: seq<Field>, partial: Partial, fault: Fault, g: nat, decoded: nat, max: nat,
          accept: Accept)
    ensures var stop := VisitGroup(fields, Some((partial, fault)), g, decoded, max, accept).visit.stop;
      stop == OutOfBudget || stop == Failed
  {
  }

  lemma ListWithTail(elements: seq<Element>, tail: Tail, max: nat, accept: Accept)
    ensures var f := VisitDocument(List(elements, Closed), max, accept);
      && WithTail(f, VisitTail(tail, |elements|, f.visit.decoded, max, accept),
          VisitDocument(List(elements, tail), max, accept))
      && (forall i :: 0 <= i < |f.visit.hits| ==> f.visit.hits[i].group < |f.ids|)
  {
    TailFollows(elements, tail, 0, 0, max, accept, (d: nat) => VisitTail(tail, |elements|, d, max, accept));
    DocumentShaped(List(elements, Closed), max, accept);
  }

  /** The documentation says a byte ceiling ends a scan as an incomplete page, never as a complete scan.
      Wherever the cut is, the page is never complete. It is an error exactly when the budget is crossed
      after the closing bracket and the page would have been complete; a page that ends before is the same. */
  lemma ByteBudgetReporting(elements: seq<Element>, tail: Tail, max: nat, skip: nat, limit: nat, accept: Accept)
    requires ByteCut(tail)
    requires PageOfDocument(List(elements, Closed), max, skip, limit, accept).Scanned?
    requires var whole := PageOfDocument(List(elements, Closed), max, skip, limit, accept);
      whole.stats.complete ==> BrokenGroupReads(tail, |elements|, whole.stats.decoded, max, accept)
    ensures var whole := PageOfDocument(List(elements, Closed), max, skip, limit, accept);
      var r := PageOfDocument(List(elements, tail), max, skip, limit, accept);
      && (r == ProtocolError <==> tail == CutAfterList && whole.stats.complete)
      && (r.Scanned? ==> !r.stats.complete)
      && (!whole.stats.complete ==> r == whole)
      && (whole.stats.complete && tail == Between(ByteBudget) ==> r.groups == whole.groups && r.stats.budgetExhausted)
  {
    var f := VisitDocument(List(elements, Closed), max, accept);
    var t := VisitTail(tail, |elements|, f.visit.decoded, max, accept);
    ListWithTail(elements, tail, max, accept);
    if PageOfFound(f, skip, limit).stats.complete {
      KeyOrder.CompletePageDecoded(f, skip, limit);
      CutTailStops(tail, |elements|, f.visit.decoded, max, accept);
    }
    CutReport(f, t, VisitDocument(List(elements, tail), max, accept), skip, limit);
  }

  lemma LoneMatchPage(id: string, m: RawMatch, tail: Tail, accept: Accept)
    requires ConcreteID(id) && EntryOf(m).Some? && accept(id, EntryOf(m).value) && !tail.Within?
    ensures PageOfDocument(List([KeyOrder.LoneMatch(id, m)], tail), 100, 0, 10, accept)
      == var hit, stop := Hit(0, id, EntryOf(m).value, 2), VisitTail(tail, 1, 2, 100, accept).visit.stop;
         PageOfFound(Found(Visit([hit], 2, stop), [id]), 0, 10)
  {
    var one, cs := [KeyOrder.LoneMatch(id, m)], [KeyOrder.Carried(id, [m])];
    assert KeyOrder.GroupObject(one[0].fields, 0, 1, id, [m]);
    assert KeyOrder.Carries(one[0], cs[0]);
    KeyOrder.ListYieldsCarried(one, cs, tail, 0, 0, 100, accept);
    OneItem(m, 0, id, 1, 100, accept);
    var hit := Hit(0, id, EntryOf(m).value, 2);
    assert cs[1..] == [] && [hit] + [] == [hit] && [id] + [] == [id];
    assert KeyOrder.VisitCarried([], tail, 1, 2, 100, accept) == VisitTail(tail, 1, 2, 100, accept);
  }

  /** One group with one match, and a byte budget crossed behind the list: the document alone is a complete page,
      with the cut before the closing bracket the same page is incomplete, with the cut after it an error. */
  lemma CutAfterListLosesThePage(id: string, m: RawMatch, accept: Accept)
    requires ConcreteID(id) && EntryOf(m).Some? && accept(id, EntryOf(m).value)
    ensures var one, groups := [KeyOrder.LoneMatch(id, m)], [FindGroup(1, id, [EntryOf(m).value])];
      && PageOfDocument(List(one, Closed), 100, 0, 10, accept)
         == Scanned(groups, Stats(2, 1, 1, true, false, false, false))
      && PageOfDocument(List(one, Between(ByteBudget)), 100, 0, 10, accept)
         == Scanned(groups, Stats(2, 1, 1, false, false, true, true))
      && PageOfDocument(List(one, CutAfterList), 100, 0, 10, accept) == ProtocolError
  {
    var hit := Hit(0, id, EntryOf(m).value, 2);
    LoneMatchPage(id, m, Closed, accept);
    LoneMatchPage(id, m, Between(ByteBudget), accept);
    LoneMatchPage(id, m, CutAfterList, accept);
    OneHitPage(hit, id, Ended);
    OneHitPage(hit, id, OutOfBudget);
    OneHitPage(hit, id, Failed);
  }

  /** What a page becomes when something that is not a normal end follows the list. */
  lemma CutReport(f: Found, t: Found, g: Found, skip: nat, limit: nat)
    requires PageOfFound(f, skip, limit).Scanned?
    requires forall i :: 0 <= i < |f.visit.hits| ==> f.visit.hits[i].group < |f.ids|
    requires WithTail(f, t, g)
    requires PageOfFound(f, skip, limit).stats.complete ==>
      t.visit.stop == OutOfBudget || t == Found(Visit([], f.visit.decoded, Failed), [])
    ensures var whole, r := PageOfFound(f, skip, limit), PageOfFound(g, skip, limit);
      && (r == ProtocolError <==> whole.stats.complete && t.visit.stop == Failed)
      && (r.Scanned? ==> !r.stats.complete)
      && (!whole.stats.complete ==> r == whole)
      && (whole.stats.complete && t.visit.stop == OutOfBudget && t.visit.hits == [] && t.ids == [] ==>
            r.groups == whole.groups && r.stats.budgetExhausted)
  {
    FlagDiscipline(f.visit, skip, limit);
    if f.visit.stop == Ended {
      if PageLength(Drop(f.visit.hits, skip), limit) < |Drop(f.visit.hits, skip)| {
        FullPageHidesTail(f, t, skip, limit);
      } else {
        CutPage(f, t, skip, limit);
      }
    }
  }

  /** The page of a list read to its end and then stopped. */
  lemma CutPage(f: Found, t: Found, skip: nat, limit: nat)
    requires f.visit.stop == Ended && PageLength(Drop(f.visit.hits, skip), limit) == |Drop(f.visit.hits, skip)|
    requires t.visit.stop == OutOfBudget || t == Found(Visit([], f.visit.decoded, Failed), [])
    ensures var r := PageOfFound(Extended(f, t), skip, limit);
      && (r == ProtocolError <==> t.visit.stop == Failed)
      && (r.Scanned? ==> !r.stats.complete)
      && (t.visit.stop == OutOfBudget && t.visit.hits == [] && t.ids == [] ==>
            r.groups == PageOfFound(f, skip, limit).groups && r.stats.budgetExhausted)
  {
    ReachesTail(f, t, skip, limit);
    if t.visit.hits == [] && t.ids == [] {
      assert f.visit.hits + t.visit.hits == f.visit.hits && f.ids + t.ids == f.ids;
    }
  }

  /** Crossed before the list has begun, the budget ends the scan as an empty incomplete page. */
  lemma ByteBudgetBeforeList(max: nat, skip: nat, limit: nat, accept: Accept)
    requires limit >= 1
    ensures PageOfDocument(NoList(ByteBudget), max, skip, limit, accept)
         == Scanned([], Stats(0, 0, 0, false, false, true, true))
  {
    var f := VisitDocument(NoList(ByteBudget), max, accept);
    assert Drop(f.visit.hits, skip) == [];
  }

  // ---------------------------------------------------------------- a cut makes the order of the keys matter

  /** The keys read before a cut name the snapshot once, and nothing else of interest. */
  ghost predicate IDFirst(fields: seq<Field>, i: nat, id: string) {
    && i < |fields| && ConcreteID(id) && fields[i] == SnapshotField(id)
    && forall k :: 0 <= k < |fields| && k != i ==> fields[k] == Ignored
  }

  /** A group cut short with its id first: `items` were read before the cut, within the matches array, behind
      it, or none at all because the array had not begun. */
  ghost predicate MatchesStream(fields: seq<Field>, partial: Partial, i: nat, j: nat, id: string,
          items: seq<RawMatch>) {
    match partial
    case MatchesFault(read) => read == items && IDFirst(fields, i, id)
    case BareFault =>
      || (i < j && KeyOrder.GroupObject(fields, i, j, id, items))
      || (items == [] && IDFirst(fields, i, id))
  }

  ghost predicate NoIDYet(fields: seq<Field>) {
    forall k :: 0 <= k < |fields| ==> fields[k] == Ignored || fields[k].MatchesField?
  }

  /** A group cut short with its matches waiting: the id had not come, wherever the cut is, or it came after them
      and the cut is before the closing brace. */
  ghost predicate MatchesWait(fields: seq<Field>, partial: Partial, n: nat) {
    || NoIDYet(fields)
    || (partial.BareFault? && n < |fields| && NoIDYet(fields[..n])
        && fields[n].SnapshotField? && IDFirst(fields[n..], 0, fields[n].id))
  }

  /** A group that the byte budget cuts short. */
  function Cut(fields: seq<Field>, partial: Partial): Tail {
    Within(fields, partial, ByteBudget)
  }

  function VisitCut(fields: seq<Field>, partial: Partial, g: nat, decoded: nat, max: nat,
          accept: Accept): GroupVisit {
    VisitGroup(fields, Some((partial, ByteBudget)), g, decoded, max, accept)
  }

  lemma IDAmongIgnored(fields: seq<Field>, i: nat, id: string, g: nat, pending: Option<Matches>, decoded: nat,
          max: nat, accept: Accept)
    requires IDFirst(fields, i, id)
    ensures VisitFields(fields, g, "", pending, decoded, max, accept)
         == GroupVisit(Visit([], decoded, Running), id, pending)
  {
    KeyOrder.LastKey(fields, i, g, "", pending, decoded, max, accept);
  }

  lemma StreamedMatches(fields: seq<Field>, partial: Partial, i: nat, j: nat, id: string, items: seq<RawMatch>,
          g: nat, decoded: nat, max: nat, accept: Accept)
    requires MatchesStream(fields, partial, i, j, id, items)
    ensures VisitCut(fields, partial, g, decoded, max, accept)
         == GroupVisit(VisitArray(items, Some(ByteBudget), g, id, decoded, max, accept), id, None)
  {
    if partial.BareFault? && i < j && KeyOrder.GroupObject(fields, i, j, id, items) {
      KeyOrder.IdFirst(fields, i, j, id, items, g, decoded, max, accept);
    } else {
      IDAmongIgnored(fields, i, id, g, None, decoded, max, accept);
      ThenNothing(VisitArray(items, Some(ByteBudget), g, id, decoded, max, accept), decoded);
    }
  }

  lemma {:induction false} KeysBeforeID(fields: seq<Field>, g: nat, pending: Option<Matches>, decoded: nat, max: nat,
          accept: Accept)
    requires NoIDYet(fields)
    ensures var gv := VisitFields(fields, g, "", pending, decoded, max, accept);
      gv.visit == Visit([], decoded, Running) && gv.id == ""
  {
    if fields != [] {
      var first := VisitField(fields[0], g, "", pending, decoded, max, accept);
      assert first.visit == Visit([], decoded, Running) && first.id == "";
      KeysBeforeID(fields[1..], g, first.pending, decoded, max, accept);
    }
  }

  lemma WaitingMatches(fields: seq<Field>, partial: Partial, n: nat, g: nat, decoded: nat, max: nat, accept: Accept)
    requires MatchesWait(fields, partial, n)
    ensures VisitCut(fields, partial, g, decoded, max, accept).visit == Visit([], decoded, OutOfBudget)
  {
    if NoIDYet(fields) {
      KeysBeforeID(fields, g, None, decoded, max, accept);
    } else {
      var pending := VisitFields(fields[..n], g, "", None, decoded, max, accept).pending;
      assert fields == fields[..n] + fields[n..];
      VisitFieldsAppend(fields[..n], fields[n..], g, "", None, decoded, max, accept);
      KeysBeforeID(fields[..n], g, None, decoded, max, accept);
      IDAmongIgnored(fields[n..], 0, fields[n].id, g, pending, decoded, max, accept);
    }
  }

  /** Every hit comes after a record was decoded, and reading on decodes more. */
  lemma {:induction false} ItemsAreLater(items: seq<RawMatch>, g: nat, id: string, decoded: nat, max: nat,
          accept: Accept)
    ensures var v := VisitItems(items, g, id, decoded, max, accept);
      && decoded <= v.decoded && (forall i :: 0 <= i < |v.hits| ==> v.hits[i].at > decoded && v.hits[i].group == g)
      && (items != [] && decoded < max && v.decoded == decoded ==> v.stop == Failed && v.hits == [])
  {
    if items != [] && decoded < max && EntryOf(items[0]).Some? {
      ItemsAreLater(items[1..], g, id, decoded + 1, max, accept);
    }
  }

  /** What the cut array yields: nothing but the budget stop if it has no items or the decoded-entry limit
      was reached; else at least one record more, or an error. */
  lemma CutArray(items: seq<RawMatch>, g: nat, id: string, decoded: nat, max: nat, accept: Accept)
    ensures var v := VisitArray(items, Some(ByteBudget), g, id, decoded, max, accept);
      && (items == [] || decoded >= max ==> v == Visit([], decoded, OutOfBudget))
      && (v.stop == OutOfBudget || v.stop == Failed)
      && (forall i :: 0 <= i < |v.hits| ==> v.hits[i].at > decoded && v.hits[i].group == g)
      && (!(items == [] || decoded >= max) ==> v.decoded > decoded || (v.stop == Failed && v.hits == []))
  {
    ItemsAreLater(items, g, id, decoded, max, accept);
    var v := VisitItems(items, g, id, decoded, max, accept);
    assert v.hits + [] == v.hits;
  }

  /** A byte budget that cuts a group makes the order of its keys matter: with the id first the matches read so
      far are tested, with the matches first they are dropped, a whole array included. That is the same exactly
      when there are none or the decoded-entry limit is reached at that point. */
  lemma CutMakesKeyOrderMatter(a: seq<Field>, cutA: Partial, i: nat, j: nat, id: string, items: seq<RawMatch>,
          b: seq<Field>, cutB: Partial, n: nat, g: nat, decoded: nat, max: nat, accept: Accept)
    requires MatchesStream(a, cutA, i, j, id, items) && MatchesWait(b, cutB, n)
    ensures VisitCut(a, cutA, g, decoded, max, accept).visit == VisitCut(b, cutB, g, decoded, max, accept).visit
       <==> items == [] || decoded >= max
  {
    StreamedMatches(a, cutA, i, j, id, items, g, decoded, max, accept);
    WaitingMatches(b, cutB, n, g, decoded, max, accept);
    CutArray(items, g, id, decoded, max, accept);
  }

  /** The pages of two documents that differ in the broken group only, read with the id first and without. */
  lemma CutPagesDiffer(f: Found, t: Found, skip: nat, limit: nat, id: string, id': string)
    requires f.visit.stop == Ended && forall i :: 0 <= i < |f.visit.hits| ==> f.visit.hits[i].group < |f.ids|
    requires t.ids == [id] && (t.visit.stop == OutOfBudget || t.visit.stop == Failed)
    requires forall i :: 0 <= i < |t.visit.hits| ==> t.visit.hits[i].at > f.visit.decoded + 1
    requires t.visit.decoded > f.visit.decoded + 1 || (t.visit.stop == Failed && t.visit.hits == [])
    requires PageLength(Drop(f.visit.hits, skip), limit) == |Drop(f.visit.hits, skip)|
    ensures PageOfFound(Extended(f, t), skip, limit)
         != PageOfFound(Extended(f, Found(Visit([], f.visit.decoded + 1, OutOfBudget), [id'])), skip, limit)
  {
    var none := Found(Visit([], f.visit.decoded + 1, OutOfBudget), [id']);
    assert f.visit.hits + [] == f.visit.hits;
    ReachesTail(f, t, skip, limit);
    var u, u' := Drop(f.visit.hits, skip), Drop(f.visit.hits + t.visit.hits, skip);
    var n := PageLength(u', limit);
    if n < |u'| {
      assert u'[n] == (f.visit.hits + t.visit.hits)[skip + n];
      assert u'[n] in t.visit.hits;
    }
    assert PageOf(Extended(f, none).visit, skip, limit).stats.decoded == f.visit.decoded + 1;
  }

  /** The id of a group without hits does not show. */
  lemma EmptyGroupHidesItsID(f: Found, decoded: nat, stop: Stop, id: string, id': string, skip: nat, limit: nat)
    requires forall i :: 0 <= i < |f.visit.hits| ==> f.visit.hits[i].group < |f.ids|
    ensures PageOfFound(Extended(f, Found(Visit([], decoded, stop), [id])), skip, limit)
         == PageOfFound(Extended(f, Found(Visit([], decoded, stop), [id'])), skip, limit)
  {
    var x, y := Extended(f, Found(Visit([], decoded, stop), [id])), Extended(f, Found(Visit([], decoded, stop), [id']));
    assert f.visit.hits + [] == f.visit.hits;
    var u := Drop(f.visit.hits, skip);
    var n := PageLength(u, limit);
    if n < |u| {
      assert (f.ids + [id])[..u[n].group] == f.ids[..u[n].group] == (f.ids + [id'])[..u[n].group];
    } else {
      EmptyGroupIsDropped(u, f.ids, id);
      EmptyGroupIsDropped(u, f.ids, id');
      assert u[..n] == u;
    }
  }

  lemma EmptyGroupIsDropped(u: seq<Hit>, ids: seq<string>, id: string)
    requires forall k :: 0 <= k < |u| ==> u[k].group < |ids|
    ensures Groups(u, ids + [id]) == Groups(u, ids)
  {
    OfGroupNone(u, |ids|);
    assert (ids + [id])[..|ids|] == ids;
    assert Groups(u, ids) + [] == Groups(u, ids);
  }

  /** What the two broken groups yield: the same up to an id nobody sees, or something different. */
  ghost predicate CutsCompare(x: Found, y: Found, id: string, id': string, decoded: nat, same: bool) {
    if same then
      || x == y
      || (x == Found(Visit([], decoded + 1, OutOfBudget), [id])
          && y == Found(Visit([], decoded + 1, OutOfBudget), [id']))
    else
      && y == Found(Visit([], decoded + 1, OutOfBudget), [id'])
      && x.ids == [id] && (x.visit.stop == OutOfBudget || x.visit.stop == Failed)
      && (forall i :: 0 <= i < |x.visit.hits| ==> x.visit.hits[i].at > decoded + 1)
      && (x.visit.decoded > decoded + 1 || (x.visit.stop == Failed && x.visit.hits == []))
  }

  lemma CutTails(a: seq<Field>, cutA: Partial, i: nat, j: nat, id: string, items: seq<RawMatch>,
          b: seq<Field>, cutB: Partial, n: nat, g: nat, decoded: nat, max: nat, accept: Accept)
    requires MatchesStream(a, cutA, i, j, id, items) && MatchesWait(b, cutB, n)
    ensures var idB := VisitCut(b, cutB, g, decoded + 1, max, accept).id;
      CutsCompare(VisitTail(Cut(a, cutA), g, decoded, max, accept),
                  VisitTail(Cut(b, cutB), g, decoded, max, accept),
                  id, idB, decoded, items == [] || decoded + 1 >= max)
  {
    if decoded < max {
      StreamedMatches(a, cutA, i, j, id, items, g, decoded + 1, max, accept);
      WaitingMatches(b, cutB, n, g, decoded + 1, max, accept);
      CutArray(items, g, id, decoded + 1, max, accept);
    }
  }

  lemma CutPagesCompared(f: Found, x: Found, y: Found, p: Found, q: Found, id: string, id': string, same: bool,
          skip: nat, limit: nat)
    requires forall k :: 0 <= k < |f.visit.hits| ==> f.visit.hits[k].group < |f.ids|
    requires WithTail(f, x, p) && WithTail(f, y, q) && CutsCompare(x, y, id, id', f.visit.decoded, same)
    ensures PageOfFound(p, skip, limit) == PageOfFound(q, skip, limit)
       <==> !(PageOfFound(f, skip, limit).Scanned? && PageOfFound(f, skip, limit).stats.complete) || same
  {
    if f.visit.stop == Ended {
      if PageLength(Drop(f.visit.hits, skip), limit) < |Drop(f.visit.hits, skip)| {
        FullPageHidesTail(f, x, skip, limit);
        FullPageHidesTail(f, y, skip, limit);
      } else if same {
        EmptyGroupHidesItsID(f, f.visit.decoded + 1, OutOfBudget, id, id', skip, limit);
      } else {
        CutPagesDiffer(f, x, skip, limit, id, id');
      }
    }
  }

  /** In the answers it shows exactly when the page would otherwise have been complete, some match was read
      before the cut, and the decoded-entry limit did not stop the scan at the group itself. */
  lemma KeyOrderShowsUnderCut(elements: seq<Element>, a: seq<Field>, cutA: Partial, i: nat, j: nat, id: string,
          items: seq<RawMatch>, b: seq<Field>, cutB: Partial, n: nat, max: nat, skip: nat, limit: nat, accept: Accept)
    requires MatchesStream(a, cutA, i, j, id, items) && MatchesWait(b, cutB, n)
    ensures var whole := PageOfDocument(List(elements, Closed), max, skip, limit, accept);
      PageOfDocument(List(elements, Cut(a, cutA)), max, skip, limit, accept)
      == PageOfDocument(List(elements, Cut(b, cutB)), max, skip, limit, accept)
      <==> !(whole.Scanned? && whole.stats.complete) || items == [] || whole.stats.decoded + 1 >= max
  {
    var f := VisitDocument(List(elements, Closed), max, accept);
    var d := f.visit.decoded;
    ListWithTail(elements, Cut(a, cutA), max, accept);
    ListWithTail(elements, Cut(b, cutB), max, accept);
    CutTails(a, cutA, i, j, id, items, b, cutB, n, |elements|, d, max, accept);
    CutPagesCompared(f,
      VisitTail(Cut(a, cutA), |elements|, d, max, accept),
      VisitTail(Cut(b, cutB), |elements|, d, max, accept),
      VisitDocument(List(elements, Cut(a, cutA)), max, accept),
      VisitDocument(List(elements, Cut(b, cutB)), max, accept),
      id, VisitCut(b, cutB, |elements|, d + 1, max, accept).id, items == [] || d + 1 >= max, skip, limit);
    if PageOfFound(f, skip, limit).Scanned? && PageOfFound(f, skip, limit).stats.complete {
      KeyOrder.CompletePageDecoded(f, skip, limit);
    }
  }

  lemma WaitingMatchesAreDropped(b: seq<Field>, cut: Partial, n: nat, accept: Accept)
    requires MatchesWait(b, cut, n)
    ensures PageOfDocument(List([], Cut(b, cut)), 100, 0, 10, accept)
         == Scanned([], Stats(1, 0, 0, false, false, true, true))
  {
    WaitingMatches(b, cut, n, 0, 1, 100, accept);
    var id := VisitCut(b, cut, 0, 1, 100, accept).id;
    var none := VisitDocument(List([], Cut(b, cut)), 100, accept);
    assert none == Found(Visit([], 1, OutOfBudget), [id]);
    EmptyGroupIsDropped([], [], id);
    assert [] + [id] == [id];
  }

  lemma StreamedMatchIsShown(a: seq<Field>, cut: Partial, j: nat, id: string, m: RawMatch, accept: Accept)
    requires MatchesStream(a, cut, 0, j, id, [m]) && EntryOf(m).Some? && accept(id, EntryOf(m).value)
    ensures PageOfDocument(List([], Cut(a, cut)), 100, 0, 10, accept)
         == Scanned([FindGroup(1, id, [EntryOf(m).value])], Stats(2, 1, 1, false, false, true, true))
  {
    var hit := Hit(0, id, EntryOf(m).value, 2);
    StreamedMatches(a, cut, 0, j, id, [m], 0, 1, 100, accept);
    OneItem(m, 0, id, 1, 100, accept);
    assert [hit] + [] == [hit];
    assert VisitDocument(List([], Cut(a, cut)), 100, accept) == Found(Visit([hit], 2, OutOfBudget), [id]);
    OneHitPage(hit, id, OutOfBudget);
  }

  /** One match read before a cut within its array: with the id first it is on the page, otherwise the page is
      empty. */
  lemma CutDropsAMatch(id: string, m: RawMatch, accept: Accept)
    requires ConcreteID(id) && EntryOf(m).Some? && accept(id, EntryOf(m).value)
    ensures PageOfDocument(List([], Cut([SnapshotField(id)], MatchesFault([m]))), 100, 0, 10, accept)
         == Scanned([FindGroup(1, id, [EntryOf(m).value])], Stats(2, 1, 1, false, false, true, true))
    ensures PageOfDocument(List([], Cut([], MatchesFault([m]))), 100, 0, 10, accept)
         == Scanned([], Stats(1, 0, 0, false, false, true, true))
  {
    StreamedMatchIsShown([SnapshotField(id)], MatchesFault([m]), 0, id, m, accept);
    WaitingMatchesAreDropped([], MatchesFault([m]), 0, accept);
  }

  /** The same for a cut just before the closing brace of a group that has been read whole. */
  lemma CutDropsAWholeArray(id: string, m: RawMatch, accept: Accept)
    requires ConcreteID(id) && EntryOf(m).Some? && accept(id, EntryOf(m).value)
    ensures PageOfDocument(List([], Cut([SnapshotField(id), MatchesField(Array([m]))], BareFault)), 100, 0, 10, accept)
         == Scanned([FindGroup(1, id, [EntryOf(m).value])], Stats(2, 1, 1, false, false, true, true))
    ensures PageOfDocument(List([], Cut([MatchesField(Array([m])), SnapshotField(id)], BareFault)), 100, 0, 10, accept)
         == Scanned([], Stats(1, 0, 0, false, false, true, true))
  {
    StreamedMatchIsShown([SnapshotField(id), MatchesField(Array([m]))], BareFault, 1, id, m, accept);
    WaitingMatchesAreDropped([MatchesField(Array([m])), SnapshotField(id)], BareFault, 1, accept);
  }
}
