/** Which `find` documents a scan may call complete. */
module FindReports {
  import opened Basics
  import opened Paths
  import opened Paging
  import opened ScanFind
  import opened FindPages

  // ---------------------------------------------------------------- well-formed documents

  /** A full snapshot id or a prefix of one: 8 to 64 hexadecimal digits. */
  predicate HexID(id: string) {
    8 <= |id| <= 64
    && forall i :: 0 <= i < |id| ==> '0' <= id[i] <= '9' || 'a' <= id[i] <= 'f' || 'A' <= id[i] <= 'F'
  }

  predicate ReadableItems(items: seq<RawMatch>) {
    forall i :: 0 <= i < |items| ==> items[i].RawMatch? && CleanPath(items[i].path).Some?
  }

  predicate ReadableArray(matches: Matches) {
    matches.Array? && ReadableItems(matches.items)
  }

  /** A key and its value: an id must be concrete, and matches behind the id must be a readable array. Before the
      id anything may stand as matches for now. */
  predicate WellFormedKey(field: Field, named: bool) {
    match field
    case SnapshotField(id) => HexID(id)
    case MatchesField(matches) => named ==> ReadableArray(matches)
    case Ignored => true
    case BadField => false
  }

  /** The matches that came last before the id. */
  function Waiting(field: Field, named: bool, before: Option<Matches>): Option<Matches> {
    if field.MatchesField? && !named then Some(field.matches) else before
  }

  /** The keys of a group from some point on, `named` telling whether its id has come, and `waiting` the matches
      that wait for it. A group must be named, and what waits must be a readable array or null. */
  predicate WellFormedKeys(fields: seq<Field>, named: bool, waiting: Option<Matches>) {
    if fields == [] then named && (waiting.Some? ==> waiting.value.NullMatches? || ReadableArray(waiting.value))
    else
      && WellFormedKey(fields[0], named)
      && WellFormedKeys(fields[1..], named || fields[0].SnapshotField?, Waiting(fields[0], named, waiting))
  }

  function KeyCount(field: Field, named: bool): nat {
    if field.MatchesField? && named then |ItemsOf(field.matches)| else 0
  }

  /** How many matches those keys hold. */
  function MatchCount(fields: seq<Field>, named: bool, waiting: Option<Matches>): nat {
    if fields == [] then if waiting.Some? then |ItemsOf(waiting.value)| else 0
    else
      KeyCount(fields[0], named)
      + MatchCount(fields[1..], named || fields[0].SnapshotField?, Waiting(fields[0], named, waiting))
  }

  predicate WellFormedElement(element: Element) {
    element.Object? && WellFormedKeys(element.fields, false, None)
  }

  /** Nothing at all, or a closed list of well-formed groups. */
  predicate WellFormed(doc: Document) {
    || doc.EmptyOutput?
    || (doc.List? && doc.tail.Closed? && forall i :: 0 <= i < |doc.elements| ==> WellFormedElement(doc.elements[i]))
  }

  function RecordCount(elements: seq<Element>): nat {
    if elements == [] then 0
    else
      var own := if elements[0].Object? then 1 + MatchCount(elements[0].fields, false, None) else 0;
      own + RecordCount(elements[1..])
  }

  /** The groups and the matches of a document. */
  function Records(doc: Document): nat {
    if doc.List? then RecordCount(doc.elements) else 0
  }

  // ---------------------------------------------------------------- what they make of a visit

  /** `v` has read `count` well-formed records, or as many as the limit leaves room for. */
  ghost predicate ReadsAll(v: Visit, wellFormed: bool, count: nat, decoded: nat, max: nat, end: Stop) {
    && (wellFormed ==> v.stop == if decoded + count <= max then end else OutOfBudget)
    && (v.stop == end ==> wellFormed && decoded + count <= max && v.decoded == decoded + count)
  }

  lemma HexIDsAreConcrete(id: string)
    ensures ConcreteID(id) <==> HexID(id)
  {
    assert !('0' <= "latest"[0] <= '9' || 'a' <= "latest"[0] <= 'f' || 'A' <= "latest"[0] <= 'F');
    assert forall i :: 0 <= i < |id| ==>
        (IsHex(id[i]) <==> '0' <= id[i] <= '9' || 'a' <= id[i] <= 'f' || 'A' <= id[i] <= 'F');
  }

  lemma {:induction false} ItemsRead(items: seq<RawMatch>, g: nat, id: string, decoded: nat, max: nat, accept: Accept)
    requires decoded <= max
    ensures ReadsAll(VisitItems(items, g, id, decoded, max, accept), ReadableItems(items), |items|, decoded, max,
                     Running)
  {
    if items != [] {
      EntryIsListing(items[0]);
      assert ReadableItems(items) <==>
        items[0].RawMatch? && CleanPath(items[0].path).Some? && ReadableItems(items[1..]) by {
        assert forall i :: 0 < i < |items| ==> items[i] == items[1..][i - 1];
      }
      if decoded < max && EntryOf(items[0]).Some? {
        ItemsRead(items[1..], g, id, decoded + 1, max, accept);
      }
    }
  }

  /** What a group yields from its keys and its closing brace. */
  function RestOfGroup(fields: seq<Field>, g: nat, id: string, pending: Option<Matches>, decoded: nat, max: nat,
          accept: Accept): Visit {
    var gv := VisitFields(fields, g, id, pending, decoded, max, accept);
    Then(gv.visit, VisitGroupEnd(gv, None, g, max, accept))
  }

  lemma RestOfGroupStep(fields: seq<Field>, g: nat, id: string, pending: Option<Matches>, decoded: nat, max: nat,
          accept: Accept)
    requires fields != []
    ensures var first := VisitField(fields[0], g, id, pending, decoded, max, accept);
      var all := RestOfGroup(fields, g, id, pending, decoded, max, accept);
      all == Then(first.visit,
                  RestOfGroup(fields[1..], g, first.id, first.pending, first.visit.decoded, max, accept))
  {
    var first := VisitField(fields[0], g, id, pending, decoded, max, accept);
    var rest := VisitFields(fields[1..], g, first.id, first.pending, first.visit.decoded, max, accept);
    ThenAssociates(first.visit, rest.visit, VisitGroupEnd(rest, None, g, max, accept));
  }

  lemma BraceReads(id: string, pending: Option<Matches>, g: nat, decoded: nat, max: nat, accept: Accept)
    requires decoded <= max
    ensures ReadsAll(VisitPending(id, pending, g, decoded, max, accept), WellFormedKeys([], id != "", pending),
                     MatchCount([], id != "", pending), decoded, max, Running)
  {
    if pending.Some? && pending.value.Array? {
      ItemsRead(pending.value.items, g, id, decoded, max, accept);
    }
  }

  lemma KeyReads(field: Field, g: nat, id: string, pending: Option<Matches>, decoded: nat, max: nat, accept: Accept)
    requires decoded <= max
    ensures var gv := VisitField(field, g, id, pending, decoded, max, accept);
      && ReadsAll(gv.visit, WellFormedKey(field, id != ""), KeyCount(field, id != ""), decoded, max, Running)
      && (gv.visit.stop.Running? ==>
            (gv.id != "" <==> id != "" || field.SnapshotField?) && gv.pending == Waiting(field, id != "", pending))
  {
    if field.SnapshotField? {
      HexIDsAreConcrete(field.id);
    } else if field.MatchesField? && id != "" && field.matches.Array? {
      ItemsRead(field.matches.items, g, id, decoded, max, accept);
    }
  }

  /** One stretch after another. */
  lemma ReadsThen(v: Visit, a: bool, m: nat, w: Visit, b: bool, n: nat, decoded: nat, max: nat)
    requires ReadsAll(v, a, m, decoded, max, Running)
    requires v.stop.Running? ==> ReadsAll(w, b, n, v.decoded, max, Running)
    ensures ReadsAll(Then(v, w), a && b, m + n, decoded, max, Running)
  {
  }

  lemma {:induction false} KeysRead(fields: seq<Field>, g: nat, id: string, pending: Option<Matches>, decoded: nat,
          max: nat, accept: Accept)
    requires decoded <= max
    ensures ReadsAll(RestOfGroup(fields, g, id, pending, decoded, max, accept),
                     WellFormedKeys(fields, id != "", pending), MatchCount(fields, id != "", pending), decoded, max,
                     Running)
  {
    if fields == [] {
      BraceReads(id, pending, g, decoded, max, accept);
      ThenNothing(VisitPending(id, pending, g, decoded, max, accept), decoded);
    } else {
      var first := VisitField(fields[0], g, id, pending, decoded, max, accept);
      var rest := RestOfGroup(fields[1..], g, first.id, first.pending, first.visit.decoded, max, accept);
      var named, waiting := id != "" || fields[0].SnapshotField?, Waiting(fields[0], id != "", pending);
      KeyReads(fields[0], g, id, pending, decoded, max, accept);
      RestOfGroupStep(fields, g, id, pending, decoded, max, accept);
      if first.visit.stop.Running? {
        KeysRead(fields[1..], g, first.id, first.pending, first.visit.decoded, max, accept);
      }
      ReadsThen(first.visit, WellFormedKey(fields[0], id != ""), KeyCount(fields[0], id != ""), rest,
        WellFormedKeys(fields[1..], named, waiting), MatchCount(fields[1..], named, waiting), decoded, max);
    }
  }

  lemma GroupReads(fields: seq<Field>, g: nat, decoded: nat, max: nat, accept: Accept)
    requires decoded <= max
    ensures ReadsAll(VisitGroup(fields, None, g, decoded, max, accept).visit, WellFormedKeys(fields, false, None),
                     MatchCount(fields, false, None), decoded, max, Running)
  {
    KeysRead(fields, g, "", None, decoded, max, accept);
  }

  ghost predicate WellFormedList(elements: seq<Element>, tail: Tail) {
    tail.Closed? && forall i :: 0 <= i < |elements| ==> WellFormedElement(elements[i])
  }

  lemma FirstAndOthers(elements: seq<Element>, tail: Tail)
    requires elements != []
    ensures WellFormedList(elements, tail) <==> WellFormedElement(elements[0]) && WellFormedList(elements[1..], tail)
  {
    assert forall i :: 0 < i < |elements| ==> elements[i] == elements[1..][i - 1];
  }

  lemma {:induction false} ListReads(elements: seq<Element>, tail: Tail, g: nat, decoded: nat, max: nat,
          accept: Accept)
    requires decoded <= max
    ensures ReadsAll(VisitElements(elements, tail, g, decoded, max, accept).visit, WellFormedList(elements, tail),
                     RecordCount(elements), decoded, max, Ended)
  {
    if elements == [] {
      TailReads(tail, g, decoded, max, accept);
    } else {
      FirstAndOthers(elements, tail);
      if decoded < max && elements[0].Object? {
        var gv := VisitGroup(elements[0].fields, None, g, decoded + 1, max, accept);
        GroupReads(elements[0].fields, g, decoded + 1, max, accept);
        if gv.visit.stop.Running? {
          ListReads(elements[1..], tail, g + 1, gv.visit.decoded, max, accept);
        }
      }
    }
  }

  lemma TailReads(tail: Tail, g: nat, decoded: nat, max: nat, accept: Accept)
    ensures var v := VisitTail(tail, g, decoded, max, accept).visit;
      (v.stop == Ended <==> tail.Closed?) && (tail.Closed? ==> v.decoded == decoded)
  {
  }

  /** A scan calls a document complete only if it is well formed and all its records were read. A well-formed one
      is never an error: unless its page is full before, it is complete if its records are within the limit, and
      otherwise an incomplete page. */
  lemma CompleteIffWellFormed(doc: Document, max: nat, skip: nat, limit: nat, accept: Accept)
    ensures var r := PageOfDocument(doc, max, skip, limit, accept);
      && (r.Scanned? && r.stats.complete ==>
            WellFormed(doc) && Records(doc) <= max && r.stats.decoded == Records(doc))
      && (WellFormed(doc) ==>
            && r.Scanned?
            && (r.stats.complete <==> Records(doc) <= max && !r.stats.more)
            && (r.stats.budgetExhausted ==> Records(doc) > max)
            && (!r.stats.more && Records(doc) > max ==> r.stats.budgetExhausted && r.stats.stoppedEarly))
  {
    var v := VisitDocument(doc, max, accept).visit;
    if doc.List? {
      ListReads(doc.elements, doc.tail, 0, 0, max, accept);
    }
    assert ReadsAll(v, WellFormed(doc), Records(doc), 0, max, Ended);
    DocumentShaped(doc, max, accept);
    PageOfRead(v, skip, limit);
  }

  lemma PageOfRead(v: Visit, skip: nat, limit: nat)
    ensures var p := PageOf(v, skip, limit);
      && (p.Page? && p.stats.complete ==> v.stop == Ended && p.stats.decoded == v.decoded)
      && (v.stop == Ended ==> p.Page? && (p.stats.complete <==> !p.stats.more) && !p.stats.budgetExhausted)
      && (v.stop == OutOfBudget ==>
            p.Page? && !p.stats.complete
            && (!p.stats.more ==> p.stats.budgetExhausted && p.stats.stoppedEarly))
  {
  }

  // ---------------------------------------------------------------- budget pages have a reason

  /** The byte budget is what cut the document short. */
  predicate CutByBytes(doc: Document) {
    match doc
    case NoList(fault) => fault.ByteBudget?
    case List(_, tail) => CutTail(tail)
    case _ => false
  }

  predicate CutTail(tail: Tail) {
    tail == Between(ByteBudget) || (tail.Within? && tail.fault.ByteBudget?)
  }

  /** A budget stop comes from the decoded-entry limit, or from the byte budget. */
  ghost predicate Justified(v: Visit, max: nat, bytes: bool) {
    v.stop == OutOfBudget ==> v.decoded >= max || bytes
  }

  lemma {:induction false} ItemsJustified(items: seq<RawMatch>, g: nat, id: string, decoded: nat, max: nat,
          accept: Accept)
    ensures Justified(VisitItems(items, g, id, decoded, max, accept), max, false)
  {
    if items != [] && decoded < max && EntryOf(items[0]).Some? {
      ItemsJustified(items[1..], g, id, decoded + 1, max, accept);
    }
  }

  lemma {:induction false} FieldsJustified(fields: seq<Field>, g: nat, id: string, pending: Option<Matches>,
          decoded: nat, max: nat, accept: Accept)
    ensures Justified(VisitFields(fields, g, id, pending, decoded, max, accept).visit, max, false)
  {
    if fields != [] {
      var first := VisitField(fields[0], g, id, pending, decoded, max, accept);
      if fields[0].MatchesField? && fields[0].matches.Array? {
        ItemsJustified(fields[0].matches.items, g, id, decoded, max, accept);
      }
      FieldsJustified(fields[1..], g, first.id, first.pending, first.visit.decoded, max, accept);
    }
  }

  lemma GroupJustified(fields: seq<Field>, tail: Option<(Partial, Fault)>, g: nat, decoded: nat, max: nat,
          accept: Accept)
    ensures Justified(VisitGroup(fields, tail, g, decoded, max, accept).visit, max,
                      tail.Some? && tail.value.1.ByteBudget?)
  {
    var gv := VisitFields(fields, g, "", None, decoded, max, accept);
    FieldsJustified(fields, g, "", None, decoded, max, accept);
    match tail
    case None =>
      if gv.pending.Some? && gv.pending.value.Array? {
        ItemsJustified(gv.pending.value.items, g, gv.id, gv.visit.decoded, max, accept);
      }
    case Some(t) =>
      if t.0.MatchesFault? {
        ItemsJustified(t.0.items, g, gv.id, gv.visit.decoded, max, accept);
      }
  }

  lemma TailJustified(tail: Tail, g: nat, decoded: nat, max: nat, accept: Accept)
    ensures Justified(VisitTail(tail, g, decoded, max, accept).visit, max, CutTail(tail))
  {
    if tail.Within? && decoded < max {
      GroupJustified(tail.fields, Some((tail.partial, tail.fault)), g, decoded + 1, max, accept);
    }
  }

  lemma {:induction false} ListJustified(elements: seq<Element>, tail: Tail, g: nat, decoded: nat, max: nat,
          accept: Accept)
    ensures Justified(VisitElements(elements, tail, g, decoded, max, accept).visit, max, CutTail(tail))
  {
    if elements == [] {
      TailJustified(tail, g, decoded, max, accept);
    } else if decoded < max && elements[0].Object? {
      var gv := VisitGroup(elements[0].fields, None, g, decoded + 1, max, accept);
      GroupJustified(elements[0].fields, None, g, decoded + 1, max, accept);
      ListJustified(elements[1..], tail, g + 1, gv.visit.decoded, max, accept);
    }
  }

  /** Damage is never passed over: unless its page is full before, a scan of output that is truncated, followed by
      other data or otherwise not well formed is an error, if neither budget stopped it. */
  lemma DamageIsAnError(doc: Document, max: nat, skip: nat, limit: nat, accept: Accept)
    ensures var r := PageOfDocument(doc, max, skip, limit, accept);
      && (r.Scanned? && r.stats.budgetExhausted ==> r.stats.decoded >= max || CutByBytes(doc))
      && (!WellFormed(doc) && !CutByBytes(doc) && r.Scanned? ==>
            if r.stats.budgetExhausted then r.stats.decoded >= max else r.stats.more)
  {
    var v := VisitDocument(doc, max, accept).visit;
    if doc.List? {
      ListJustified(doc.elements, doc.tail, 0, 0, max, accept);
    }
    assert Justified(v, max, CutByBytes(doc));
    CompleteIffWellFormed(doc, max, skip, limit, accept);
    BudgetPageStops(v, skip, limit);
  }

  lemma BudgetPageStops(v: Visit, skip: nat, limit: nat)
    ensures var p := PageOf(v, skip, limit);
      && (p.Page? && p.stats.budgetExhausted ==> v.stop == OutOfBudget && p.stats.decoded == v.decoded)
      && (p.Page? ==> p.stats.complete || p.stats.budgetExhausted || p.stats.more)
  {
  }
}
