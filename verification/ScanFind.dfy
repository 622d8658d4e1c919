/** The incremental scan of `restic find` output: one JSON list of groups, each holding the matches of
    one snapshot. */
module ScanFind {
  import opened Basics
  import opened Paths
  import opened Paging
  import ScanLS

  // ---------------------------------------------------------------- the document

  /** An element of a matches array; `BadMatch` is anything that does not decode as a match. */
  datatype RawMatch = BadMatch | RawMatch(path: string, name: string, kind: string, size: nat)

  datatype Matches = NotArray | NullMatches | Array(items: seq<RawMatch>)

  /** A key of a group object with its value. `Ignored` covers a well-formed `hits` and unknown keys,
      `BadField` every value of the wrong type and every key that is not a string. */
  datatype Field = SnapshotField(id: string) | MatchesField(matches: Matches) | Ignored | BadField

  /** Why the tokens run out early: the byte budget was crossed, or the output is truncated. */
  datatype Fault = ByteBudget | Truncated

  /** Where inside a group they run out: within a matches array, after these items, or elsewhere. */
  datatype Partial = BareFault | MatchesFault(items: seq<RawMatch>)

  /** A list element; `BadElement` is anything but an object. */
  datatype Element = BadElement | Object(fields: seq<Field>)

  /** What follows the last complete element. `TrailingData` and `CutAfterList` come after the closing
      bracket: more data, or a byte budget crossed there. */
  datatype Tail =
    | Closed
    | TrailingData
    | CutAfterList
    | Between(fault: Fault)
    | Within(fields: seq<Field>, partial: Partial, fault: Fault)

  datatype Document = EmptyOutput | NotList | NoList(fault: Fault) | List(elements: seq<Element>, tail: Tail)

  type Accept = (string, Entry) -> bool

  // ---------------------------------------------------------------- what a scan would accept

  predicate IsHex(c: char) {
    '0' <= c <= '9' || 'a' <= c <= 'f' || 'A' <= c <= 'F'
  }

  predicate ValidSnapshotID(id: string) {
    id == "latest" || (8 <= |id| <= 64 && forall i :: 0 <= i < |id| ==> IsHex(id[i]))
  }

  predicate ConcreteID(id: string) {
    ValidSnapshotID(id) && id != "latest"
  }

  /** The text after the last slash of a cleaned path; "/" is its own base name. */
  function Base(cleaned: string): string {
    var names := Names(cleaned);
    if names == [] then "/" else names[|names| - 1]
  }

  function EntryOf(m: RawMatch): Option<Entry> {
    if m.BadMatch? || m.path == "" then None
    else match CleanPath(m.path)
      case None => None
      case Some(cleaned) => Some(Entry(cleaned, if m.name == "" then Base(cleaned) else m.name, m.kind, m.size))
  }

  function StopFor(fault: Fault): (stop: Stop)
    ensures stop.OutOfBudget? || stop.Failed?
  {
    match fault
    case ByteBudget => OutOfBudget
    case Truncated => Failed
  }

  /** The matches of one array, tested under snapshot `id` as part of group `g`. */
  function VisitItems(items: seq<RawMatch>, g: nat, id: string, decoded: nat, max: nat, accept: Accept): (v: Visit)
    ensures v.stop.Running? || v.stop.OutOfBudget? || v.stop.Failed?
  {
    if items == [] then Visit([], decoded, Running)
    else if decoded >= max then Visit([], decoded, OutOfBudget)
    else
      var entry := EntryOf(items[0]);
      if entry.None? then Visit([], decoded, Failed)
      else
        var rest := VisitItems(items[1..], g, id, decoded + 1, max, accept);
        if accept(id, entry.value) then rest.(hits := [Hit(g, id, entry.value, decoded + 1)] + rest.hits) else rest
  }

  /** A group as far as it was read: its hits, its snapshot id so far, and a matches array that came
      before the id and still waits for it. */
  datatype GroupVisit = GroupVisit(visit: Visit, id: string, pending: Option<Matches>)

  function VisitField(field: Field, g: nat, id: string, pending: Option<Matches>, decoded: nat, max: nat,
          accept: Accept): GroupVisit {
    match field
    case SnapshotField(newID) =>
      if ConcreteID(newID) then GroupVisit(Visit([], decoded, Running), newID, pending)
      else GroupVisit(Visit([], decoded, Failed), id, pending)
    case MatchesField(matches) =>
      if id == "" then GroupVisit(Visit([], decoded, Running), id, Some(matches))
      else if matches.Array? then GroupVisit(VisitItems(matches.items, g, id, decoded, max, accept), id, pending)
      else GroupVisit(Visit([], decoded, Failed), id, pending)
    case Ignored => GroupVisit(Visit([], decoded, Running), id, pending)
    case BadField => GroupVisit(Visit([], decoded, Failed), id, pending)
  }

  function GroupThen(a: GroupVisit, b: GroupVisit): GroupVisit {
    if a.visit.stop.Running? then b.(visit := Then(a.visit, b.visit)) else a
  }

  function VisitFields(fields: seq<Field>, g: nat, id: string, pending: Option<Matches>, decoded: nat, max: nat,
          accept: Accept): (gv: GroupVisit)
    ensures !gv.visit.stop.Ended?
  {
    if fields == [] then GroupVisit(Visit([], decoded, Running), id, pending)
    else
      var first := VisitField(fields[0], g, id, pending, decoded, max, accept);
      GroupThen(first, VisitFields(fields[1..], g, first.id, first.pending, first.visit.decoded, max, accept))
  }

  /** The closing brace: an id is required, and a waiting matches array is read now. */
  function VisitPending(id: string, pending: Option<Matches>, g: nat, decoded: nat, max: nat, accept: Accept): Visit {
    if id == "" then Visit([], decoded, Failed)
    else match pending
      case None => Visit([], decoded, Running)
      case Some(NullMatches) => Visit([], decoded, Running)
      case Some(NotArray) => Visit([], decoded, Failed)
      case Some(Array(items)) => VisitItems(items, g, id, decoded, max, accept)
  }

  /** An array that is complete, or after whose items the tokens run out. */
  function VisitArray(items: seq<RawMatch>, fault: Option<Fault>, g: nat, id: string, decoded: nat, max: nat,
          accept: Accept): Visit {
    var v := VisitItems(items, g, id, decoded, max, accept);
    match fault
    case None => v
    case Some(f) => Then(v, Visit([], v.decoded, StopFor(f)))
  }

  /** The tokens run out inside a group. A matches array that still waits for its id is dropped whole. */
  function VisitPartial(id: string, partial: Partial, fault: Fault, g: nat, decoded: nat, max: nat,
          accept: Accept): Visit {
    if partial.BareFault? || id == "" then Visit([], decoded, StopFor(fault))
    else VisitArray(partial.items, Some(fault), g, id, decoded, max, accept)
  }

  /** Everything a document would yield: the hits of all groups and each group's snapshot id. */
  datatype Found = Found(visit: Visit, ids: seq<string>)

  /** What happens after the keys that were read: the closing brace, or the fault that precedes it. */
  function VisitGroupEnd(gv: GroupVisit, tail: Option<(Partial, Fault)>, g: nat, max: nat, accept: Accept): Visit {
    match tail
    case None => VisitPending(gv.id, gv.pending, g, gv.visit.decoded, max, accept)
    case Some(t) => VisitPartial(gv.id, t.0, t.1, g, gv.visit.decoded, max, accept)
  }

  function VisitGroup(fields: seq<Field>, tail: Option<(Partial, Fault)>, g: nat, decoded: nat, max: nat,
          accept: Accept): GroupVisit {
    var gv := VisitFields(fields, g, "", None, decoded, max, accept);
    gv.(visit := Then(gv.visit, VisitGroupEnd(gv, tail, g, max, accept)))
  }

  function VisitTail(tail: Tail, g: nat, decoded: nat, max: nat, accept: Accept): Found {
    match tail
    case Closed => Found(Visit([], decoded, Ended), [])
    case TrailingData => Found(Visit([], decoded, Failed), [])
    case CutAfterList => Found(Visit([], decoded, Failed), [])
    case Between(fault) => Found(Visit([], decoded, StopFor(fault)), [])
    case Within(fields, partial, fault) =>
      if decoded >= max then Found(Visit([], decoded, OutOfBudget), [])
      else
        var gv := VisitGroup(fields, Some((partial, fault)), g, decoded + 1, max, accept);
        Found(gv.visit, [gv.id])
  }

  function VisitElements(elements: seq<Element>, tail: Tail, g: nat, decoded: nat, max: nat, accept: Accept): Found {
    if elements == [] then VisitTail(tail, g, decoded, max, accept)
    else if decoded >= max then Found(Visit([], decoded, OutOfBudget), [])
    else match elements[0]
      case BadElement => Found(Visit([], decoded, Failed), [])
      case Object(fields) =>
        var gv := VisitGroup(fields, None, g, decoded + 1, max, accept);
        if gv.visit.stop.Running? then
          var rest := VisitElements(elements[1..], tail, g + 1, gv.visit.decoded, max, accept);
          Found(Then(gv.visit, rest.visit), [gv.id] + rest.ids)
        else Found(gv.visit, [gv.id])
  }

  function VisitDocument(doc: Document, max: nat, accept: Accept): Found {
    match doc
    case EmptyOutput => Found(Visit([], 0, Ended), [])
    case NotList => Found(Visit([], 0, Failed), [])
    case NoList(fault) => Found(Visit([], 0, StopFor(fault)), [])
    case List(elements, tail) => VisitElements(elements, tail, 0, 0, max, accept)
  }

  // ---------------------------------------------------------------- the page

  datatype FindGroup = FindGroup(hits: nat, snapshot: string, matches: seq<Entry>)

  datatype Result = ProtocolError | Scanned(groups: seq<FindGroup>, stats: Stats)

  /** The entries that belong to group `g`, in order. */
  function OfGroup(u: seq<Hit>, g: nat): seq<Entry> {
    if u == [] then []
    else
      var last := u[|u| - 1];
      OfGroup(u[..|u| - 1], g) + if last.group == g then [last.entry] else []
  }

  /** One output group for every stream group that has entries on the page. */
  function Groups(u: seq<Hit>, ids: seq<string>): seq<FindGroup> {
    if ids == [] then []
    else
      var g := |ids| - 1;
      var matches := OfGroup(u, g);
      Groups(u, ids[..g]) + if matches == [] then [] else [FindGroup(|matches|, ids[g], matches)]
  }

  /** The snapshot ids known when the page ends: a page that ends inside a group knows only the id that
      was current there. */
  function PageIDs(f: Found, skip: nat, limit: nat): seq<string> {
    var u := Drop(f.visit.hits, skip);
    var n := PageLength(u, limit);
    if n < |u| && u[n].group <= |f.ids| then f.ids[..u[n].group] + [u[n].id] else f.ids
  }

  function PageOfFound(f: Found, skip: nat, limit: nat): Result {
    match PageOf(f.visit, skip, limit)
    case NoPage => ProtocolError
    case Page(hits, stats) => Scanned(Groups(hits, PageIDs(f, skip, limit)), stats)
  }

  /** The page of a document: a slice of everything it would yield, regrouped. */
  function PageOfDocument(doc: Document, max: nat, skip: nat, limit: nat, accept: Accept): Result {
    PageOfFound(VisitDocument(doc, max, accept), skip, limit)
  }

  // ---------------------------------------------------------------- what a match is listed as

  /** The last name of a path: what stands behind its last slash; "/" is its own. */
  ghost predicate LastName(path: string, name: string) {
    if path == "/" then name == "/"
    else name != "" && '/' !in name && |name| < |path| && path[|path| - |name| - 1..] == "/" + name
  }

  /** How a match is listed: under its cleaned path, with its own name or, if it has none, the last name of the
      path, and with its type and size. */
  ghost predicate ListedAs(m: RawMatch, e: Entry) {
    && m.RawMatch? && CleanPath(m.path) == Some(e.path) && e.kind == m.kind && e.size == m.size
    && (if m.name != "" then e.name == m.name else LastName(e.path, e.name))
  }

  lemma LastNameEndsAtSlash(path: string, name: string)
    requires LastName(path, name) && path != "/"
    ensures path[|path| - |name| - 1] == '/' && path[|path| - |name|..] == name
    ensures forall k :: |path| - |name| <= k < |path| ==> path[k] != '/'
  {
    var i := |path| - |name| - 1;
    assert path[i] == path[i..][0] && path[i + 1..] == path[i..][1..];
    forall k | i < k < |path| ensures path[k] == name[k - i - 1] {
      assert path[k] == path[i..][k - i];
    }
  }

  lemma LastNameIsUnique(path: string, a: string, b: string)
    requires LastName(path, a) && LastName(path, b)
    ensures a == b
  {
    if path != "/" {
      LastNameEndsAtSlash(path, a);
      LastNameEndsAtSlash(path, b);
    }
  }

  lemma BaseIsLastName(p: string)
    requires Canonical(p)
    ensures LastName(p, Base(p))
  {
    var names := Names(p);
    if names != [] {
      var n := |names| - 1;
      assert names == names[..n] + [names[n]];
      JoinAppend(names[..n], [names[n]]);
      assert [names[n]][1..] == [];
      assert p == Join(names[..n]) + ("/" + names[n]);
      assert p != "/";
    }
  }

  /** A match can be read exactly when its path can be cleaned, and is then listed as it should be. */
  lemma EntryIsListing(m: RawMatch)
    ensures EntryOf(m).Some? <==> m.RawMatch? && CleanPath(m.path).Some?
    ensures EntryOf(m).Some? ==> ListedAs(m, EntryOf(m).value)
  {
    if EntryOf(m).Some? {
      CleanPathIsCanonical(m.path);
      BaseIsLastName(CleanPath(m.path).value);
    }
  }

  /** A match without a name, below some parent. */
  lemma NamelessMatch(m: RawMatch, parent: string, name: string)
    requires m.RawMatch? && m.name == "" && name != "" && '/' !in name
    requires CleanPath(m.path) == Some(parent + "/" + name)
    ensures EntryOf(m) == Some(Entry(parent + "/" + name, name, m.kind, m.size))
  {
    EntryIsListing(m);
    var p := parent + "/" + name;
    assert p != "/" && p[|p| - |name| - 1..] == "/" + name;
    LastNameIsUnique(p, EntryOf(m).value.name, name);
  }

  /** The file restic's own output shows without a name. */
  lemma NamelessFile(size: nat)
    ensures EntryOf(RawMatch("/data/hello.txt", "", "file", size))
         == Some(Entry("/data/hello.txt", "hello.txt", "file", size))
  {
    assert '/' !in "data" && '/' !in "hello.txt" && Legal("data") && Legal("hello.txt");
    TwoNamesAreClean("data", "hello.txt");
    assert "/data" + "/" + "hello.txt" == "/" + "data" + "/" + "hello.txt" == "/data/hello.txt";
    NamelessMatch(RawMatch("/data/hello.txt", "", "file", size), "/data", "hello.txt");
  }

  function ItemsOf(matches: Matches): seq<RawMatch> {
    if matches.Array? then matches.items else []
  }

  function FieldItems(fields: seq<Field>): seq<RawMatch> {
    if fields == [] then []
    else (if fields[0].MatchesField? then ItemsOf(fields[0].matches) else []) + FieldItems(fields[1..])
  }

  function TailItems(tail: Tail): seq<RawMatch> {
    if tail.Within? then FieldItems(tail.fields) + if tail.partial.MatchesFault? then tail.partial.items else [] else []
  }

  function ElementItems(elements: seq<Element>): seq<RawMatch> {
    if elements == [] then []
    else (if elements[0].Object? then FieldItems(elements[0].fields) else []) + ElementItems(elements[1..])
  }

  /** All matches a document holds. */
  function RawMatches(doc: Document): seq<RawMatch> {
    if doc.List? then ElementItems(doc.elements) + TailItems(doc.tail) else []
  }

  /** Each hit lists one of these matches. */
  ghost predicate HitsList(hits: seq<Hit>, items: seq<RawMatch>) {
    forall i :: 0 <= i < |hits| ==> IsListed(hits[i].entry, items)
  }

  ghost predicate IsListed(e: Entry, items: seq<RawMatch>) {
    exists k :: 0 <= k < |items| && ListedAs(items[k], e)
  }

  lemma ListedAmongMore(e: Entry, a: seq<RawMatch>, b: seq<RawMatch>)
    requires IsListed(e, a) || IsListed(e, b)
    ensures IsListed(e, a + b)
  {
    if k :| 0 <= k < |a| && ListedAs(a[k], e) {
      assert (a + b)[k] == a[k];
    } else {
      var k :| 0 <= k < |b| && ListedAs(b[k], e);
      assert (a + b)[|a| + k] == b[k];
    }
  }

  lemma HitsTogether(v: Visit, w: Visit, a: seq<RawMatch>, b: seq<RawMatch>)
    requires HitsList(v.hits, a) && HitsList(w.hits, b)
    ensures HitsList(Then(v, w).hits, a + b)
  {
    forall i | 0 <= i < |Then(v, w).hits| ensures IsListed(Then(v, w).hits[i].entry, a + b) {
      ListedAmongMore(Then(v, w).hits[i].entry, a, b);
    }
  }

  lemma HitsAmongMore(hits: seq<Hit>, a: seq<RawMatch>, b: seq<RawMatch>)
    requires HitsList(hits, a) || HitsList(hits, b)
    ensures HitsList(hits, a + b)
  {
    forall i | 0 <= i < |hits| ensures IsListed(hits[i].entry, a + b) {
      ListedAmongMore(hits[i].entry, a, b);
    }
  }

  lemma {:induction false} ItemsListed(items: seq<RawMatch>, g: nat, id: string, decoded: nat, max: nat, accept: Accept)
    ensures HitsList(VisitItems(items, g, id, decoded, max, accept).hits, items)
  {
    if items != [] && decoded < max && EntryOf(items[0]).Some? {
      ItemsListed(items[1..], g, id, decoded + 1, max, accept);
      EntryIsListing(items[0]);
      var rest := VisitItems(items[1..], g, id, decoded + 1, max, accept).hits;
      HitsAmongMore(rest, [items[0]], items[1..]);
      assert items == [items[0]] + items[1..];
      assert IsListed(EntryOf(items[0]).value, items);
    }
  }

  /** Matches that wait for the id of their group are among those read so far. */
  ghost predicate PendingFrom(pending: Option<Matches>, items: seq<RawMatch>) {
    pending.Some? ==> forall m :: m in ItemsOf(pending.value) ==> m in items
  }

  lemma FieldListed(field: Field, g: nat, id: string, pending: Option<Matches>, seen: seq<RawMatch>, decoded: nat,
          max: nat, accept: Accept)
    requires PendingFrom(pending, seen)
    ensures var gv := VisitField(field, g, id, pending, decoded, max, accept);
      HitsList(gv.visit.hits, FieldItems([field])) && PendingFrom(gv.pending, seen + FieldItems([field]))
  {
    assert [field][1..] == [];
    if field.MatchesField? {
      assert FieldItems([field]) == ItemsOf(field.matches);
      if field.matches.Array? {
        ItemsListed(field.matches.items, g, id, decoded, max, accept);
      }
    }
  }

  lemma {:induction false} FieldsListed(fields: seq<Field>, g: nat, id: string, pending: Option<Matches>,
          seen: seq<RawMatch>, decoded: nat, max: nat, accept: Accept)
    requires PendingFrom(pending, seen)
    ensures var gv := VisitFields(fields, g, id, pending, decoded, max, accept);
      HitsList(gv.visit.hits, FieldItems(fields)) && PendingFrom(gv.pending, seen + FieldItems(fields))
  {
    if fields != [] {
      var first := VisitField(fields[0], g, id, pending, decoded, max, accept);
      var own := FieldItems([fields[0]]);
      FieldListed(fields[0], g, id, pending, seen, decoded, max, accept);
      FieldsListed(fields[1..], g, first.id, first.pending, seen + own, first.visit.decoded, max, accept);
      var rest := VisitFields(fields[1..], g, first.id, first.pending, first.visit.decoded, max, accept);
      assert [fields[0]][1..] == [];
      var items := if fields[0].MatchesField? then ItemsOf(fields[0].matches) else [];
      assert own == items + FieldItems([]) == items;
      assert FieldItems(fields) == own + FieldItems(fields[1..]);
      HitsTogether(first.visit, rest.visit, own, FieldItems(fields[1..]));
      HitsAmongMore(first.visit.hits, own, FieldItems(fields[1..]));
      assert seen + own + FieldItems(fields[1..]) == seen + FieldItems(fields);
    }
  }

  lemma ListedFromMembers(e: Entry, a: seq<RawMatch>, b: seq<RawMatch>)
    requires IsListed(e, a) && forall m :: m in a ==> m in b
    ensures IsListed(e, b)
  {
    var k :| 0 <= k < |a| && ListedAs(a[k], e);
    assert a[k] in b;
  }

  lemma GroupEndListed(gv: GroupVisit, tail: Option<(Partial, Fault)>, g: nat, seen: seq<RawMatch>, max: nat,
          accept: Accept)
    requires PendingFrom(gv.pending, seen)
    ensures HitsList(VisitGroupEnd(gv, tail, g, max, accept).hits, seen + PartialItems(tail))
  {
    var hits := VisitGroupEnd(gv, tail, g, max, accept).hits;
    match tail
    case None =>
      if gv.pending.Some? && gv.pending.value.Array? {
        var items := gv.pending.value.items;
        ItemsListed(items, g, gv.id, gv.visit.decoded, max, accept);
        forall i | 0 <= i < |hits| ensures IsListed(hits[i].entry, seen) {
          ListedFromMembers(hits[i].entry, items, seen);
        }
      }
      HitsAmongMore(hits, seen, []);
    case Some(t) =>
      if t.0.MatchesFault? {
        ItemsListed(t.0.items, g, gv.id, gv.visit.decoded, max, accept);
        HitsAmongMore(hits, seen, t.0.items);
      }
  }

  function PartialItems(tail: Option<(Partial, Fault)>): seq<RawMatch> {
    if tail.Some? && tail.value.0.MatchesFault? then tail.value.0.items else []
  }

  lemma GroupListed(fields: seq<Field>, tail: Option<(Partial, Fault)>, g: nat, decoded: nat, max: nat, accept: Accept)
    ensures HitsList(VisitGroup(fields, tail, g, decoded, max, accept).visit.hits,
                     FieldItems(fields) + PartialItems(tail))
  {
    var gv := VisitFields(fields, g, "", None, decoded, max, accept);
    var all := FieldItems(fields) + PartialItems(tail);
    FieldsListed(fields, g, "", None, [], decoded, max, accept);
    assert [] + FieldItems(fields) == FieldItems(fields);
    GroupEndListed(gv, tail, g, FieldItems(fields), max, accept);
    HitsAmongMore(gv.visit.hits, FieldItems(fields), PartialItems(tail));
    var end := VisitGroupEnd(gv, tail, g, max, accept);
    assert forall i :: 0 <= i < |Then(gv.visit, end).hits| ==>
      Then(gv.visit, end).hits[i] in gv.visit.hits || Then(gv.visit, end).hits[i] in end.hits;
  }

  lemma FrontListed(elements: seq<Element>, tail: Tail, g: nat, decoded: nat, max: nat, accept: Accept,
          gv: GroupVisit, rest: Visit, own: seq<RawMatch>, others: seq<RawMatch>)
    requires elements != [] && decoded < max && elements[0].Object?
    requires gv == VisitGroup(elements[0].fields, None, g, decoded + 1, max, accept)
    requires rest == VisitElements(elements[1..], tail, g + 1, gv.visit.decoded, max, accept).visit
    requires HitsList(gv.visit.hits, own) && HitsList(rest.hits, others)
    ensures HitsList(VisitElements(elements, tail, g, decoded, max, accept).visit.hits, own + others)
  {
    HitsTogether(gv.visit, rest, own, others);
    HitsAmongMore(gv.visit.hits, own, others);
  }

  lemma TailListed(tail: Tail, g: nat, decoded: nat, max: nat, accept: Accept)
    ensures HitsList(VisitTail(tail, g, decoded, max, accept).visit.hits, TailItems(tail))
  {
    if tail.Within? && decoded < max {
      GroupListed(tail.fields, Some((tail.partial, tail.fault)), g, decoded + 1, max, accept);
    }
  }

  lemma {:induction false} ElementsListed(elements: seq<Element>, tail: Tail, g: nat, decoded: nat, max: nat,
          accept: Accept)
    ensures HitsList(VisitElements(elements, tail, g, decoded, max, accept).visit.hits,
                     ElementItems(elements) + TailItems(tail))
  {
    if elements == [] {
      assert [] + TailItems(tail) == TailItems(tail);
      TailListed(tail, g, decoded, max, accept);
    } else if decoded < max && elements[0].Object? {
      var own, others := FieldItems(elements[0].fields), ElementItems(elements[1..]) + TailItems(tail);
      var gv := VisitGroup(elements[0].fields, None, g, decoded + 1, max, accept);
      GroupListed(elements[0].fields, None, g, decoded + 1, max, accept);
      assert own + [] == own;
      ElementsListed(elements[1..], tail, g + 1, gv.visit.decoded, max, accept);
      FrontListed(elements, tail, g, decoded, max, accept, gv,
        VisitElements(elements[1..], tail, g + 1, gv.visit.decoded, max, accept).visit, own, others);
      assert ElementItems(elements) + TailItems(tail) == own + others;
    }
  }

  lemma DocumentListed(doc: Document, max: nat, accept: Accept)
    ensures HitsList(VisitDocument(doc, max, accept).visit.hits, RawMatches(doc))
  {
    if doc.List? {
      ElementsListed(doc.elements, doc.tail, 0, 0, max, accept);
    }
  }

  lemma PageHitsListed(v: Visit, skip: nat, limit: nat, items: seq<RawMatch>)
    requires HitsList(v.hits, items) && PageOf(v, skip, limit).Page?
    ensures HitsList(PageOf(v, skip, limit).hits, items)
  {
    var hits := PageOf(v, skip, limit).hits;
    assert forall i :: 0 <= i < |hits| ==> hits[i] == v.hits[skip + i];
  }

  lemma {:induction false} GroupMatchesAreHits(u: seq<Hit>, g: nat, items: seq<RawMatch>)
    requires HitsList(u, items)
    ensures forall j :: 0 <= j < |OfGroup(u, g)| ==> IsListed(OfGroup(u, g)[j], items)
  {
    if u != [] {
      GroupMatchesAreHits(u[..|u| - 1], g, items);
    }
  }

  /** Everything on a page lists one of the matches. */
  ghost predicate PageLists(groups: seq<FindGroup>, items: seq<RawMatch>) {
    forall i, j :: 0 <= i < |groups| && 0 <= j < |groups[i].matches| ==> IsListed(groups[i].matches[j], items)
  }

  lemma {:induction false} GroupsListed(u: seq<Hit>, ids: seq<string>, items: seq<RawMatch>)
    requires HitsList(u, items)
    ensures PageLists(Groups(u, ids), items)
  {
    if ids != [] {
      var g := |ids| - 1;
      GroupsListed(u, ids[..g], items);
      GroupMatchesAreHits(u, g, items);
    }
  }

  /** Whatever a page lists is a match of the document, listed as it should be. */
  lemma PageListsMatches(doc: Document, max: nat, skip: nat, limit: nat, accept: Accept)
    requires PageOfDocument(doc, max, skip, limit, accept).Scanned?
    ensures PageLists(PageOfDocument(doc, max, skip, limit, accept).groups, RawMatches(doc))
  {
    var f := VisitDocument(doc, max, accept);
    DocumentListed(doc, max, accept);
    PageHitsListed(f.visit, skip, limit, RawMatches(doc));
    GroupsListed(PageOf(f.visit, skip, limit).hits, PageIDs(f, skip, limit), RawMatches(doc));
  }

  // ---------------------------------------------------------------- the scanner

  /** The scanner's counters and the matches of the group being read. */
  datatype Progress = Progress(
    decoded: nat,
    accepted: nat,
    pageEntries: nat,
    more: bool,
    budgetExhausted: bool,
    remainingSkip: nat,
    matches: seq<Entry>)

  datatype Outcome = Continue | Stopped | Error

  /** `p` is what the scanner knows after accepting exactly `h`, the current group being `g`. */
  ghost predicate Tracks(p: Progress, h: seq<Hit>, g: nat, skip: nat, limit: nat) {
    var u := Drop(h, skip);
    && Fits(h, skip, limit)
    && p.remainingSkip == (if |h| <= skip then skip - |h| else 0)
    && p.matches == OfGroup(u, g)
    && |p.matches| <= limit
    && p.pageEntries + |p.matches| == |u|
    && (forall k :: 0 <= k < |u| ==> u[k].group <= g && (u[k].group == g <==> k >= p.pageEntries))
  }

  /** The scanner did with `w` what it should: it took all of it, or stopped at the hit `x` that no
      longer fits. */
  ghost predicate Follows(w: Visit, h: seq<Hit>, out: Outcome, p: Progress, h': seq<Hit>, x: Option<Hit>, g: nat,
          skip: nat, limit: nat) {
    match x
    case None =>
      && h' == h + w.hits
      && (out.Error? ==> w.stop.Failed?)
      && (out.Continue? ==> w.stop.Running? && !p.more && !p.budgetExhausted)
      && (out.Stopped? ==>
            && w.stop.OutOfBudget? && p.budgetExhausted
            && p.more == PageMayHaveMore(|Drop(h', skip)|, limit))
      && (!out.Error? ==> p.decoded == w.decoded && p.accepted == |h'|)
    case Some(hit) =>
      && out.Stopped? && h' + [hit] <= h + w.hits && hit.group == g
      && p.decoded == hit.at && p.accepted == |h'| + 1 && p.more && !p.budgetExhausted
      && |p.matches| == limit && skip <= |h'|
  }

  lemma FollowsFirst(w: Visit, next: Visit, h: seq<Hit>, out: Outcome, p: Progress, h': seq<Hit>, x: Option<Hit>,
          g: nat, skip: nat, limit: nat)
    requires Follows(w, h, out, p, h', x, g, skip, limit) && !out.Continue?
    ensures Follows(Then(w, next), h, out, p, h', x, g, skip, limit)
  {
    if w.stop.Running? {
      assert h + (w.hits + next.hits) == h + w.hits + next.hits;
    }
  }

  lemma FollowsBoth(w: Visit, next: Visit, h: seq<Hit>, mid: seq<Hit>, out: Outcome, p: Progress, h': seq<Hit>,
          x: Option<Hit>, g: nat, skip: nat, limit: nat)
    requires w.stop.Running? && mid == h + w.hits
    requires Follows(next, mid, out, p, h', x, g, skip, limit)
    ensures Follows(Then(w, next), h, out, p, h', x, g, skip, limit)
  {
    assert h + (w.hits + next.hits) == mid + next.hits;
  }

  lemma OfGroupStep(u: seq<Hit>, x: Hit, g: nat)
    ensures OfGroup(u + [x], g) == OfGroup(u, g) + if x.group == g then [x.entry] else []
  {
    assert (u + [x])[..|u|] == u;
  }

  lemma StillFits(u: seq<Hit>, x: Hit, limit: nat)
    requires limit > 0 && forall k :: 0 <= k < |u| ==> !Overflows(u, k, limit)
    requires limit <= |u| ==> u[|u| - limit].group != x.group
    ensures forall k :: 0 <= k <= |u| ==> !Overflows(u + [x], k, limit)
  {
    forall k | 0 <= k <= |u| ensures !Overflows(u + [x], k, limit) {
      if k < |u| {
        assert !Overflows(u, k, limit);
      } else if limit <= k {
        assert (u + [x])[k - limit] == u[k - limit];
      }
    }
  }

  /** Accepting one more hit of the current group that is skipped or fits keeps track. */
  lemma TracksStep(p: Progress, h: seq<Hit>, x: Hit, g: nat, skip: nat, limit: nat)
    requires Tracks(p, h, g, skip, limit) && x.group == g
    requires p.remainingSkip > 0 || |p.matches| < limit
    ensures Tracks(
      if p.remainingSkip > 0 then p.(remainingSkip := p.remainingSkip - 1) else p.(matches := p.matches + [x.entry]),
      h + [x], g, skip, limit)
  {
    if |h| < skip {
      assert Drop(h + [x], skip) == [];
    } else {
      var u := Drop(h, skip);
      assert Drop(h + [x], skip) == u + [x];
      OfGroupStep(u, x, g);
      if p.remainingSkip == 0 {
        StillFits(u, x, limit);
      }
    }
  }

  /** The group is full exactly when the next hit overflows the page. */
  lemma FullGroupOverflows(p: Progress, h: seq<Hit>, x: Hit, g: nat, skip: nat, limit: nat)
    requires Tracks(p, h, g, skip, limit) && x.group == g && p.remainingSkip == 0 && |p.matches| >= limit
    ensures skip <= |h| && Overflows(Drop(h, skip) + [x], |h| - skip, limit)
  {
  }

  /** Reading one stretch of matches after another. */
  lemma {:induction false} VisitItemsAppend(a: seq<RawMatch>, b: seq<RawMatch>, g: nat, id: string, decoded: nat,
          max: nat, accept: Accept)
    ensures var v := VisitItems(a, g, id, decoded, max, accept);
      VisitItems(a + b, g, id, decoded, max, accept) == Then(v, VisitItems(b, g, id, v.decoded, max, accept))
  {
    if a == [] {
      assert a + b == b;
      ThenNothing(VisitItems(b, g, id, decoded, max, accept), decoded);
    } else {
      assert (a + b)[1..] == a[1..] + b;
      VisitItemsAppend(a[1..], b, g, id, decoded + 1, max, accept);
      if decoded < max && EntryOf(a[0]).Some? {
        var rest := VisitItems(a[1..], g, id, decoded + 1, max, accept);
        var hit := Hit(g, id, EntryOf(a[0]).value, decoded + 1);
        assert [hit] + (rest.hits + VisitItems(b, g, id, rest.decoded, max, accept).hits)
            == [hit] + rest.hits + VisitItems(b, g, id, rest.decoded, max, accept).hits;
      }
    }
  }

  lemma ThenNothing(w: Visit, decoded: nat)
    ensures Then(Visit([], decoded, Running), w) == w
  {
    assert [] + w.hits == w.hits;
  }

  lemma OneItem(item: RawMatch, g: nat, id: string, decoded: nat, max: nat, accept: Accept)
    ensures VisitItems([item], g, id, decoded, max, accept) ==
      if decoded >= max then Visit([], decoded, OutOfBudget)
      else match EntryOf(item)
        case None => Visit([], decoded, Failed)
        case Some(e) => Visit(if accept(id, e) then [Hit(g, id, e, decoded + 1)] else [], decoded + 1, Running)
  {
    assert [item][1..] == [];
  }

  /** One element of a matches array: decode, test, skip, keep, or detect the page boundary. */
  method ScanMatch(item: RawMatch, ghost g: nat, id: string, before: Progress,
                   max: nat, limit: nat, accept: Accept, ghost h: seq<Hit>, ghost skip: nat)
      returns (p: Progress, out: Outcome, ghost h': seq<Hit>, ghost x: Option<Hit>)
    requires Tracks(before, h, g, skip, limit) && before.accepted == |h| && !before.more && !before.budgetExhausted
    ensures Follows(VisitItems([item], g, id, before.decoded, max, accept), h, out, p, h', x, g, skip, limit)
    ensures x.Some? ==> x.value.id == id
    ensures Tracks(p, h', g, skip, limit) && h <= h' && p.pageEntries == before.pageEntries
  {
    p, out, h', x := before, Continue, h, None;
    OneItem(item, g, id, before.decoded, max, accept);
    assert h + [] == h;
    if p.decoded >= max {
      p := p.(budgetExhausted := true, more := PageMayHaveMore(p.pageEntries + |p.matches|, limit));
      out := Stopped;
      return;
    }
    var entry := EntryOf(item);
    if entry.None? {
      out := Error;
      return;
    }
    p := p.(decoded := p.decoded + 1);
    if !accept(id, entry.value) {
      return;
    }
    ghost var hit := Hit(g, id, entry.value, p.decoded);
    if p.remainingSkip > 0 {
      TracksStep(p, h, hit, g, skip, limit);
      p := p.(accepted := p.accepted + 1, remainingSkip := p.remainingSkip - 1);
      h' := h + [hit];
      return;
    }
    if |p.matches| < limit {
      TracksStep(p, h, hit, g, skip, limit);
      p := p.(accepted := p.accepted + 1, matches := p.matches + [entry.value]);
      h' := h + [hit];
      return;
    }
    p := p.(accepted := p.accepted + 1, more := true);
    out, x := Stopped, Some(hit);
  }

  lemma ItemsAdvance(items: seq<RawMatch>, i: nat, g: nat, id: string, decoded: nat, max: nat, accept: Accept,
                     h: seq<Hit>, mid: seq<Hit>, out: Outcome, p: Progress, h': seq<Hit>, x: Option<Hit>,
                     skip: nat, limit: nat)
    requires i < |items|
    requires var v := VisitItems(items[..i], g, id, decoded, max, accept);
      && v.stop.Running? && mid == h + v.hits
      && Follows(VisitItems([items[i]], g, id, v.decoded, max, accept), mid, out, p, h', x, g, skip, limit)
    ensures Follows(VisitItems(items[..i + 1], g, id, decoded, max, accept), h, out, p, h', x, g, skip, limit)
  {
    var v := VisitItems(items[..i], g, id, decoded, max, accept);
    FollowsBoth(v, VisitItems([items[i]], g, id, v.decoded, max, accept), h, mid, out, p, h', x, g, skip, limit);
    VisitItemsAppend(items[..i], [items[i]], g, id, decoded, max, accept);
    assert items[..i + 1] == items[..i] + [items[i]];
  }

  /** A fault right after the items that were read. */
  lemma FaultFollows(v: Visit, fault: Fault, h: seq<Hit>, out: Outcome, p: Progress, h': seq<Hit>, g: nat, skip: nat,
          limit: nat)
    requires v.stop.Running? && h' == h + v.hits && p.accepted == |h'| && p.decoded == v.decoded
    requires match fault
      case Truncated => out.Error?
      case ByteBudget => out.Stopped? && p.budgetExhausted && p.more == PageMayHaveMore(|Drop(h', skip)|, limit)
    ensures Follows(Then(v, Visit([], v.decoded, StopFor(fault))), h, out, p, h', None, g, skip, limit)
  {
    assert v.hits + [] == v.hits;
  }

  /** One matches array, element by element. */
  method ScanMatches(items: seq<RawMatch>, fault: Option<Fault>, ghost g: nat, id: string, before: Progress,
                     max: nat, limit: nat, accept: Accept, ghost h: seq<Hit>, ghost skip: nat)
      returns (p: Progress, out: Outcome, ghost h': seq<Hit>, ghost x: Option<Hit>)
    requires Tracks(before, h, g, skip, limit) && before.accepted == |h| && !before.more && !before.budgetExhausted
    ensures Follows(VisitArray(items, fault, g, id, before.decoded, max, accept), h, out, p, h', x, g, skip, limit)
    ensures x.Some? ==> x.value.id == id
    ensures Tracks(p, h', g, skip, limit) && h <= h' && p.pageEntries == before.pageEntries
  {
    p, out, h', x := before, Continue, h, None;
    assert h + [] == h;
    for i := 0 to |items|
      invariant Follows(VisitItems(items[..i], g, id, before.decoded, max, accept), h, Continue, p, h', None, g,
          skip, limit)
      invariant Tracks(p, h', g, skip, limit) && h <= h' && p.pageEntries == before.pageEntries
    {
      ghost var mid := h';
      p, out, h', x := ScanMatch(items[i], g, id, p, max, limit, accept, h', skip);
      ItemsAdvance(items, i, g, id, before.decoded, max, accept, h, mid, out, p, h', x, skip, limit);
      if out != Continue {
        ItemsFollow(items, i + 1, fault, g, id, before.decoded, max, accept, h, out, p, h', x, skip, limit);
        return;
      }
    }
    assert items[..|items|] == items;
    match fault {
      case None =>
        out, x := Continue, None;
      case Some(f) =>
        out, x := Error, None;
        if f.ByteBudget? {
          p := p.(budgetExhausted := true, more := PageMayHaveMore(p.pageEntries + |p.matches|, limit));
          out := Stopped;
        }
        FaultFollows(VisitItems(items, g, id, before.decoded, max, accept), f, h, out, p, h', g, skip, limit);
    }
  }

  /** A stop within the first `n` elements is a stop of the whole array. */
  lemma ItemsFollow(items: seq<RawMatch>, n: nat, fault: Option<Fault>, g: nat, id: string, decoded: nat, max: nat,
          accept: Accept,
                    h: seq<Hit>, out: Outcome, p: Progress, h': seq<Hit>, x: Option<Hit>, skip: nat, limit: nat)
    requires n <= |items| && !out.Continue?
    requires Follows(VisitItems(items[..n], g, id, decoded, max, accept), h, out, p, h', x, g, skip, limit)
    ensures Follows(VisitArray(items, fault, g, id, decoded, max, accept), h, out, p, h', x, g, skip, limit)
  {
    var v := VisitItems(items[..n], g, id, decoded, max, accept);
    VisitItemsAppend(items[..n], items[n..], g, id, decoded, max, accept);
    assert items == items[..n] + items[n..];
    FollowsFirst(v, VisitItems(items[n..], g, id, v.decoded, max, accept), h, out, p, h', x, g, skip, limit);
    var all := VisitItems(items, g, id, decoded, max, accept);
    if fault.Some? {
      FollowsFirst(all, Visit([], all.decoded, StopFor(fault.value)), h, out, p, h', x, g, skip, limit);
    }
  }

  lemma ThenAssociates(u: Visit, v: Visit, w: Visit)
    ensures Then(Then(u, v), w) == Then(u, Then(v, w))
  {
    assert u.hits + v.hits + w.hits == u.hits + (v.hits + w.hits);
  }

  /** Reading one stretch of a group's keys after another. */
  lemma {:induction false} VisitFieldsAppend(a: seq<Field>, b: seq<Field>, g: nat, id: string,
          pending: Option<Matches>, decoded: nat, max: nat, accept: Accept)
    ensures var ga := VisitFields(a, g, id, pending, decoded, max, accept);
      VisitFields(a + b, g, id, pending, decoded, max, accept)
      == GroupThen(ga, VisitFields(b, g, ga.id, ga.pending, ga.visit.decoded, max, accept))
  {
    if a == [] {
      assert a + b == b;
      ThenNothing(VisitFields(b, g, id, pending, decoded, max, accept).visit, decoded);
    } else {
      assert (a + b)[1..] == a[1..] + b;
      var first := VisitField(a[0], g, id, pending, decoded, max, accept);
      VisitFieldsAppend(a[1..], b, g, first.id, first.pending, first.visit.decoded, max, accept);
      var rest := VisitFields(a[1..], g, first.id, first.pending, first.visit.decoded, max, accept);
      ThenAssociates(first.visit, rest.visit,
        VisitFields(b, g, rest.id, rest.pending, rest.visit.decoded, max, accept).visit);
    }
  }

  /** One key of a group object. */
  method ScanField(field: Field, ghost g: nat, idIn: string, pendingIn: Option<Matches>, before: Progress,
                   max: nat, limit: nat, accept: Accept, ghost h: seq<Hit>, ghost skip: nat)
      returns (p: Progress, out: Outcome, id: string, pending: Option<Matches>, ghost h': seq<Hit>,
          ghost x: Option<Hit>)
    requires Tracks(before, h, g, skip, limit) && before.accepted == |h| && !before.more && !before.budgetExhausted
    ensures var gv := VisitField(field, g, idIn, pendingIn, before.decoded, max, accept);
      && Follows(gv.visit, h, out, p, h', x, g, skip, limit)
      && id == gv.id && pending == gv.pending
      && (x.Some? ==> x.value.id == id)
    ensures Tracks(p, h', g, skip, limit) && h <= h' && p.pageEntries == before.pageEntries
  {
    p, out, h', x := before, Continue, h, None;
    id, pending := idIn, pendingIn;
    assert h + [] == h;
    match field {
      case SnapshotField(snapshot) =>
        if ConcreteID(snapshot) {
          id := snapshot;
        } else {
          out := Error;
        }
      case MatchesField(matches) =>
        if id == "" {
          pending := Some(matches);
        } else if matches.Array? {
          p, out, h', x := ScanMatches(matches.items, None, g, id, before, max, limit, accept, h, skip);
        } else {
          out := Error;
        }
      case Ignored =>
      case BadField =>
        out := Error;
    }
  }

  lemma FieldsAdvance(fields: seq<Field>, i: nat, g: nat, decoded: nat, max: nat, accept: Accept,
                      h: seq<Hit>, mid: seq<Hit>, out: Outcome, p: Progress, h': seq<Hit>, x: Option<Hit>,
                      skip: nat, limit: nat)
    requires i < |fields|
    requires var gv := VisitFields(fields[..i], g, "", None, decoded, max, accept);
      && gv.visit.stop.Running? && mid == h + gv.visit.hits
      && Follows(VisitField(fields[i], g, gv.id, gv.pending, gv.visit.decoded, max, accept).visit, mid, out, p, h',
          x, g, skip, limit)
    ensures var gv := VisitFields(fields[..i], g, "", None, decoded, max, accept);
      var step := VisitField(fields[i], g, gv.id, gv.pending, gv.visit.decoded, max, accept);
      var next := VisitFields(fields[..i + 1], g, "", None, decoded, max, accept);
      && Follows(next.visit, h, out, p, h', x, g, skip, limit)
      && next.id == step.id && next.pending == step.pending
  {
    var gv := VisitFields(fields[..i], g, "", None, decoded, max, accept);
    var step := VisitField(fields[i], g, gv.id, gv.pending, gv.visit.decoded, max, accept);
    VisitFieldsAppend(fields[..i], [fields[i]], g, "", None, decoded, max, accept);
    assert fields[..i + 1] == fields[..i] + [fields[i]];
    OneField(fields[i], g, gv.id, gv.pending, gv.visit.decoded, max, accept);
    FollowsBoth(gv.visit, step.visit, h, mid, out, p, h', x, g, skip, limit);
  }

  /** The scanner has followed the first `n` keys. */
  ghost predicate FollowsFields(fields: seq<Field>, n: nat, g: nat, decoded: nat, max: nat, accept: Accept,
                                h: seq<Hit>, out: Outcome, p: Progress, id: string, pending: Option<Matches>,
                                h': seq<Hit>, x: Option<Hit>, skip: nat, limit: nat)
    requires n <= |fields|
  {
    var gv := VisitFields(fields[..n], g, "", None, decoded, max, accept);
    && Follows(gv.visit, h, out, p, h', x, g, skip, limit)
    && id == gv.id && pending == gv.pending
    && (x.Some? ==> x.value.id == id)
  }

  method ScanFieldAt(fields: seq<Field>, i: nat, ghost g: nat, idIn: string, pendingIn: Option<Matches>,
          before: Progress,
                     max: nat, limit: nat, accept: Accept, ghost decoded: nat, ghost h: seq<Hit>,
                     ghost mid: seq<Hit>, ghost skip: nat)
      returns (p: Progress, out: Outcome, id: string, pending: Option<Matches>, ghost h': seq<Hit>,
          ghost x: Option<Hit>)
    requires i < |fields| && Tracks(before, mid, g, skip, limit)
    requires FollowsFields(fields, i, g, decoded, max, accept, h, Continue, before, idIn, pendingIn, mid, None, skip,
        limit)
    ensures FollowsFields(fields, i + 1, g, decoded, max, accept, h, out, p, id, pending, h', x, skip, limit)
    ensures Tracks(p, h', g, skip, limit) && mid <= h' && p.pageEntries == before.pageEntries
  {
    p, out, id, pending, h', x := ScanField(fields[i], g, idIn, pendingIn, before, max, limit, accept, mid, skip);
    FieldsAdvance(fields, i, g, decoded, max, accept, h, mid, out, p, h', x, skip, limit);
  }

  /** The keys of one group object, in whatever order they come. */
  method ScanFields(fields: seq<Field>, ghost g: nat, before: Progress, max: nat, limit: nat, accept: Accept,
                    ghost h: seq<Hit>, ghost skip: nat)
      returns (p: Progress, out: Outcome, id: string, pending: Option<Matches>, ghost h': seq<Hit>,
          ghost x: Option<Hit>)
    requires Tracks(before, h, g, skip, limit) && before.accepted == |h| && !before.more && !before.budgetExhausted
    ensures var gv := VisitFields(fields, g, "", None, before.decoded, max, accept);
      && Follows(gv.visit, h, out, p, h', x, g, skip, limit)
      && (x.None? ==> id == gv.id && pending == gv.pending)
      && (x.Some? ==> x.value.id == id)
    ensures Tracks(p, h', g, skip, limit) && h <= h' && p.pageEntries == before.pageEntries
  {
    p, out, h', x := before, Continue, h, None;
    id, pending := "", None;
    assert h + [] == h;
    for i := 0 to |fields|
      invariant FollowsFields(fields, i, g, before.decoded, max, accept, h, Continue, p, id, pending, h', None, skip,
          limit)
      invariant Tracks(p, h', g, skip, limit) && h <= h' && p.pageEntries == before.pageEntries
    {
      p, out, id, pending, h', x := ScanFieldAt(fields, i, g, id, pending, p, max, limit, accept, before.decoded, h,
          h', skip);
      if out != Continue {
        FieldsFollow(fields, i + 1, g, before.decoded, max, accept, h, out, p, h', x, skip, limit);
        return;
      }
    }
    assert fields[..|fields|] == fields;
    out, x := Continue, None;
  }

  lemma OneField(field: Field, g: nat, id: string, pending: Option<Matches>, decoded: nat, max: nat, accept: Accept)
    ensures VisitFields([field], g, id, pending, decoded, max, accept)
        == VisitField(field, g, id, pending, decoded, max, accept)
  {
    assert [field][1..] == [];
    var first := VisitField(field, g, id, pending, decoded, max, accept);
    assert first.visit.hits + [] == first.visit.hits;
  }

  lemma FieldsFollow(fields: seq<Field>, n: nat, g: nat, decoded: nat, max: nat, accept: Accept,
                     h: seq<Hit>, out: Outcome, p: Progress, h': seq<Hit>, x: Option<Hit>, skip: nat, limit: nat)
    requires n <= |fields| && !out.Continue?
    requires Follows(VisitFields(fields[..n], g, "", None, decoded, max, accept).visit, h, out, p, h', x, g, skip,
        limit)
    ensures Follows(VisitFields(fields, g, "", None, decoded, max, accept).visit, h, out, p, h', x, g, skip, limit)
    ensures x.None? ==>
      VisitFields(fields, g, "", None, decoded, max, accept)
      == VisitFields(fields[..n], g, "", None, decoded, max, accept)
  {
    var gv := VisitFields(fields[..n], g, "", None, decoded, max, accept);
    VisitFieldsAppend(fields[..n], fields[n..], g, "", None, decoded, max, accept);
    assert fields == fields[..n] + fields[n..];
    var rest := VisitFields(fields[n..], g, gv.id, gv.pending, gv.visit.decoded, max, accept);
    FollowsFirst(gv.visit, rest.visit, h, out, p, h', x, g, skip, limit);
  }

  // ---------------------------------------------------------------- the list of groups

  function AppendGroup(groups: seq<FindGroup>, id: string, matches: seq<Entry>): seq<FindGroup> {
    if |matches| == 0 then groups else groups + [FindGroup(|matches|, id, matches)]
  }

  lemma {:induction false} OfGroupPrefix(u: seq<Hit>, tail: seq<Hit>, g: nat, k: nat)
    requires InGroup(tail, g) && k != g
    ensures OfGroup(u + tail, k) == OfGroup(u, k)
  {
    if tail == [] {
      assert u + tail == u;
    } else {
      var n := |tail| - 1;
      assert u + tail == (u + tail[..n]) + [tail[n]];
      OfGroupStep(u + tail[..n], tail[n], k);
      OfGroupPrefix(u, tail[..n], g, k);
    }
  }

  lemma {:induction false} OfGroupNone(u: seq<Hit>, g: nat)
    requires forall k :: 0 <= k < |u| ==> u[k].group != g
    ensures OfGroup(u, g) == []
  {
    if u != [] {
      OfGroupNone(u[..|u| - 1], g);
    }
  }

  lemma {:induction false} GroupsAgree(u: seq<Hit>, w: seq<Hit>, ids: seq<string>)
    requires forall k :: 0 <= k < |ids| ==> OfGroup(u, k) == OfGroup(w, k)
    ensures Groups(u, ids) == Groups(w, ids)
  {
    if ids != [] {
      GroupsAgree(u, w, ids[..|ids| - 1]);
    }
  }

  lemma GroupsPrefix(u: seq<Hit>, tail: seq<Hit>, ids: seq<string>, g: nat)
    requires InGroup(tail, g) && |ids| <= g
    ensures Groups(u + tail, ids) == Groups(u, ids)
  {
    forall k | 0 <= k < |ids| ensures OfGroup(u + tail, k) == OfGroup(u, k) {
      OfGroupPrefix(u, tail, g, k);
    }
    GroupsAgree(u + tail, u, ids);
  }

  /** The entries of the last group of a page are appended as a group of their own. */
  lemma GroupsAppend(u: seq<Hit>, tail: seq<Hit>, ids: seq<string>, id: string)
    requires InGroup(tail, |ids|)
    ensures Groups(u + tail, ids + [id]) == AppendGroup(Groups(u, ids), id, OfGroup(u + tail, |ids|))
  {
    GroupsPrefix(u, tail, ids, |ids|);
    assert (ids + [id])[..|ids|] == ids;
  }

  lemma TracksNextGroup(p: Progress, h: seq<Hit>, g: nat, skip: nat, limit: nat)
    requires Tracks(p, h, g, skip, limit)
    ensures Tracks(p.(pageEntries := p.pageEntries + |p.matches|, matches := []), h, g + 1, skip, limit)
  {
    OfGroupNone(Drop(h, skip), g + 1);
  }

  lemma TailIsInGroup(before: Progress, h: seq<Hit>, p: Progress, h': seq<Hit>, g: nat, skip: nat, limit: nat)
    requires Tracks(before, h, g, skip, limit) && before.matches == []
    requires Tracks(p, h', g, skip, limit) && h <= h' && p.pageEntries == before.pageEntries
    ensures var u, u' := Drop(h, skip), Drop(h', skip);
      |u| <= |u'| && u' == u + u'[|u|..] && InGroup(u'[|u|..], g)
  {
    var u, u' := Drop(h, skip), Drop(h', skip);
    assert h' == h + h'[|h|..];
    assert u <= u' && |u| == p.pageEntries;
    forall k | 0 <= k < |u'| - |u| ensures u'[|u|..][k].group == g {
      assert u'[|u|..][k] == u'[|u| + k];
    }
  }

  /** Closing group `g`: the earlier groups keep their entries, and its own are appended. */
  lemma CloseGroup(before: Progress, h: seq<Hit>, p: Progress, h': seq<Hit>, ids: seq<string>, id: string, skip: nat,
          limit: nat)
    requires Tracks(before, h, |ids|, skip, limit) && before.matches == []
    requires Tracks(p, h', |ids|, skip, limit) && h <= h' && p.pageEntries == before.pageEntries
    ensures Groups(Drop(h', skip), ids + [id]) == AppendGroup(Groups(Drop(h, skip), ids), id, p.matches)
    ensures Tracks(p.(pageEntries := p.pageEntries + |p.matches|, matches := []), h', |ids| + 1, skip, limit)
  {
    TailIsInGroup(before, h, p, h', |ids|, skip, limit);
    GroupsAppend(Drop(h, skip), Drop(h', skip)[|Drop(h, skip)|..], ids, id);
    TracksNextGroup(p, h', |ids|, skip, limit);
  }

  /** The first accepted hit that no longer fits on the page. */
  ghost function Boundary(v: Visit, skip: nat, limit: nat): Option<Hit> {
    var u := Drop(v.hits, skip);
    var n := PageLength(u, limit);
    if n < |u| then Some(u[n]) else None
  }

  lemma ConcludeAtBoundary(v: Visit, p: Progress, h': seq<Hit>, hit: Hit, g: nat, skip: nat, limit: nat)
    requires Follows(v, [], Stopped, p, h', Some(hit), g, skip, limit) && Tracks(p, h', g, skip, limit)
    ensures PageOf(v, skip, limit) ==
      Page(Drop(h', skip),
           Stats(p.decoded, p.accepted, p.pageEntries + |p.matches|, false, p.more, true, p.budgetExhausted))
    ensures Boundary(v, skip, limit) == Some(hit)
  {
    var rest := v.hits[|h'| + 1..];
    assert v.hits == h' + [hit] + rest;
    FullGroupOverflows(p, h', hit, g, skip, limit);
    StopsAtBoundary(h', hit, rest, v.decoded, v.stop, skip, limit);
    assert v == Visit(h' + [hit] + rest, v.decoded, v.stop);
  }

  lemma ConcludeAtEnd(v: Visit, out: Outcome, p: Progress, h': seq<Hit>, g: nat, skip: nat, limit: nat)
    requires Follows(v, [], out, p, h', None, g, skip, limit) && !out.Continue? && Tracks(p, h', g, skip, limit)
    ensures Boundary(v, skip, limit) == None
    ensures PageOf(v, skip, limit) == if out.Error? then NoPage else
      Page(Drop(h', skip),
           Stats(p.decoded, p.accepted, p.pageEntries + |p.matches|, false, p.more, true, p.budgetExhausted))
  {
    assert [] + v.hits == v.hits;
    StopsAtEnd(v, skip, limit);
  }

  /** The page of a document whose visit was followed to a stop. */
  lemma Conclude(v: Visit, out: Outcome, p: Progress, h': seq<Hit>, x: Option<Hit>, g: nat, skip: nat, limit: nat)
    requires Follows(v, [], out, p, h', x, g, skip, limit) && !out.Continue? && Tracks(p, h', g, skip, limit)
    ensures PageOf(v, skip, limit) == if out.Error? then NoPage else
      Page(Drop(h', skip),
           Stats(p.decoded, p.accepted, p.pageEntries + |p.matches|, false, p.more, true, p.budgetExhausted))
    ensures Boundary(v, skip, limit) == x
  {
    match x
    case None => ConcludeAtEnd(v, out, p, h', g, skip, limit);
    case Some(hit) => ConcludeAtBoundary(v, p, h', hit, g, skip, limit);
  }

  function FoundThen(done: Found, rest: Found): Found {
    if done.visit.stop.Running? then Found(Then(done.visit, rest.visit), done.ids + rest.ids) else done
  }

  /** Everything the scanner has worked off so far. */
  ghost function Done(h: seq<Hit>, decoded: nat, ids: seq<string>): Found {
    Found(Visit(h, decoded, Running), ids)
  }

  /** The closing brace of a group. */
  method ScanPending(id: string, pending: Option<Matches>, ghost g: nat, before: Progress, max: nat, limit: nat,
          accept: Accept,
                     ghost h: seq<Hit>, ghost skip: nat)
      returns (p: Progress, out: Outcome, ghost h': seq<Hit>, ghost x: Option<Hit>)
    requires Tracks(before, h, g, skip, limit) && before.accepted == |h| && !before.more && !before.budgetExhausted
    ensures Follows(VisitPending(id, pending, g, before.decoded, max, accept), h, out, p, h', x, g, skip, limit)
    ensures x.Some? ==> x.value.id == id
    ensures Tracks(p, h', g, skip, limit) && h <= h' && p.pageEntries == before.pageEntries
  {
    p, out, h', x := before, Continue, h, None;
    assert h + [] == h;
    if id == "" {
      out := Error;
      return;
    }
    match pending {
      case None =>
      case Some(NullMatches) =>
      case Some(NotArray) =>
        out := Error;
      case Some(Array(items)) =>
        p, out, h', x := ScanMatches(items, None, g, id, before, max, limit, accept, h, skip);
    }
  }

  /** A group that the tokens do not complete. */
  method ScanPartial(id: string, partial: Partial, fault: Fault, ghost g: nat, before: Progress, max: nat, limit: nat,
          accept: Accept,
                     ghost h: seq<Hit>, ghost skip: nat)
      returns (p: Progress, out: Outcome, ghost h': seq<Hit>, ghost x: Option<Hit>)
    requires Tracks(before, h, g, skip, limit) && before.accepted == |h| && !before.more && !before.budgetExhausted
    ensures Follows(VisitPartial(id, partial, fault, g, before.decoded, max, accept), h, out, p, h', x, g, skip, limit)
    ensures x.Some? ==> x.value.id == id
    ensures Tracks(p, h', g, skip, limit) && h <= h' && p.pageEntries == before.pageEntries
    ensures !out.Continue?
  {
    p, out, h', x := before, Error, h, None;
    assert h + [] == h;
    if partial.BareFault? || id == "" {
      if fault.ByteBudget? {
        p := p.(budgetExhausted := true, more := PageMayHaveMore(p.pageEntries + |p.matches|, limit));
        out := Stopped;
      }
    } else {
      p, out, h', x := ScanMatches(partial.items, Some(fault), g, id, before, max, limit, accept, h, skip);
    }
  }

  /** A whole group object, or with `tail` one that breaks off. */
  method ScanGroup(fields: seq<Field>, tail: Option<(Partial, Fault)>, ghost g: nat, before: Progress, max: nat,
          limit: nat, accept: Accept,
                   ghost h: seq<Hit>, ghost skip: nat)
      returns (p: Progress, out: Outcome, id: string, ghost h': seq<Hit>, ghost x: Option<Hit>)
    requires Tracks(before, h, g, skip, limit) && before.accepted == |h| && !before.more && !before.budgetExhausted
    ensures var gv := VisitGroup(fields, tail, g, before.decoded, max, accept);
      && Follows(gv.visit, h, out, p, h', x, g, skip, limit)
      && (x.None? ==> id == gv.id)
      && (x.Some? ==> x.value.id == id)
    ensures Tracks(p, h', g, skip, limit) && h <= h' && p.pageEntries == before.pageEntries
    ensures tail.Some? ==> !out.Continue?
  {
    var pending;
    p, out, id, pending, h', x := ScanFields(fields, g, before, max, limit, accept, h, skip);
    ghost var gv := VisitFields(fields, g, "", None, before.decoded, max, accept);
    ghost var end := VisitGroupEnd(gv, tail, g, max, accept);
    if out != Continue {
      FollowsFirst(gv.visit, end, h, out, p, h', x, g, skip, limit);
      return;
    }
    ghost var mid := h';
    if tail.None? {
      p, out, h', x := ScanPending(id, pending, g, p, max, limit, accept, h', skip);
    } else {
      p, out, h', x := ScanPartial(id, tail.value.0, tail.value.1, g, p, max, limit, accept, h', skip);
    }
    FollowsBoth(gv.visit, end, h, mid, out, p, h', x, g, skip, limit);
  }

  /** One pass over the document, keeping only the page. */
  method Scan(doc: Document, maxDecodedEntries: int, skipIn: int, limitIn: int, accept: Accept) returns (r: Result)
    ensures r == PageOfDocument(doc, ScanLS.DecodedLimit(maxDecodedEntries),
                                if skipIn < 0 then 0 else skipIn, if limitIn < 0 then 0 else limitIn, accept)
    ensures r.Scanned? ==> PageLists(r.groups, RawMatches(doc))
  {
    var max := ScanLS.DecodedLimit(maxDecodedEntries);
    var skip: nat := if skipIn < 0 then 0 else skipIn;
    var limit: nat := if limitIn < 0 then 0 else limitIn;
    if PageOfDocument(doc, max, skip, limit, accept).Scanned? {
      PageListsMatches(doc, max, skip, limit, accept);
    }
    match doc {
      case EmptyOutput =>
        assert Groups([], []) == [];
        return Scanned([], Stats(0, 0, 0, true, false, false, false));
      case NotList =>
        return ProtocolError;
      case NoList(Truncated) =>
        return ProtocolError;
      case NoList(ByteBudget) =>
        return Scanned([], Stats(0, 0, 0, false, PageMayHaveMore(0, limit), true, true));
      case List(elements, tail) =>
        r := ScanList(elements, tail, max, skip, limit, accept);
    }
  }

  /** Between two groups: all hits so far are on the page or skipped, and the groups are closed. */
  ghost predicate AtGroup(p: Progress, groups: seq<FindGroup>, h: seq<Hit>, ids: seq<string>, skip: nat, limit: nat) {
    && Tracks(p, h, |ids|, skip, limit) && p.matches == [] && p.accepted == |h|
    && !p.more && !p.budgetExhausted && groups == Groups(Drop(h, skip), ids)
  }

  function BudgetPage(groups: seq<FindGroup>, p: Progress, limit: nat): Result {
    Scanned(groups,
            Stats(p.decoded, p.accepted, p.pageEntries, false, PageMayHaveMore(p.pageEntries, limit), true, true))
  }

  /** What the scanner returns when it stops between two groups. */
  function PageBetween(groups: seq<FindGroup>, p: Progress, stop: Stop, limit: nat): Result {
    match stop
    case Ended => Scanned(groups, Stats(p.decoded, p.accepted, p.pageEntries, true, false, false, false))
    case OutOfBudget => BudgetPage(groups, p, limit)
    case _ => ProtocolError
  }

  /** The scan stops between two groups. */
  lemma StoppedBetween(f: Found, h: seq<Hit>, ids: seq<string>, p: Progress, groups: seq<FindGroup>, stop: Stop,
          skip: nat, limit: nat)
    requires f == FoundThen(Done(h, p.decoded, ids), Found(Visit([], p.decoded, stop), []))
    requires AtGroup(p, groups, h, ids, skip, limit)
    ensures PageOfFound(f, skip, limit) == PageBetween(groups, p, stop, limit)
  {
    assert h + [] == h && ids + [] == ids;
    StopsAtEnd(f.visit, skip, limit);
  }

  /** What the scanner returns when it stops within a group. */
  function StoppedPage(out: Outcome, groups: seq<FindGroup>, p: Progress): Result {
    if out.Stopped? then
      Scanned(groups, Stats(p.decoded, p.accepted, p.pageEntries + |p.matches|, false, p.more, true, p.budgetExhausted))
    else
      ProtocolError
  }

  /** The ids of a document that stopped in group number `|ids|`, the group's id being `id` there. */
  ghost predicate EndsInGroup(all: seq<string>, ids: seq<string>, id: string, x: Option<Hit>) {
    match x
    case None => all == ids + [id]
    case Some(hit) => hit.group == |ids| && hit.id == id && ids <= all
  }

  /** A stop inside a group is a stop of the whole document. */
  lemma GroupStopsDocument(f: Found, h: seq<Hit>, ids: seq<string>, decoded: nat, w: Found, out: Outcome, p: Progress,
          h': seq<Hit>, x: Option<Hit>, skip: nat, limit: nat)
    requires f == FoundThen(Done(h, decoded, ids), w)
    requires Follows(w.visit, h, out, p, h', x, |ids|, skip, limit)
    ensures Follows(f.visit, [], out, p, h', x, |ids|, skip, limit)
  {
    assert [] + h == h;
    FollowsBoth(Visit(h, decoded, Running), w.visit, [], h, out, p, h', x, |ids|, skip, limit);
  }

  lemma StoppedGroupIDs(f: Found, done: Found, gv: GroupVisit, rest: Found, id: string, x: Option<Hit>)
    requires done.visit.stop.Running? && f == FoundThen(done, FoundThen(Found(gv.visit, [gv.id]), rest))
    requires match x case None => id == gv.id && !gv.visit.stop.Running?
                     case Some(hit) => hit.group == |done.ids| && hit.id == id
    ensures EndsInGroup(f.ids, done.ids, id, x)
  {
  }

  lemma IDsOfStoppedPage(f: Found, ids: seq<string>, id: string, x: Option<Hit>, skip: nat, limit: nat)
    requires EndsInGroup(f.ids, ids, id, x) && Boundary(f.visit, skip, limit) == x
    ensures PageIDs(f, skip, limit) == ids + [id]
  {
  }

  /** The page of a document whose scan stopped inside group number `|ids|`. */
  lemma StoppedDocument(f: Found, ids: seq<string>, id: string, groups: seq<FindGroup>, out: Outcome, p: Progress,
          h': seq<Hit>, x: Option<Hit>, skip: nat, limit: nat)
    requires Follows(f.visit, [], out, p, h', x, |ids|, skip, limit) && !out.Continue?
    requires Tracks(p, h', |ids|, skip, limit)
    requires out.Stopped? ==> EndsInGroup(f.ids, ids, id, x)
    requires groups == Groups(Drop(h', skip), ids + [id])
    ensures PageOfFound(f, skip, limit) == StoppedPage(out, groups, p)
  {
    Conclude(f.visit, out, p, h', x, |ids|, skip, limit);
    if out.Stopped? {
      IDsOfStoppedPage(f, ids, id, x, skip, limit);
    }
  }

  function DecodedAfter(element: Element, g: nat, decoded: nat, max: nat, accept: Accept): nat {
    if element.BadElement? then decoded else VisitGroup(element.fields, None, g, decoded + 1, max, accept).visit.decoded
  }

  /** What one element does, `rest` being what its successors would do. */
  function VisitElement(element: Element, g: nat, decoded: nat, max: nat, accept: Accept, rest: Found): Found {
    if decoded >= max then Found(Visit([], decoded, OutOfBudget), [])
    else match element
      case BadElement => Found(Visit([], decoded, Failed), [])
      case Object(fields) =>
        var gv := VisitGroup(fields, None, g, decoded + 1, max, accept);
        FoundThen(Found(gv.visit, [gv.id]), rest)
  }

  /** What element `i` and its successors do. */
  lemma VisitElementsStep(elements: seq<Element>, i: nat, tail: Tail, decoded: nat, max: nat, accept: Accept)
    requires i <= |elements|
    ensures i == |elements| ==>
      VisitElements(elements[i..], tail, i, decoded, max, accept) == VisitTail(tail, i, decoded, max, accept)
    ensures i < |elements| ==>
      VisitElements(elements[i..], tail, i, decoded, max, accept)
      == VisitElement(elements[i], i, decoded, max, accept,
           VisitElements(elements[i + 1..], tail, i + 1, DecodedAfter(elements[i], i, decoded, max, accept), max,
               accept))
  {
    if i < |elements| {
      assert elements[i..][0] == elements[i] && elements[i..][1..] == elements[i + 1..];
    }
  }

  lemma FoundThenAssociates(a: Found, b: Found, c: Found)
    ensures FoundThen(FoundThen(a, b), c) == FoundThen(a, FoundThen(b, c))
  {
    ThenAssociates(a.visit, b.visit, c.visit);
    assert a.ids + b.ids + c.ids == a.ids + (b.ids + c.ids);
  }

  /** One group object: either the scan ends here, or the group is closed and the next one follows. */
  method ScanObject(fields: seq<Field>, tail: Option<(Partial, Fault)>, groupsIn: seq<FindGroup>, before: Progress,
                    max: nat, skip: nat, limit: nat, accept: Accept,
                    ghost f: Found, ghost h: seq<Hit>, ghost ids: seq<string>, ghost rest: Found)
      returns (r: Option<Result>, groups: seq<FindGroup>, p: Progress, ghost h': seq<Hit>, ghost ids': seq<string>)
    requires AtGroup(before, groupsIn, h, ids, skip, limit)
    requires var gv := VisitGroup(fields, tail, |ids|, before.decoded + 1, max, accept);
      f == FoundThen(Done(h, before.decoded, ids), FoundThen(Found(gv.visit, [gv.id]), rest))
    ensures r.Some? ==> r.value == PageOfFound(f, skip, limit)
    ensures r.None? ==>
      && AtGroup(p, groups, h', ids', skip, limit) && |ids'| == |ids| + 1
      && p.decoded == VisitGroup(fields, tail, |ids|, before.decoded + 1, max, accept).visit.decoded
      && f == FoundThen(Done(h', p.decoded, ids'), rest)
    ensures tail.Some? ==> r.Some?
  {
    var out, id;
    ghost var x;
    ghost var gv := VisitGroup(fields, tail, |ids|, before.decoded + 1, max, accept);
    ids' := ids;
    p, out, id, h', x := ScanGroup(fields, tail, |ids|, before.(decoded := before.decoded + 1), max, limit, accept,
        h, skip);
    groups := AppendGroup(groupsIn, id, p.matches);
    CloseGroup(before, h, p, h', ids, id, skip, limit);
    if out != Continue {
      FollowsFirst(gv.visit, rest.visit, h, out, p, h', x, |ids|, skip, limit);
      GroupStopsDocument(f, h, ids, before.decoded, FoundThen(Found(gv.visit, [gv.id]), rest), out, p, h', x, skip,
          limit);
      if out == Stopped {
        StoppedGroupIDs(f, Done(h, before.decoded, ids), gv, rest, id, x);
      }
      StoppedDocument(f, ids, id, groups, out, p, h', x, skip, limit);
      r := Some(StoppedPage(out, groups, p));
      return;
    }
    r := None;
    FoundThenAssociates(Done(h, before.decoded, ids), Found(gv.visit, [gv.id]), rest);
    p := p.(pageEntries := p.pageEntries + |p.matches|, matches := []);
    ids' := ids + [id];
  }

  /** One element of the list. */
  method ScanElement(element: Element, groupsIn: seq<FindGroup>, before: Progress, max: nat, skip: nat, limit: nat,
          accept: Accept,
                     ghost f: Found, ghost h: seq<Hit>, ghost ids: seq<string>, ghost rest: Found)
      returns (r: Option<Result>, groups: seq<FindGroup>, p: Progress, ghost h': seq<Hit>, ghost ids': seq<string>)
    requires AtGroup(before, groupsIn, h, ids, skip, limit)
    requires f == FoundThen(Done(h, before.decoded, ids), VisitElement(element, |ids|, before.decoded, max, accept,
        rest))
    ensures r.Some? ==> r.value == PageOfFound(f, skip, limit)
    ensures r.None? ==>
      && AtGroup(p, groups, h', ids', skip, limit) && |ids'| == |ids| + 1
      && p.decoded == DecodedAfter(element, |ids|, before.decoded, max, accept)
      && f == FoundThen(Done(h', p.decoded, ids'), rest)
  {
    groups, p, h', ids' := groupsIn, before, h, ids;
    if p.decoded >= max {
      StoppedBetween(f, h, ids, p, groups, OutOfBudget, skip, limit);
      r := Some(BudgetPage(groups, p, limit));
      return;
    }
    match element {
      case BadElement =>
        StoppedBetween(f, h, ids, p, groups, Failed, skip, limit);
        r := Some(ProtocolError);
      case Object(fields) =>
        r, groups, p, h', ids' := ScanObject(fields, None, groups, p, max, skip, limit, accept, f, h, ids, rest);
    }
  }

  /** Nothing follows a group that breaks off. */
  lemma BrokenTail(fields: seq<Field>, partial: Partial, fault: Fault, g: nat, decoded: nat, max: nat, accept: Accept)
    ensures var gv := VisitGroup(fields, Some((partial, fault)), g, decoded + 1, max, accept);
      VisitTail(Within(fields, partial, fault), g, decoded, max, accept) == BrokenGroup(gv, decoded, max)
  {
    var gv := VisitGroup(fields, Some((partial, fault)), g, decoded + 1, max, accept);
    assert gv.visit.hits + [] == gv.visit.hits && [gv.id] + [] == [gv.id];
  }

  function NothingMore(v: Visit): Found {
    Found(Visit([], v.decoded, v.stop), [])
  }

  function BrokenGroup(gv: GroupVisit, decoded: nat, max: nat): Found {
    if decoded >= max then Found(Visit([], decoded, OutOfBudget), [])
    else FoundThen(Found(gv.visit, [gv.id]), NothingMore(gv.visit))
  }

  /** A last group that breaks off. */
  method ScanBroken(fields: seq<Field>, partial: Partial, fault: Fault, groups: seq<FindGroup>, p: Progress,
                    max: nat, skip: nat, limit: nat, accept: Accept, ghost f: Found, ghost h: seq<Hit>,
                    ghost ids: seq<string>)
      returns (r: Result)
    requires AtGroup(p, groups, h, ids, skip, limit)
    requires var gv := VisitGroup(fields, Some((partial, fault)), |ids|, p.decoded + 1, max, accept);
      f == FoundThen(Done(h, p.decoded, ids), BrokenGroup(gv, p.decoded, max))
    ensures r == PageOfFound(f, skip, limit)
  {
    if p.decoded >= max {
      StoppedBetween(f, h, ids, p, groups, OutOfBudget, skip, limit);
      return BudgetPage(groups, p, limit);
    }
    ghost var none := NothingMore(VisitGroup(fields, Some((partial, fault)), |ids|, p.decoded + 1, max, accept).visit);
    var stopped, _, _, _, _ := ScanObject(fields, Some((partial, fault)), groups, p, max, skip, limit, accept, f, h,
        ids, none);
    r := stopped.value;
  }

  /** What follows the last complete group. */
  method ScanTail(tail: Tail, groups: seq<FindGroup>, p: Progress, max: nat, skip: nat, limit: nat, accept: Accept,
                  ghost f: Found, ghost h: seq<Hit>, ghost ids: seq<string>)
      returns (r: Result)
    requires AtGroup(p, groups, h, ids, skip, limit)
    requires f == FoundThen(Done(h, p.decoded, ids), VisitTail(tail, |ids|, p.decoded, max, accept))
    ensures r == PageOfFound(f, skip, limit)
  {
    match tail {
      case Closed =>
        StoppedBetween(f, h, ids, p, groups, Ended, skip, limit);
        return Scanned(groups, Stats(p.decoded, p.accepted, p.pageEntries, true, false, false, false));
      case TrailingData =>
        StoppedBetween(f, h, ids, p, groups, Failed, skip, limit);
        return ProtocolError;
      case CutAfterList =>
        StoppedBetween(f, h, ids, p, groups, Failed, skip, limit);
        return ProtocolError;
      case Between(fault) =>
        StoppedBetween(f, h, ids, p, groups, StopFor(fault), skip, limit);
        return if fault.Truncated? then ProtocolError else BudgetPage(groups, p, limit);
      case Within(fields, partial, fault) =>
        BrokenTail(fields, partial, fault, |ids|, p.decoded, max, accept);
        r := ScanBroken(fields, partial, fault, groups, p, max, skip, limit, accept, f, h, ids);
    }
  }

  /** The list of groups. */
  method ScanList(elements: seq<Element>, tail: Tail, max: nat, skip: nat, limit: nat,
          accept: Accept) returns (r: Result)
    ensures r == PageOfDocument(List(elements, tail), max, skip, limit, accept)
  {
    ghost var f := VisitDocument(List(elements, tail), max, accept);
    var groups: seq<FindGroup> := [];
    var p := Progress(0, 0, 0, false, false, skip, []);
    ghost var h: seq<Hit> := [];
    ghost var ids: seq<string> := [];
    assert [] + f.visit.hits == f.visit.hits && [] + f.ids == f.ids && elements[0..] == elements;
    for i := 0 to |elements|
      invariant AtGroup(p, groups, h, ids, skip, limit) && |ids| == i
      invariant f == FoundThen(Done(h, p.decoded, ids), VisitElements(elements[i..], tail, i, p.decoded, max, accept))
    {
      VisitElementsStep(elements, i, tail, p.decoded, max, accept);
      ghost var rest := VisitElements(elements[i + 1..], tail, i + 1,
          DecodedAfter(elements[i], i, p.decoded, max, accept), max, accept);
      var stopped;
      stopped, groups, p, h, ids := ScanElement(elements[i], groups, p, max, skip, limit, accept, f, h, ids, rest);
      if stopped.Some? {
        return stopped.value;
      }
    }
    VisitElementsStep(elements, |elements|, tail, p.decoded, max, accept);
    r := ScanTail(tail, groups, p, max, skip, limit, accept, f, h, ids);
  }
}
