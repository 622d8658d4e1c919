/** The incremental scan of `restic ls` output, one JSON record a line. */
module ScanLS {
  import opened Basics
  import opened Paths
  import opened Paging

  const DEFAULT_DECODED_ENTRIES := 50000

  function DecodedLimit(maxDecodedEntries: int): nat {
    if maxDecodedEntries <= 0 then DEFAULT_DECODED_ENTRIES else maxDecodedEntries
  }

  /** One line as the decoder sees it. A `Message` is any record that is not a node. */
  datatype Line = Blank | Malformed | Message | Node(path: string, name: string, kind: string, size: nat)

  datatype End = Eof | ByteBudget | ReadError

  /** The lines the line reader delivers and the reason it delivers no more. When the byte budget cuts a
      line in two, what is left of it is delivered as a last line and `cutLine` is set. */
  datatype Stream = Stream(lines: seq<Line>, cutLine: bool, end: End)

  predicate BudgetCrossed(s: Stream, i: nat) {
    s.end == ByteBudget && s.cutLine && i + 1 == |s.lines|
  }

  function StopAtEnd(end: End): Stop {
    match end
    case Eof => Ended
    case ByteBudget => OutOfBudget
    case ReadError => Failed
  }

  function EntryOf(line: Line): Option<Entry>
    requires line.Node?
  {
    if line.path == "" then None
    else match CleanPath(line.path)
      case None => None
      case Some(cleaned) => Some(Entry(cleaned, line.name, line.kind, line.size))
  }

  /** Everything the policy accepts from line `i` on. */
  function VisitFrom(s: Stream, max: nat, accept: Entry -> bool, i: nat, decoded: nat): (v: Visit)
    requires i <= |s.lines|
    ensures !v.stop.Running?
    decreases |s.lines| - i
  {
    if i == |s.lines| then Visit([], decoded, StopAtEnd(s.end))
    else match s.lines[i]
      case Blank => VisitFrom(s, max, accept, i + 1, decoded)
      case Malformed =>
        if decoded >= max || BudgetCrossed(s, i) then Visit([], decoded, OutOfBudget)
        else Visit([], decoded, Failed)
      case Message =>
        if decoded >= max then Visit([], decoded, OutOfBudget)
        else VisitFrom(s, max, accept, i + 1, decoded)
      case Node(_, _, _, _) =>
        if decoded >= max then Visit([], decoded, OutOfBudget)
        else
          var entry := EntryOf(s.lines[i]);
          if entry.None? then Visit([], decoded, Failed)
          else
            var rest := VisitFrom(s, max, accept, i + 1, decoded + 1);
            if accept(entry.value) then rest.(hits := [Hit(0, "", entry.value, decoded + 1)] + rest.hits) else rest
  }

  function VisitStream(s: Stream, max: nat, accept: Entry -> bool): Visit {
    VisitFrom(s, max, accept, 0, 0)
  }

  datatype Result = ProtocolError | Scanned(nodes: seq<Entry>, stats: Stats)

  function PageOfVisit(v: Visit, skip: nat, limit: nat): Result {
    match PageOf(v, skip, limit)
    case NoPage => ProtocolError
    case Page(hits, stats) => Scanned(Entries(hits), stats)
  }

  /** The page of a stream: a slice of everything it would accept. */
  function PageOfStream(s: Stream, max: nat, skip: nat, limit: nat, accept: Entry -> bool): Result {
    PageOfVisit(VisitStream(s, max, accept), skip, limit)
  }

  /** What line `i` does: it is passed over, it ends the visit, or it is a record. */
  datatype Verdict = Skip | Halt(stop: Stop) | Record(entry: Entry)

  function Judge(s: Stream, i: nat, decoded: nat, max: nat): Verdict
    requires i < |s.lines|
  {
    var line := s.lines[i];
    if line.Blank? then Skip
    else if decoded >= max then Halt(OutOfBudget)
    else if line.Malformed? then Halt(if BudgetCrossed(s, i) then OutOfBudget else Failed)
    else if line.Message? then Skip
    else match EntryOf(line)
      case None => Halt(Failed)
      case Some(entry) => Record(entry)
  }

  lemma VisitStep(s: Stream, max: nat, accept: Entry -> bool, i: nat, decoded: nat)
    requires i < |s.lines|
    ensures var v := VisitFrom(s, max, accept, i, decoded);
      match Judge(s, i, decoded, max)
      case Skip => v == VisitFrom(s, max, accept, i + 1, decoded)
      case Halt(stop) => v == Visit([], decoded, stop)
      case Record(entry) =>
        var rest := VisitFrom(s, max, accept, i + 1, decoded + 1);
        v == if accept(entry) then rest.(hits := [Hit(0, "", entry, decoded + 1)] + rest.hits) else rest
  {
  }

  /** One accepted entry: it is skipped, put on the page, or shows that the page is full. */
  method KeepEntry(entry: Entry, acceptedIn: nat, remainingIn: nat, nodesIn: seq<Entry>, pageIn: nat, ghost skip: nat,
          limit: nat,
                   ghost h: seq<Hit>, ghost x: Hit, ghost rest: Visit)
      returns (full: bool, accepted: nat, remainingSkip: nat, nodes: seq<Entry>, pageEntries: nat, ghost h': seq<Hit>)
    requires Kept(h, acceptedIn, remainingIn, nodesIn, pageIn, skip, limit) && x.group == 0 && x.entry == entry
    ensures var all := Resume(h, rest.(hits := [x] + rest.hits));
      && (full ==>
            PageOfVisit(all, skip, limit)
            == Scanned(nodes, Stats(x.at, accepted, pageEntries, false, true, true, false)))
      && (!full ==> all == Resume(h', rest) && Kept(h', accepted, remainingSkip, nodes, pageEntries, skip, limit))
  {
    ResumeStep(h, x, rest);
    KeepStep(h, x, acceptedIn, remainingIn, nodesIn, pageIn, skip, limit);
    full, accepted, remainingSkip, nodes, pageEntries := false, acceptedIn + 1, remainingIn, nodesIn, pageIn;
    h' := h + [x];
    if remainingSkip > 0 {
      remainingSkip := remainingSkip - 1;
      return;
    }
    if |nodes| < limit {
      nodes := nodes + [entry];
      pageEntries := |nodes|;
      return;
    }
    PageWithBoundary(h, x, rest, skip, limit);
    full := true;
  }

  /** One pass over the stream, keeping only the page and a few counters. */
  method Scan(s: Stream, maxDecodedEntries: int, skipIn: int, limitIn: int, accept: Entry -> bool)
      returns (r: Result)
    ensures r == PageOfStream(s, DecodedLimit(maxDecodedEntries),
                              if skipIn < 0 then 0 else skipIn, if limitIn < 0 then 0 else limitIn, accept)
    ensures Honest(s, if maxDecodedEntries <= 0 then 50000 else maxDecodedEntries,
                   if skipIn < 0 then 0 else skipIn, if limitIn < 0 then 0 else limitIn, accept, r)
  {
    var max := DecodedLimit(maxDecodedEntries);
    var skip: nat := if skipIn < 0 then 0 else skipIn;
    var limit: nat := if limitIn < 0 then 0 else limitIn;
    ReportsAreHonest(s, max, skip, limit, accept);
    r := ScanLines(s, max, skip, limit, accept);
  }

  /** The loop over the lines. */
  method ScanLines(s: Stream, max: nat, skip: nat, limit: nat, accept: Entry -> bool) returns (r: Result)
    ensures r == PageOfStream(s, max, skip, limit, accept)
  {
    var nodes: seq<Entry> := [];
    var decoded: nat, accepted: nat, pageEntries: nat, remainingSkip: nat := 0, 0, 0, skip;
    ghost var h: seq<Hit> := [];
    for i := 0 to |s.lines|
      invariant VisitStream(s, max, accept) == Resume(h, VisitFrom(s, max, accept, i, decoded))
      invariant Kept(h, accepted, remainingSkip, nodes, pageEntries, skip, limit)
    {
      VisitStep(s, max, accept, i, decoded);
      var line := s.lines[i];
      if line.Blank? {
        continue;
      }
      if decoded >= max {
        PageWithoutBoundary(h, decoded, OutOfBudget, skip, limit);
        return BudgetPage(nodes, decoded, accepted, pageEntries, limit);
      }
      if line.Malformed? {
        PageWithoutBoundary(h, decoded, if BudgetCrossed(s, i) then OutOfBudget else Failed, skip, limit);
        return if BudgetCrossed(s, i) then BudgetPage(nodes, decoded, accepted, pageEntries, limit) else ProtocolError;
      }
      if line.Message? {
        continue;
      }
      var entry := EntryOf(line);
      if entry.None? {
        PageWithoutBoundary(h, decoded, Failed, skip, limit);
        return ProtocolError;
      }
      decoded := decoded + 1;
      if !accept(entry.value) {
        continue;
      }
      ghost var x := Hit(0, "", entry.value, decoded);
      ghost var rest := VisitFrom(s, max, accept, i + 1, decoded);
      var full;
      full, accepted, remainingSkip, nodes, pageEntries, h :=
        KeepEntry(entry.value, accepted, remainingSkip, nodes, pageEntries, skip, limit, h, x, rest);
      if full {
        return Scanned(nodes, Stats(decoded, accepted, pageEntries, false, true, true, false));
      }
    }
    PageWithoutBoundary(h, decoded, StopAtEnd(s.end), skip, limit);
    match s.end {
      case Eof =>
        return Scanned(nodes, Stats(decoded, accepted, pageEntries, true, false, false, false));
      case ByteBudget =>
        return BudgetPage(nodes, decoded, accepted, pageEntries, limit);
      case ReadError =>
        return ProtocolError;
    }
  }

  function BudgetPage(nodes: seq<Entry>, decoded: nat, accepted: nat, pageEntries: nat, limit: nat): Result {
    Scanned(nodes, Stats(decoded, accepted, pageEntries, false, PageMayHaveMore(pageEntries, limit), true, true))
  }

  /** `rest` after `h` has been accepted. */
  ghost function Resume(h: seq<Hit>, rest: Visit): Visit {
    Visit(h + rest.hits, rest.decoded, rest.stop)
  }

  lemma ResumeStep(h: seq<Hit>, x: Hit, rest: Visit)
    ensures Resume(h, rest.(hits := [x] + rest.hits)) == Resume(h + [x], rest)
  {
    assert h + ([x] + rest.hits) == h + [x] + rest.hits;
  }

  /** What the scanner holds after accepting exactly `h`. */
  ghost predicate Kept(h: seq<Hit>, accepted: nat, remainingSkip: nat, nodes: seq<Entry>, pageEntries: nat, skip: nat,
          limit: nat) {
    && accepted == |h| && remainingSkip == (if |h| <= skip then skip - |h| else 0)
    && nodes == Entries(Drop(h, skip)) && pageEntries == |nodes| <= limit
    && InGroup(h, 0)
  }

  lemma KeepStep(h: seq<Hit>, x: Hit, accepted: nat, remainingSkip: nat, nodes: seq<Entry>, pageEntries: nat,
          skip: nat, limit: nat)
    requires Kept(h, accepted, remainingSkip, nodes, pageEntries, skip, limit) && x.group == 0
    ensures remainingSkip > 0 ==> Kept(h + [x], accepted + 1, remainingSkip - 1, nodes, pageEntries, skip, limit)
    ensures remainingSkip == 0 && |nodes| < limit ==>
      Kept(h + [x], accepted + 1, 0, nodes + [x.entry], |nodes| + 1, skip, limit)
  {
  }

  lemma PageWithoutBoundary(h: seq<Hit>, decoded: nat, stop: Stop, skip: nat, limit: nat)
    requires |Drop(h, skip)| <= limit && !stop.Running?
    ensures var nodes := Entries(Drop(h, skip));
      PageOfVisit(Resume(h, Visit([], decoded, stop)), skip, limit) ==
      match stop
      case Ended => Scanned(nodes, Stats(decoded, |h|, |nodes|, true, false, false, false))
      case OutOfBudget => BudgetPage(nodes, decoded, |h|, |nodes|, limit)
      case _ => ProtocolError
  {
    var v := Visit(h, decoded, stop);
    assert h + [] == h;
    assert Fits(h, skip, limit);
    StopsAtEnd(v, skip, limit);
  }

  lemma PageWithBoundary(h: seq<Hit>, x: Hit, rest: Visit, skip: nat, limit: nat)
    requires |Drop(h, skip)| == limit && skip <= |h|
    requires x.group == 0 && InGroup(h, 0)
    ensures PageOfVisit(Resume(h + [x], rest), skip, limit)
         == Scanned(Entries(Drop(h, skip)), Stats(x.at, |h| + 1, limit, false, true, true, false))
  {
    assert Fits(h, skip, limit);
    StopsAtBoundary(h, x, rest.hits, rest.decoded, rest.stop, skip, limit);
  }

  // ---------------------------------------------------------------- what the page means

  /** Every well-formed node of a line sequence, in order. */
  function Nodes(lines: seq<Line>): seq<Entry> {
    if lines == [] then []
    else (if lines[0].Node? && EntryOf(lines[0]).Some? then [EntryOf(lines[0]).value] else []) + Nodes(lines[1..])
  }

  /** How line `i` contributes to the nodes and to the visit. */
  predicate Decodes(line: Line) {
    line.Node? && EntryOf(line).Some?
  }

  lemma NodesStep(s: Stream, i: nat)
    requires i < |s.lines|
    ensures Nodes(s.lines[i..])
         == (if Decodes(s.lines[i]) then [EntryOf(s.lines[i]).value] else []) + Nodes(s.lines[i + 1..])
  {
    assert s.lines[i..][0] == s.lines[i] && s.lines[i..][1..] == s.lines[i + 1..];
  }

  lemma JudgeDecodes(s: Stream, i: nat, decoded: nat, max: nat)
    requires i < |s.lines|
    ensures match Judge(s, i, decoded, max)
      case Skip => !Decodes(s.lines[i])
      case Halt(stop) => stop != Ended
      case Record(entry) => decoded < max && Decodes(s.lines[i]) && entry == EntryOf(s.lines[i]).value
  {
  }

  /** The records counted as decoded are nodes of the stream, all of them when nothing disturbs it. */
  lemma {:induction false} VisitCounts(s: Stream, max: nat, accept: Entry -> bool, i: nat, decoded: nat)
    requires i <= |s.lines| && decoded <= max
    ensures var v := VisitFrom(s, max, accept, i, decoded);
      && decoded <= v.decoded <= max && v.decoded - decoded <= |Nodes(s.lines[i..])|
      && (v.stop == Ended ==> v.decoded - decoded == |Nodes(s.lines[i..])|)
    decreases |s.lines| - i
  {
    if i < |s.lines| {
      NodesStep(s, i);
      JudgeDecodes(s, i, decoded, max);
      VisitStep(s, max, accept, i, decoded);
      match Judge(s, i, decoded, max)
      case Skip => VisitCounts(s, max, accept, i + 1, decoded);
      case Halt(_) =>
      case Record(_) => VisitCounts(s, max, accept, i + 1, decoded + 1);
    }
  }

  lemma {:induction false} VisitHits(s: Stream, max: nat, accept: Entry -> bool, i: nat, decoded: nat)
    requires i <= |s.lines| && decoded <= max
    ensures var v := VisitFrom(s, max, accept, i, decoded);
      && InGroup(v.hits, 0)
      && (forall k :: 0 <= k < |v.hits| ==> v.hits[k].at <= max)
    decreases |s.lines| - i
  {
    if i < |s.lines| {
      VisitHits(s, max, accept, i + 1, decoded);
      if decoded < max {
        VisitHits(s, max, accept, i + 1, decoded + 1);
      }
    }
  }

  /** From line `i` on, exactly the accepted ones among the records decoded are accepted. */
  ghost predicate Filters(s: Stream, max: nat, accept: Entry -> bool, i: nat, decoded: nat)
    requires i <= |s.lines|
  {
    var v, nodes := VisitFrom(s, max, accept, i, decoded), Nodes(s.lines[i..]);
    decoded <= v.decoded && v.decoded - decoded <= |nodes|
    && Entries(v.hits) == Filter(nodes[..v.decoded - decoded], accept)
  }

  lemma SkipFilters(s: Stream, max: nat, accept: Entry -> bool, i: nat, decoded: nat)
    requires i < |s.lines| && Judge(s, i, decoded, max).Skip? && Filters(s, max, accept, i + 1, decoded)
    ensures Filters(s, max, accept, i, decoded)
  {
    NodesStep(s, i);
    JudgeDecodes(s, i, decoded, max);
    VisitStep(s, max, accept, i, decoded);
    assert Nodes(s.lines[i..]) == Nodes(s.lines[i + 1..]);
  }

  lemma HaltFilters(s: Stream, max: nat, accept: Entry -> bool, i: nat, decoded: nat)
    requires i < |s.lines| && Judge(s, i, decoded, max).Halt?
    ensures Filters(s, max, accept, i, decoded)
  {
    VisitStep(s, max, accept, i, decoded);
    assert Nodes(s.lines[i..])[..0] == [];
  }

  lemma RecordFilters(s: Stream, max: nat, accept: Entry -> bool, i: nat, decoded: nat)
    requires i < |s.lines| && Judge(s, i, decoded, max).Record? && Filters(s, max, accept, i + 1, decoded + 1)
    ensures Filters(s, max, accept, i, decoded)
  {
    NodesStep(s, i);
    JudgeDecodes(s, i, decoded, max);
    VisitStep(s, max, accept, i, decoded);
    var v, rest := VisitFrom(s, max, accept, i, decoded), VisitFrom(s, max, accept, i + 1, decoded + 1);
    FilterOneMore(EntryOf(s.lines[i]).value, Nodes(s.lines[i + 1..]), rest.decoded - decoded - 1, v.hits, rest.hits,
        decoded + 1, accept);
  }

  lemma FilterOneMore(e: Entry, tail: seq<Entry>, n: nat, hits: seq<Hit>, rest: seq<Hit>, at: nat,
          accept: Entry -> bool)
    requires n <= |tail| && Entries(rest) == Filter(tail[..n], accept)
    requires hits == if accept(e) then [Hit(0, "", e, at)] + rest else rest
    ensures Entries(hits) == Filter(([e] + tail)[..n + 1], accept)
  {
    FilterFront(e, tail, n, accept);
    EntriesAppend(hits, rest);
  }

  /** The accepted entries are the accepted ones among the records decoded, no fewer and no more. */
  lemma {:induction false} VisitFiltersNodes(s: Stream, max: nat, accept: Entry -> bool, i: nat, decoded: nat)
    requires i <= |s.lines|
    ensures Filters(s, max, accept, i, decoded)
    decreases |s.lines| - i
  {
    if i < |s.lines| {
      match Judge(s, i, decoded, max)
      case Skip =>
        VisitFiltersNodes(s, max, accept, i + 1, decoded);
        SkipFilters(s, max, accept, i, decoded);
      case Halt(_) => HaltFilters(s, max, accept, i, decoded);
      case Record(_) =>
        VisitFiltersNodes(s, max, accept, i + 1, decoded + 1);
        RecordFilters(s, max, accept, i, decoded);
    }
  }

  lemma FilterFront(e: Entry, tail: seq<Entry>, n: nat, keep: Entry -> bool)
    requires n <= |tail|
    ensures Filter(([e] + tail)[..n + 1], keep) == (if keep(e) then [e] else []) + Filter(tail[..n], keep)
  {
    assert ([e] + tail)[..n + 1] == [e] + tail[..n];
    assert ([e] + tail[..n])[1..] == tail[..n];
  }

  lemma EntriesAppend(all: seq<Hit>, rest: seq<Hit>)
    requires |rest| <= |all| <= |rest| + 1 && all[|all| - |rest|..] == rest
    ensures Entries(all) == (if |all| == |rest| then [] else [all[0].entry]) + Entries(rest)
  {
  }

  /** The scan refines filter, skip and take. On the records it decoded this always holds; when no
      budget stopped it, it holds on the whole stream, more is reported exactly when accepted entries
      are left over, and a complete scan has counted every accepted entry. */
  lemma ScanRefinesFilterSkipTake(s: Stream, max: nat, skip: nat, limit: nat, accept: Entry -> bool)
    requires PageOfStream(s, max, skip, limit, accept).Scanned?
    ensures var r := PageOfStream(s, max, skip, limit, accept);
      var v := VisitStream(s, max, accept);
      var visible := Filter(Nodes(s.lines), accept);
      && v.decoded <= |Nodes(s.lines)|
      && r.stats.decoded <= max
      && r.nodes == Take(Drop(Filter(Nodes(s.lines)[..v.decoded], accept), skip), limit)
      && (!r.stats.budgetExhausted ==> r.nodes == Take(Drop(visible, skip), limit))
      && (!r.stats.budgetExhausted ==> (r.stats.more <==> |visible| > skip + limit))
      && (r.stats.complete ==> r.stats.accepted == |visible|)
  {
    var v := VisitStream(s, max, accept);
    var visible := Filter(Nodes(s.lines), accept);
    WholeVisit(s, max, accept);
    FilterPrefix(Nodes(s.lines), v.decoded, accept);
    OneGroupPage(v, skip, limit);
    PageCountsDecoded(v, skip, limit, max);
    SliceOfEntries(v.hits, skip, limit);
    assert |v.hits| > skip + limit ==> Take(Drop(Entries(v.hits), skip), limit) == Take(Drop(visible, skip), limit);
  }

  lemma SliceOfEntries(hits: seq<Hit>, skip: nat, limit: nat)
    ensures Entries(Take(Drop(hits, skip), limit)) == Take(Drop(Entries(hits), skip), limit)
  {
  }

  lemma WholeVisit(s: Stream, max: nat, accept: Entry -> bool)
    ensures var v := VisitStream(s, max, accept);
      && v.decoded <= max && v.decoded <= |Nodes(s.lines)|
      && Entries(v.hits) == Filter(Nodes(s.lines)[..v.decoded], accept)
      && (v.stop == Ended ==> Entries(v.hits) == Filter(Nodes(s.lines), accept))
      && InGroup(v.hits, 0)
      && (forall k :: 0 <= k < |v.hits| ==> v.hits[k].at <= max)
  {
    var v := VisitStream(s, max, accept);
    VisitCounts(s, max, accept, 0, 0);
    VisitHits(s, max, accept, 0, 0);
    VisitFiltersNodes(s, max, accept, 0, 0);
    assert s.lines[0..] == s.lines;
    assert v.decoded == |Nodes(s.lines)| ==> Nodes(s.lines)[..v.decoded] == Nodes(s.lines);
  }

  // ---------------------------------------------------------------- how a scan reports itself

  /** A node is decoded exactly when its path can be cleaned, and is listed under that path with its own name,
      type and size. */
  lemma NodeIsListing(line: Line)
    requires line.Node?
    ensures Decodes(line) <==> CleanPath(line.path).Some?
    ensures Decodes(line) ==>
      var e := EntryOf(line).value;
      CleanPath(line.path) == Some(e.path) && e.name == line.name && e.kind == line.kind && e.size == line.size
  {
  }

  /** With everything before it decoded, line `i` is read and the scan goes on: it is blank, or fewer than
      `max` nodes came before it and it is a node that can be decoded or another record. */
  ghost predicate Passes(s: Stream, i: nat, max: nat)
    requires i < |s.lines|
  {
    var line := s.lines[i];
    || line.Blank?
    || (|Nodes(s.lines[..i])| < max && (line.Message? || (line.Node? && CleanPath(line.path).Some?)))
  }

  ghost predicate PassesUpTo(s: Stream, n: nat, max: nat)
    requires n <= |s.lines|
  {
    forall i :: 0 <= i < n ==> Passes(s, i, max)
  }

  /** The scan gets as far as line `n`, or to the end of the lines. */
  ghost predicate ReachesOnly(s: Stream, n: nat, max: nat) {
    n <= |s.lines| && PassesUpTo(s, n, max) && (n < |s.lines| ==> !Passes(s, n, max))
  }

  /** What stops it there. A budget does: the byte ceiling behind the last line or in the middle of it, or the
      decoded-entry limit. */
  ghost predicate BudgetAt(s: Stream, n: nat, max: nat)
    requires n <= |s.lines|
  {
    || (s.end == ByteBudget && n == |s.lines|)
    || (n < |s.lines| && |Nodes(s.lines[..n])| >= max)
    || (s.end == ByteBudget && s.cutLine && n + 1 == |s.lines| && s.lines[n].Malformed?)
  }

  /** The normal end of the stream. */
  ghost predicate EndAt(s: Stream, n: nat) {
    n == |s.lines| && s.end == Eof
  }

  /** The report of a scan that got as far as line `n`: the accepted nodes before it, skipped and taken; a full
      page stops at the next accepted node whatever follows, and otherwise the reason why reading stopped decides
      between a complete page, a budget page and an error. */
  ghost predicate Reports(s: Stream, n: nat, max: nat, skip: nat, limit: nat, accept: Entry -> bool, r: Result)
    requires n <= |s.lines|
  {
    var nodes := Nodes(s.lines[..n]);
    var visible := Filter(nodes, accept);
    var page := Take(Drop(visible, skip), limit);
    if |visible| > skip + limit then
      && r.Scanned? && r.nodes == page && r.stats.accepted == skip + limit + 1 && r.stats.page == limit
      && r.stats.more && r.stats.stoppedEarly && !r.stats.complete && !r.stats.budgetExhausted
    else if EndAt(s, n) then
      r == Scanned(page, Stats(|nodes|, |visible|, |page|, true, false, false, false))
    else if BudgetAt(s, n, max) then
      r == Scanned(page, Stats(|nodes|, |visible|, |page|, false, limit > 0 && |page| == limit, true, true))
    else
      r == ProtocolError
  }

  lemma {:induction false} NodesAppend(a: seq<Line>, line: Line)
    ensures Nodes(a + [line]) == Nodes(a) + if Decodes(line) then [EntryOf(line).value] else []
    decreases |a|
  {
    if a == [] {
      assert [] + [line] == [line] && [line][1..] == [];
    } else {
      assert (a + [line])[0] == a[0] && (a + [line])[1..] == a[1..] + [line];
      NodesAppend(a[1..], line);
    }
  }

  lemma NodesBefore(s: Stream, i: nat)
    requires i < |s.lines|
    ensures Nodes(s.lines[..i + 1]) == Nodes(s.lines[..i])
         + if Decodes(s.lines[i]) then [EntryOf(s.lines[i]).value] else []
  {
    NodesAppend(s.lines[..i], s.lines[i]);
    assert s.lines[..i + 1] == s.lines[..i] + [s.lines[i]];
  }

  /** What a line that passes, or the line where reading stops, is to the scan. */
  lemma PassingLine(s: Stream, i: nat, max: nat)
    requires i < |s.lines|
    ensures var verdict := Judge(s, i, |Nodes(s.lines[..i])|, max);
      if Passes(s, i, max) then
        if Decodes(s.lines[i]) then verdict.Record? else verdict.Skip?
      else
        verdict == Halt(if BudgetAt(s, i, max) then OutOfBudget else Failed)
  {
    if s.lines[i].Node? {
      NodeIsListing(s.lines[i]);
    }
  }

  /** The visit decodes the nodes before the line where reading stops, and stops for that reason. */
  lemma {:induction false} VisitReaches(s: Stream, n: nat, max: nat, accept: Entry -> bool, i: nat)
    requires ReachesOnly(s, n, max) && i <= n
    ensures var v := VisitFrom(s, max, accept, i, |Nodes(s.lines[..i])|);
      && v.decoded == |Nodes(s.lines[..n])|
      && v.stop == if EndAt(s, n) then Ended else if BudgetAt(s, n, max) then OutOfBudget else Failed
    decreases n - i
  {
    if i < |s.lines| {
      PassingLine(s, i, max);
      VisitStep(s, max, accept, i, |Nodes(s.lines[..i])|);
      if i < n {
        assert Passes(s, i, max);
        NodesBefore(s, i);
        VisitReaches(s, n, max, accept, i + 1);
      }
    }
  }

  lemma {:induction false} NodesPrefix(s: Stream, n: nat)
    requires n <= |s.lines|
    ensures Nodes(s.lines[..n]) <= Nodes(s.lines)
    decreases |s.lines| - n
  {
    if n < |s.lines| {
      NodesBefore(s, n);
      NodesPrefix(s, n + 1);
    } else {
      assert s.lines[..n] == s.lines;
    }
  }

  lemma OverflowAt(v: Visit, skip: nat, limit: nat)
    requires InGroup(v.hits, 0)
    ensures |v.hits| > skip + limit ==>
      PageOf(v, skip, limit)
      == Page(Take(Drop(v.hits, skip), limit),
              Stats(v.hits[skip + limit].at, skip + limit + 1, limit, false, true, true, false))
  {
    if |v.hits| > skip + limit {
      PageLengthIs(Drop(v.hits, skip), limit, limit);
    }
  }

  /** The page of a stream is what its lines and its end say. */
  lemma ScanReports(s: Stream, n: nat, max: nat, skip: nat, limit: nat, accept: Entry -> bool)
    requires ReachesOnly(s, n, max)
    ensures Reports(s, n, max, skip, limit, accept, PageOfStream(s, max, skip, limit, accept))
  {
    var v := VisitStream(s, max, accept);
    assert s.lines[..0] == [];
    VisitReaches(s, n, max, accept, 0);
    WholeVisit(s, max, accept);
    NodesPrefix(s, n);
    assert Nodes(s.lines)[..v.decoded] == Nodes(s.lines[..n]);
    SliceOfEntries(v.hits, skip, limit);
    if |v.hits| > skip + limit {
      OverflowAt(v, skip, limit);
    } else {
      PageWithoutBoundary(v.hits, v.decoded, v.stop, skip, limit);
      assert v.hits + [] == v.hits;
      assert Take(Drop(v.hits, skip), limit) == Drop(v.hits, skip);
    }
  }

  /** Every scan gets as far as some line. */
  lemma {:induction false} SomeLineIsReached(s: Stream, max: nat, i: nat)
    requires i <= |s.lines| && PassesUpTo(s, i, max)
    ensures exists n: nat :: ReachesOnly(s, n, max)
    decreases |s.lines| - i
  {
    if i < |s.lines| && Passes(s, i, max) {
      SomeLineIsReached(s, max, i + 1);
    } else {
      assert ReachesOnly(s, i, max);
    }
  }

  /** A report of completeness is honest: the stream came to its normal end and every line was read, and a byte
      ceiling or a failing reader is never taken for that. */
  ghost predicate Honest(s: Stream, max: nat, skip: nat, limit: nat, accept: Entry -> bool, r: Result) {
    && (exists n: nat :: ReachesOnly(s, n, max) && Reports(s, n, max, skip, limit, accept, r))
    && (r.Scanned? && r.stats.complete ==>
          s.end == Eof && PassesUpTo(s, |s.lines|, max) && r.stats.decoded == |Nodes(s.lines)|)
    && (PassesUpTo(s, |s.lines|, max) && |Filter(Nodes(s.lines), accept)| <= skip + limit ==>
          match s.end
          case Eof => r.Scanned? && r.stats.complete
          case ByteBudget => r.Scanned? && r.stats.budgetExhausted && r.stats.stoppedEarly && !r.stats.complete
          case ReadError => r == ProtocolError)
  }

  lemma ReportsAreHonest(s: Stream, max: nat, skip: nat, limit: nat, accept: Entry -> bool)
    ensures Honest(s, max, skip, limit, accept, PageOfStream(s, max, skip, limit, accept))
  {
    SomeLineIsReached(s, max, 0);
    var n: nat :| ReachesOnly(s, n, max);
    ScanReports(s, n, max, skip, limit, accept);
    assert s.lines[..|s.lines|] == s.lines;
    if PassesUpTo(s, |s.lines|, max) {
      assert n == |s.lines|;
    }
  }

  // ---------------------------------------------------------------- the client

  /** What `browse_snapshot` answers for an offset and a limit. */
  function BrowseReply(s: Stream, max: nat, accept: Entry -> bool, offset: nat, limit: nat): Reply<seq<Entry>> {
    match PageOfStream(s, max, offset, limit, accept)
    case ProtocolError => Refused
    case Scanned(nodes, stats) => Reply(nodes, |nodes|, stats)
  }

  function Browse(s: Stream, max: nat, accept: Entry -> bool, limits: nat -> nat): Received<seq<Entry>> {
    BrowseServes(s, max, accept);
    Follow((o, l) => BrowseReply(s, max, accept, o, l), |VisitStream(s, max, accept).hits|, limits, 0, 0)
  }

  function ShowsEntries(): (seq<Entry>, seq<Hit>) -> bool {
    (nodes, hits) => nodes == Map(hits, EntryOfHit)
  }

  lemma BrowseServes(s: Stream, max: nat, accept: Entry -> bool)
    ensures Serves((o, l) => BrowseReply(s, max, accept, o, l), VisitStream(s, max, accept), ShowsEntries())
    ensures StaysWithin((o, l) => BrowseReply(s, max, accept, o, l), |VisitStream(s, max, accept).hits|)
  {
    var fetch := (o: nat, l: nat) => BrowseReply(s, max, accept, o, l);
    var v := VisitStream(s, max, accept);
    forall offset: nat, limit: nat ensures Answers(fetch(offset, limit), PageOf(v, offset, limit), ShowsEntries()) {
      BrowseAnswers(s, max, accept, offset, limit);
    }
    ServingStaysWithin(fetch, v, ShowsEntries());
  }

  lemma BrowseAnswers(s: Stream, max: nat, accept: Entry -> bool, offset: nat, limit: nat)
    ensures Answers(BrowseReply(s, max, accept, offset, limit), PageOf(VisitStream(s, max, accept), offset, limit),
        ShowsEntries())
  {
    var p := PageOf(VisitStream(s, max, accept), offset, limit);
    if p.Page? {
      EntriesAreMapped(p.hits);
    }
  }

  /** A client that browses to the end receives, its pages joined, the accepted nodes exactly once and in
      order: all of the stream's when it ends normally, those among the decoded records when a budget ends
      it, and a prefix of these before a malformed line. */
  lemma BrowseDelivers(s: Stream, max: nat, accept: Entry -> bool, limits: nat -> nat)
    requires forall i :: limits(i) >= 1
    ensures var b, v := Browse(s, max, accept, limits), VisitStream(s, max, accept);
      && v.decoded <= |Nodes(s.lines)| && |b.pages| <= |v.hits| + 1
      && b.finish == v.stop
      && (b.finish == Ended ==> Flatten(b.pages) == Filter(Nodes(s.lines), accept))
      && (b.finish == OutOfBudget ==> Flatten(b.pages) == Filter(Nodes(s.lines)[..v.decoded], accept))
      && Flatten(b.pages) <= Filter(Nodes(s.lines)[..v.decoded], accept)
  {
    var v := VisitStream(s, max, accept);
    var b, w := Browse(s, max, accept, limits), WalkFrom(v, limits, 0, 0);
    BrowseServes(s, max, accept);
    ClientSeesWalk((o, l) => BrowseReply(s, max, accept, o, l), v, ShowsEntries(), limits, 0, 0);
    ShownInOrder(w.pages, b.pages, EntryOfHit);
    EntriesAreMapped(Flatten(w.pages));
    WholeVisit(s, max, accept);
    WalkDelivers(v, limits, 0, 0);
    assert v.hits[0..] == v.hits;
    EntriesPrefix(Flatten(w.pages), v.hits);
  }

  lemma EntriesPrefix(a: seq<Hit>, b: seq<Hit>)
    requires a <= b
    ensures Entries(a) <= Entries(b)
  {
  }

  /** A listing of one file, browsed one entry at a time with a decoded-entry limit of 1, where another
      record follows: the first page is full and has a cursor, and the page behind it is empty. */
  lemma BudgetCursorLeadsToEmptyPage(accept: Entry -> bool)
    requires accept(Entry("/a", "a", "file", 1))
    ensures var s := Stream([Node("/a", "a", "file", 1), Message], false, Eof);
      && PageOfStream(s, 1, 0, 1, accept)
         == Scanned([Entry("/a", "a", "file", 1)], Stats(1, 1, 1, false, true, true, true))
      && PageOfStream(s, 1, 1, 1, accept) == Scanned([], Stats(1, 1, 0, false, false, true, true))
  {
    var s := Stream([Node("/a", "a", "file", 1), Message], false, Eof);
    var e := Entry("/a", "a", "file", 1);
    assert Legal("a");
    NameIsClean("a");
    assert "/" + "a" == "/a";
    assert EntryOf(s.lines[0]) == Some(e);
    assert VisitFrom(s, 1, accept, 1, 1) == Visit([], 1, OutOfBudget);
    var v := VisitStream(s, 1, accept);
    assert v == Visit([Hit(0, "", e, 1)], 1, OutOfBudget);
    PageWithoutBoundary(v.hits, 1, OutOfBudget, 0, 1);
    PageWithoutBoundary(v.hits, 1, OutOfBudget, 1, 1);
    assert v.hits + [] == v.hits && Drop(v.hits, 0) == v.hits && Drop(v.hits, 1) == [];
    assert Entries(v.hits) == [e];
  }
}
