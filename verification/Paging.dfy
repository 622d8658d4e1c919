/** What one page of a scan is, and what walking `next_cursor` page by page delivers. */
module Paging {
  import opened Basics

  /** A decoded directory entry or search match. */
  datatype Entry = Entry(path: string, name: string, kind: string, size: nat)

  /** An accepted entry: its group's position in the stream, the snapshot id that was current when it
      was tested, and how many records had been decoded once it was read. */
  datatype Hit = Hit(group: nat, id: string, entry: Entry, at: nat)

  /** Why reading a stream stops, the page boundary aside. */
  datatype Stop = Running | Ended | OutOfBudget | Failed

  /** Everything a scan would accept if no page ever filled up. It depends on the stream, the
      decoded-entry limit and the policy, never on the page asked for. */
  datatype Visit = Visit(hits: seq<Hit>, decoded: nat, stop: Stop)

  datatype Stats = Stats(
    decoded: nat,
    accepted: nat,
    page: nat,
    complete: bool,
    more: bool,
    stoppedEarly: bool,
    budgetExhausted: bool)

  datatype Page = NoPage | Page(hits: seq<Hit>, stats: Stats)

  function Then(v: Visit, w: Visit): Visit {
    if v.stop.Running? then Visit(v.hits + w.hits, w.decoded, w.stop) else v
  }

  function Entries(hits: seq<Hit>): (es: seq<Entry>)
    ensures |es| == |hits|
    ensures forall i :: 0 <= i < |hits| ==> es[i] == hits[i].entry
  {
    seq(|hits|, i requires 0 <= i < |hits| => hits[i].entry)
  }

  function EntryOfHit(h: Hit): Entry {
    h.entry
  }

  lemma EntriesAreMapped(hits: seq<Hit>)
    ensures Entries(hits) == Map(hits, EntryOfHit)
  {
  }

  predicate PageMayHaveMore(pageEntries: nat, limit: nat) {
    limit > 0 && pageEntries >= limit
  }

  // ---------------------------------------------------------------- the page boundary

  /** Groups arrive one after another, so group numbers never decrease. */
  ghost predicate Grouped(u: seq<Hit>) {
    forall i, j :: 0 <= i <= j < |u| ==> u[i].group <= u[j].group
  }

  ghost predicate InGroup(u: seq<Hit>, g: nat) {
    forall i :: 0 <= i < |u| ==> u[i].group == g
  }

  /** `u[k]` no longer fits: its own group already put `limit` entries on the page. */
  predicate Overflows(u: seq<Hit>, k: nat, limit: nat)
    requires k < |u|
  {
    limit <= k && u[k - limit].group == u[k].group
  }

  function FirstOverflow(u: seq<Hit>, limit: nat, from: nat): (n: nat)
    requires from <= |u|
    ensures from <= n <= |u|
    ensures forall k :: from <= k < n ==> !Overflows(u, k, limit)
    ensures n < |u| ==> Overflows(u, n, limit)
    decreases |u| - from
  {
    if from == |u| || Overflows(u, from, limit) then from else FirstOverflow(u, limit, from + 1)
  }

  /** How many of the entries left after skipping fit on one page. */
  function PageLength(u: seq<Hit>, limit: nat): (n: nat)
    ensures n <= |u|
    ensures forall k :: 0 <= k < n ==> !Overflows(u, k, limit)
    ensures n < |u| ==> Overflows(u, n, limit)
  {
    FirstOverflow(u, limit, 0)
  }

  /** One page as a slice of everything accepted. A full page hides whatever the stream would have
      done later, a malformed tail included. */
  function PageOf(v: Visit, skip: nat, limit: nat): Page {
    var u := Drop(v.hits, skip);
    var n := PageLength(u, limit);
    if n < |u| then
      Page(u[..n], Stats(u[n].at, skip + n + 1, n, false, true, true, false))
    else match v.stop
      case Ended => Page(u, Stats(v.decoded, |v.hits|, n, true, false, false, false))
      case OutOfBudget =>
        Page(u, Stats(v.decoded, |v.hits|, n, false, PageMayHaveMore(n, limit), true, true))
      case _ => NoPage
  }

  lemma {:induction false} PageLengthIs(u: seq<Hit>, limit: nat, n: nat)
    requires n <= |u|
    requires forall k :: 0 <= k < n ==> !Overflows(u, k, limit)
    requires n < |u| ==> Overflows(u, n, limit)
    ensures PageLength(u, limit) == n
  {
    var m := PageLength(u, limit);
    assert m < |u| ==> Overflows(u, m, limit);
    assert n < |u| ==> Overflows(u, n, limit);
  }

  /** The scanner has accepted exactly `h`, and nothing on the page has overflowed. */
  ghost predicate Fits(h: seq<Hit>, skip: nat, limit: nat) {
    var u := Drop(h, skip);
    forall k :: 0 <= k < |u| ==> !Overflows(u, k, limit)
  }

  /** Stopping at the first entry that overflows yields the page of the whole stream. */
  lemma StopsAtBoundary(h: seq<Hit>, x: Hit, rest: seq<Hit>, decoded: nat, stop: Stop, skip: nat, limit: nat)
    requires Fits(h, skip, limit) && skip <= |h|
    requires Overflows(Drop(h, skip) + [x], |h| - skip, limit)
    ensures PageOf(Visit(h + [x] + rest, decoded, stop), skip, limit)
         == Page(Drop(h, skip), Stats(x.at, |h| + 1, |h| - skip, false, true, true, false))
    ensures var u := Drop(h + [x] + rest, skip);
      PageLength(u, limit) == |h| - skip < |u| && u[|h| - skip] == x
  {
    var all := h + [x] + rest;
    var u := Drop(all, skip);
    var n := |h| - skip;
    assert u[..n] == Drop(h, skip);
    assert u[n] == x;
    forall k | 0 <= k < n ensures !Overflows(u, k, limit) {
      assert !Overflows(Drop(h, skip), k, limit);
    }
    assert Overflows(u, n, limit) by {
      assert limit == 0 || u[n - limit] == (Drop(h, skip) + [x])[n - limit];
    }
    PageLengthIs(u, limit, n);
  }

  /** Reading to the end of what can be read without overflowing yields the whole remainder. */
  lemma StopsAtEnd(v: Visit, skip: nat, limit: nat)
    requires Fits(v.hits, skip, limit)
    ensures PageLength(Drop(v.hits, skip), limit) == |Drop(v.hits, skip)|
  {
    PageLengthIs(Drop(v.hits, skip), limit, |Drop(v.hits, skip)|);
  }

  /** With a single group the boundary is the plain page limit. */
  lemma OneGroupBoundary(u: seq<Hit>, limit: nat)
    requires InGroup(u, 0)
    ensures PageLength(u, limit) == Min(limit, |u|)
  {
    PageLengthIs(u, limit, Min(limit, |u|));
  }

  /** With a single group a page is what skipping and taking leave, and more is reported exactly when
      something was left over. */
  lemma OneGroupPage(v: Visit, skip: nat, limit: nat)
    requires InGroup(v.hits, 0) && PageOf(v, skip, limit).Page?
    ensures var p := PageOf(v, skip, limit);
      && p.hits == Take(Drop(v.hits, skip), limit)
      && (!p.stats.budgetExhausted ==> (p.stats.more <==> |v.hits| > skip + limit))
      && (!p.stats.budgetExhausted && !p.stats.more ==> v.stop == Ended)
      && (p.stats.complete ==> v.stop == Ended && p.stats.accepted == |v.hits|)
  {
    OneGroupBoundary(Drop(v.hits, skip), limit);
  }

  /** A page never counts more decoded records than the scan decoded. */
  lemma PageCountsDecoded(v: Visit, skip: nat, limit: nat, max: nat)
    requires PageOf(v, skip, limit).Page? && v.decoded <= max
    requires forall i :: 0 <= i < |v.hits| ==> v.hits[i].at <= max
    ensures PageOf(v, skip, limit).stats.decoded <= max
  {
    var u := Drop(v.hits, skip);
    var n := PageLength(u, limit);
    assert n < |u| ==> u[n] == v.hits[skip + n];
  }

  // ---------------------------------------------------------------- facts about every page

  /** Which flags can occur together on a successful page, and what each of them guarantees. */
  lemma FlagDiscipline(v: Visit, skip: nat, limit: nat)
    requires PageOf(v, skip, limit).Page?
    ensures var s := PageOf(v, skip, limit).stats;
      && s.page == |PageOf(v, skip, limit).hits|
      && (s.complete ==> !s.more && !s.budgetExhausted && !s.stoppedEarly)
      && (!s.complete ==> s.stoppedEarly)
      && (s.complete ==> v.stop == Ended && s.accepted == |v.hits|)
      && (s.budgetExhausted ==> v.stop == OutOfBudget && skip + s.page >= |v.hits|)
      && (s.more && limit > 0 ==> s.page >= limit)
      && s.accepted <= |v.hits|
  {
    var u := Drop(v.hits, skip);
    var n := PageLength(u, limit);
    if n < |u| {
      assert Overflows(u, n, limit);
    }
  }

  /** A page is the contiguous slice of accepted entries that starts at `skip`. */
  lemma PageIsSlice(v: Visit, skip: nat, limit: nat)
    requires PageOf(v, skip, limit).Page? && skip <= |v.hits|
    ensures var p := PageOf(v, skip, limit);
      && skip + p.stats.page <= |v.hits|
      && p.hits == v.hits[skip..skip + p.stats.page]
  {
  }

  /** Without a budget stop, a page reports more exactly when one group's run of entries passes the
      limit, that is, when two entries `limit` places apart belong to the same group. */
  lemma MoreMeansOverflow(v: Visit, skip: nat, limit: nat)
    requires PageOf(v, skip, limit).Page? && !PageOf(v, skip, limit).stats.budgetExhausted
    ensures var u := Drop(v.hits, skip);
      PageOf(v, skip, limit).stats.more <==> exists k :: 0 <= k < |u| && Overflows(u, k, limit)
  {
    var u := Drop(v.hits, skip);
    var n := PageLength(u, limit);
    if n < |u| {
      assert Overflows(u, n, limit);
    }
  }

  /** The documented page size is not a bound on a page: it holds exactly when nothing is left over
      after `limit` entries or the first `limit + 1` of them come from one group. */
  lemma PageSizeBound(v: Visit, skip: nat, limit: nat)
    requires Grouped(v.hits) && PageOf(v, skip, limit).Page?
    ensures var u := Drop(v.hits, skip);
      PageOf(v, skip, limit).stats.page <= limit <==> |u| <= limit || u[0].group == u[limit].group
  {
    var u := Drop(v.hits, skip);
    var n := PageLength(u, limit);
    if limit < |u| {
      assert Overflows(u, limit, limit) <==> u[0].group == u[limit].group;
      assert n < |u| ==> Overflows(u, n, limit);
    }
  }

  lemma FirstEntryFits(u: seq<Hit>, limit: nat)
    requires u != [] && limit >= 1
    ensures PageLength(u, limit) >= 1
  {
    assert !Overflows(u, 0, limit);
  }

  lemma FirstOverflowBounds(u: seq<Hit>, limit: nat)
    ensures PageLength(u, limit) < |u| <==> exists k :: 0 <= k < |u| && Overflows(u, k, limit)
  {
    var n := PageLength(u, limit);
    assert n < |u| ==> Overflows(u, n, limit);
  }

  /** Whenever a page reports more, the next page, if the stream can be read to it, holds something exactly
      when some entry overflowed this one. A full page that a budget ended without such an entry leads to
      an empty page, which is the last. */
  lemma CursorPromise(v: Visit, skip: nat, limit: nat, limit': nat)
    requires limit >= 1 && limit' >= 1
    requires PageOf(v, skip, limit).Page? && PageOf(v, skip, limit).stats.more
    ensures var u := Drop(v.hits, skip);
      var next := PageOf(v, skip + PageOf(v, skip, limit).stats.page, limit');
      && (next == NoPage || next.hits != [] <==> exists k :: 0 <= k < |u| && Overflows(u, k, limit))
      && (next.Page? && next.hits == [] ==> !next.stats.more && next.stats.budgetExhausted)
  {
    var u := Drop(v.hits, skip);
    var n := PageLength(u, limit);
    var w := Drop(v.hits, skip + n);
    FirstOverflowBounds(u, limit);
    if n < |u| {
      assert w == u[n..];
      FirstEntryFits(w, limit');
    } else {
      assert w == [];
    }
  }

  // ---------------------------------------------------------------- the client

  /** What a server answers to a request for a page: an error, or the page as it is shown, the number of
      entries on it, and the flags. */
  datatype Reply<P> = Refused | Reply(page: P, count: nat, stats: Stats)

  /** The pages a client receives, and how its traversal finished. */
  datatype Received<P> = Received(pages: seq<P>, finish: Stop)

  ghost predicate StaysWithin<P(!new)>(fetch: (nat, nat) -> Reply<P>, total: nat) {
    forall offset: nat, limit: nat :: offset <= total && fetch(offset, limit).Reply? ==>
        offset + fetch(offset, limit).count <= total
  }

  /** A cursor is issued when a page reports more and is not empty. */
  predicate HasCursor<P>(reply: Reply<P>) {
    reply.Reply? && reply.stats.more && reply.count > 0
  }

  /** What the client has after one more reply, `rest` being what the cursor leads to. */
  function AfterReply<P>(reply: Reply<P>, rest: Received<P>): Received<P> {
    match reply
    case Refused => Received([], Failed)
    case Reply(shown, _, stats) =>
      if HasCursor(reply) then Received([shown] + rest.pages, rest.finish)
      else Received([shown], if stats.complete then Ended else OutOfBudget)
  }

  /** The client asks for `limits(i)` entries on page `i` and follows every cursor. Each page is a fresh
      request from the offset the cursor carries: the offset so far plus the number of entries returned. */
  function Follow<P(!new)>(fetch: (nat, nat) -> Reply<P>, ghost total: nat, limits: nat -> nat, page: nat,
          offset: nat): Received<P>
    requires offset <= total && StaysWithin(fetch, total)
    decreases total - offset
  {
    var reply := fetch(offset, limits(page));
    var rest := if HasCursor(reply) then Follow(fetch, total, limits, page + 1, offset + reply.count)
                else Received([], Failed);
    AfterReply(reply, rest)
  }

  // ---------------------------------------------------------------- walking the cursor

  /** The pages of a visit, as a server would answer them. */
  function PagesOf(v: Visit): (nat, nat) -> Reply<seq<Hit>> {
    (offset: nat, limit: nat) =>
      match PageOf(v, offset, limit)
      case NoPage => Refused
      case Page(hits, stats) => Reply(hits, |hits|, stats)
  }

  /** `hits` are the accepted entries that start at `offset`. */
  ghost predicate SliceAt(v: Visit, offset: nat, hits: seq<Hit>) {
    offset + |hits| <= |v.hits| && hits == v.hits[offset..offset + |hits|]
  }

  /** The reply is a slice of what is accepted, and a last one says how the stream ends. */
  ghost predicate StepsAt(v: Visit, offset: nat, reply: Reply<seq<Hit>>) {
    match reply
    case Refused => v.stop == Failed
    case Reply(hits, count, stats) =>
      && SliceAt(v, offset, hits) && count == |hits|
      && (!HasCursor(reply) ==> offset + count == |v.hits| && v.stop == if stats.complete then Ended else OutOfBudget)
  }

  ghost predicate Steps(v: Visit, fetch: (nat, nat) -> Reply<seq<Hit>>) {
    forall offset: nat, limit: nat :: offset <= |v.hits| && limit >= 1 ==> StepsAt(v, offset, fetch(offset, limit))
  }

  lemma PagesStayWithin(v: Visit)
    ensures StaysWithin(PagesOf(v), |v.hits|)
  {
    forall offset: nat, limit: nat | offset <= |v.hits| && PagesOf(v)(offset, limit).Reply?
      ensures offset + PagesOf(v)(offset, limit).count <= |v.hits|
    {
      PageIsSlice(v, offset, limit);
    }
  }

  /** The walk along the cursors over the pages of a visit. */
  function WalkFrom(v: Visit, limits: nat -> nat, page: nat, offset: nat): Received<seq<Hit>>
    requires offset <= |v.hits|
  {
    PagesStayWithin(v);
    Follow(PagesOf(v), |v.hits|, limits, page, offset)
  }

  lemma FlattenCons<T>(first: seq<T>, rest: seq<seq<T>>)
    ensures Flatten([first] + rest) == first + Flatten(rest)
  {
    assert ([first] + rest)[1..] == rest;
  }

  /** The page that carries no cursor holds everything that was left. */
  lemma LastPageIsAll(v: Visit, skip: nat, limit: nat)
    requires PageOf(v, skip, limit).Page? && limit >= 1 && skip <= |v.hits|
    requires !PageOf(v, skip, limit).stats.more || PageOf(v, skip, limit).hits == []
    ensures PageOf(v, skip, limit).hits == v.hits[skip..]
    ensures PageOf(v, skip, limit).stats.complete <==> v.stop == Ended
    ensures v.stop != Failed
  {
  }

  lemma PageSteps(v: Visit, skip: nat, limit: nat)
    requires skip <= |v.hits| && limit >= 1 && !v.stop.Running?
    ensures StepsAt(v, skip, PagesOf(v)(skip, limit))
  {
    var p := PageOf(v, skip, limit);
    if p.Page? {
      PageIsSlice(v, skip, limit);
      if !(p.stats.more && p.hits != []) {
        LastPageIsAll(v, skip, limit);
      }
    }
  }

  /** `w` delivers what is accepted from `offset` on: everything when the stream is sound, else a prefix. */
  ghost predicate Delivers(v: Visit, offset: nat, w: Received<seq<Hit>>)
    requires offset <= |v.hits|
  {
    && w.finish == v.stop
    && |w.pages| <= |v.hits| - offset + 1
    && (v.stop != Failed ==> Flatten(w.pages) == v.hits[offset..])
    && Flatten(w.pages) <= v.hits[offset..]
  }

  lemma DeliversLast(v: Visit, offset: nat, reply: Reply<seq<Hit>>, rest: Received<seq<Hit>>)
    requires offset <= |v.hits| && StepsAt(v, offset, reply) && !HasCursor(reply)
    ensures Delivers(v, offset, AfterReply(reply, rest))
  {
    if reply.Reply? {
      FlattenCons(reply.page, []);
      assert [reply.page] + [] == [reply.page];
    }
  }

  lemma DeliversMore(v: Visit, offset: nat, reply: Reply<seq<Hit>>, rest: Received<seq<Hit>>)
    requires StepsAt(v, offset, reply) && HasCursor(reply)
    requires offset + reply.count <= |v.hits| && Delivers(v, offset + reply.count, rest)
    ensures Delivers(v, offset, AfterReply(reply, rest))
  {
    FlattenCons(reply.page, rest.pages);
    assert v.hits[offset..] == reply.page + v.hits[offset + reply.count..];
  }

  lemma {:induction false} FollowDelivers(v: Visit, fetch: (nat, nat) -> Reply<seq<Hit>>, limits: nat -> nat,
          page: nat, offset: nat)
    requires offset <= |v.hits| && forall i :: limits(i) >= 1
    requires Steps(v, fetch) && StaysWithin(fetch, |v.hits|)
    ensures Delivers(v, offset, Follow(fetch, |v.hits|, limits, page, offset))
    decreases |v.hits| - offset
  {
    var reply := fetch(offset, limits(page));
    if HasCursor(reply) {
      FollowDelivers(v, fetch, limits, page + 1, offset + reply.count);
      DeliversMore(v, offset, reply, Follow(fetch, |v.hits|, limits, page + 1, offset + reply.count));
    } else {
      DeliversLast(v, offset, reply, Received([], Failed));
    }
  }

  /** Whatever limits the client picks, the walk is finite, ends the way the stream ends, and its
      pages joined together are the accepted entries, each exactly once and in stream order. When
      the stream is malformed the pages before the error are a prefix of them. */
  lemma WalkDelivers(v: Visit, limits: nat -> nat, page: nat, offset: nat)
    requires offset <= |v.hits| && forall i :: limits(i) >= 1
    requires !v.stop.Running?
    ensures Delivers(v, offset, WalkFrom(v, limits, page, offset))
  {
    forall o: nat, l: nat | o <= |v.hits| && l >= 1 ensures StepsAt(v, o, PagesOf(v)(o, l)) {
      PageSteps(v, o, l);
    }
    PagesStayWithin(v);
    FollowDelivers(v, PagesOf(v), limits, page, offset);
  }

  // ---------------------------------------------------------------- what is shown

  /** The reply is the page, shown as `shows` says. */
  ghost predicate Answers<P>(reply: Reply<P>, page: Page, shows: (P, seq<Hit>) -> bool) {
    match page
    case NoPage => reply == Refused
    case Page(hits, stats) => reply.Reply? && reply.count == |hits| && reply.stats == stats && shows(reply.page, hits)
  }

  ghost predicate Serves<P(!new)>(fetch: (nat, nat) -> Reply<P>, v: Visit, shows: (P, seq<Hit>) -> bool) {
    forall offset: nat, limit: nat {:trigger Answers(fetch(offset, limit), PageOf(v, offset, limit), shows)} ::
      Answers(fetch(offset, limit), PageOf(v, offset, limit), shows)
  }

  lemma ServingStaysWithin<P(!new)>(fetch: (nat, nat) -> Reply<P>, v: Visit, shows: (P, seq<Hit>) -> bool)
    requires Serves(fetch, v, shows)
    ensures StaysWithin(fetch, |v.hits|)
  {
    forall offset: nat, limit: nat | offset <= |v.hits| && fetch(offset, limit).Reply?
      ensures offset + fetch(offset, limit).count <= |v.hits|
    {
      assert Answers(fetch(offset, limit), PageOf(v, offset, limit), shows);
      PageIsSlice(v, offset, limit);
    }
  }

  /** The client's pages show those of the walk, one by one. */
  ghost predicate ShowsAll<P>(r: Received<P>, w: Received<seq<Hit>>, shows: (P, seq<Hit>) -> bool) {
    && r.finish == w.finish && |r.pages| == |w.pages|
    && forall i :: 0 <= i < |r.pages| ==> shows(r.pages[i], w.pages[i])
  }

  /** Two servers give the same answer, up to how a page is shown. */
  ghost predicate Agree<P>(reply: Reply<P>, plain: Reply<seq<Hit>>, shows: (P, seq<Hit>) -> bool) {
    match plain
    case Refused => reply == Refused
    case Reply(hits, count, stats) =>
      reply.Reply? && reply.count == count && reply.stats == stats && shows(reply.page, hits)
  }

  ghost predicate ServersAgree<P(!new)>(fetch: (nat, nat) -> Reply<P>, plain: (nat, nat) -> Reply<seq<Hit>>,
          shows: (P, seq<Hit>) -> bool) {
    forall offset: nat, limit: nat {:trigger Agree(fetch(offset, limit), plain(offset, limit), shows)} ::
      Agree(fetch(offset, limit), plain(offset, limit), shows)
  }

  lemma ShowsOneMore<P>(reply: Reply<P>, plain: Reply<seq<Hit>>, r: Received<P>, w: Received<seq<Hit>>,
          shows: (P, seq<Hit>) -> bool)
    requires Agree(reply, plain, shows) && (HasCursor(plain) ==> ShowsAll(r, w, shows))
    ensures ShowsAll(AfterReply(reply, r), AfterReply(plain, w), shows)
  {
  }

  lemma {:induction false} AgreeingServersShowTheSame<P(!new)>(fetch: (nat, nat) -> Reply<P>,
          plain: (nat, nat) -> Reply<seq<Hit>>, shows: (P, seq<Hit>) -> bool,
          total: nat, limits: nat -> nat, page: nat, offset: nat)
    requires ServersAgree(fetch, plain, shows) && StaysWithin(fetch, total) && StaysWithin(plain, total)
    requires offset <= total
    ensures ShowsAll(Follow(fetch, total, limits, page, offset), Follow(plain, total, limits, page, offset), shows)
    decreases total - offset
  {
    var reply, answer := fetch(offset, limits(page)), plain(offset, limits(page));
    assert Agree(reply, answer, shows);
    if HasCursor(answer) {
      AgreeingServersShowTheSame(fetch, plain, shows, total, limits, page + 1, offset + answer.count);
      ShowsOneMore(reply, answer, Follow(fetch, total, limits, page + 1, offset + answer.count),
        Follow(plain, total, limits, page + 1, offset + answer.count), shows);
    } else {
      ShowsOneMore(reply, answer, Received([], Failed), Received([], Failed), shows);
    }
  }

  /** A client of a server that answers with the pages of a visit receives the pages of its walk. */
  lemma ClientSeesWalk<P(!new)>(fetch: (nat, nat) -> Reply<P>, v: Visit, shows: (P, seq<Hit>) -> bool,
      limits: nat -> nat, page: nat, offset: nat)
    requires Serves(fetch, v, shows) && StaysWithin(fetch, |v.hits|)
    requires offset <= |v.hits|
    ensures ShowsAll(Follow(fetch, |v.hits|, limits, page, offset), WalkFrom(v, limits, page, offset), shows)
  {
    forall o: nat, l: nat ensures Agree(fetch(o, l), PagesOf(v)(o, l), shows) {
      assert Answers(fetch(o, l), PageOf(v, o, l), shows);
    }
    PagesStayWithin(v);
    AgreeingServersShowTheSame(fetch, PagesOf(v), shows, |v.hits|, limits, page, offset);
  }

  // ---------------------------------------------------------------- pages as they are shown

  /** Pages shown entry by entry join to the walk's pages joined. */
  lemma {:induction false} ShownInOrder<T>(pages: seq<seq<Hit>>, shown: seq<seq<T>>, f: Hit -> T)
    requires |pages| == |shown| && forall i :: 0 <= i < |pages| ==> shown[i] == Map(pages[i], f)
    ensures Flatten(shown) == Map(Flatten(pages), f)
  {
    if pages != [] {
      ShownInOrder(pages[1..], shown[1..], f);
      MapAppend(pages[0], Flatten(pages[1..]), f);
    }
  }

  /** Pages rearranged for display join to a rearrangement of the walk's pages joined. */
  lemma {:induction false} ShownRearranged<T>(pages: seq<seq<Hit>>, shown: seq<seq<T>>, f: Hit -> T)
    requires |pages| == |shown|
    requires forall i :: 0 <= i < |pages| ==> multiset(shown[i]) == multiset(Map(pages[i], f))
    ensures multiset(Flatten(shown)) == multiset(Map(Flatten(pages), f))
  {
    if pages != [] {
      ShownRearranged(pages[1..], shown[1..], f);
      MapAppend(pages[0], Flatten(pages[1..]), f);
      assert multiset(shown[0]) == multiset(Map(pages[0], f));
    } else {
      assert Map(Flatten(pages), f) == [];
    }
  }
}
