/** The bounded store of single-use continuation cursors. */
module CursorStore {
  import opened Basics

  const STATE_VERSION := 1

  /** What a cursor continues: the request's scope and how far it got. */
  datatype Continuation = Continuation(
    tool: string,
    repository: string,
    host: string,
    tags: seq<string>,
    path: string,
    after: string,
    before: string,
    pattern: string,
    ignoreCase: bool,
    recursive: bool,
    snapshotIDs: seq<string>,
    offset: nat,
    lastTime: int,
    lastID: string,
    total: nat)

  datatype State = State(version: int, scope: Continuation, created: int, expires: int)

  type Entries = map<string, State>

  predicate Expired(s: State, now: int) {
    now >= s.expires
  }

  function Live(entries: Entries, now: int): Entries {
    map t | t in entries && !Expired(entries[t], now) :: entries[t]
  }

  ghost predicate Oldest(entries: Entries, t: string) {
    t in entries && forall u :: u in entries ==> entries[t].created <= entries[u].created
  }

  /** What issuing keeps of the store: everything live, less the oldest entry when there is no room. */
  ghost predicate MakesRoom(live: Entries, kept: Entries, max: nat) {
    if |live| < max || live == map[] then kept == live
    else exists t :: Oldest(live, t) && kept == live - {t}
  }

  function NewState(scope: Continuation, now: int, ttl: int): State {
    State(STATE_VERSION, scope, now, now + ttl)
  }

  ghost predicate Issued(before: Entries, after: Entries, token: string, scope: Continuation, now: int, ttl: int,
          max: nat) {
    exists kept :: MakesRoom(Live(before, now), kept, max) && after == kept[token := NewState(scope, now, ttl)]
  }

  function Taken(entries: Entries, token: string, tool: string, repository: string, now: int): Option<Continuation> {
    if token !in entries then None
    else
      var s := entries[token];
      if Expired(s, now) then None
      else if s.version != STATE_VERSION || s.scope.tool != tool || s.scope.repository != repository then None
      else Some(s.scope)
  }

  class Store {
    var entries: Entries
    const max: nat
    const ttl: int

    ghost predicate Valid()
      reads this
    {
      "" !in entries
    }

    constructor (max: nat, ttl: int)
      ensures Valid() && entries == map[] && this.max == max && this.ttl == ttl
    {
      this.max := max;
      this.ttl := ttl;
      entries := map[];
    }

    /** Tokens are random; a fresh one is handed in. */
    method Issue(token: string, scope: Continuation, now: int)
      requires Valid() && token != "" && token !in entries
      modifies this
      ensures Valid() && Issued(old(entries), entries, token, scope, now, ttl, max)
    {
      Prune(now);
      assert entries == Live(old(entries), now);
      ghost var live := entries;
      if |entries| >= max {
        EvictOldest();
      }
      assert MakesRoom(live, entries, max);
      entries := entries[token := NewState(scope, now, ttl)];
    }

    /** The token is consumed whatever the outcome. */
    method Take(token: string, tool: string, repository: string, now: int) returns (r: Option<Continuation>)
      requires Valid()
      modifies this
      ensures Valid() && entries == old(entries) - {token}
      ensures r == Taken(old(entries), token, tool, repository, now)
    {
      if token !in entries {
        return None;
      }
      var state := entries[token];
      entries := entries - {token};
      if Expired(state, now) {
        return None;
      }
      if state.version != STATE_VERSION || state.scope.tool != tool || state.scope.repository != repository {
        return None;
      }
      return Some(state.scope);
    }

    method Prune(now: int)
      requires Valid()
      modifies this
      ensures Valid() && entries == Live(old(entries), now)
      ensures entries == map t | t in old(entries) && now < old(entries)[t].expires :: old(entries)[t]
    {
      var rest := entries.Keys;
      while rest != {}
        invariant rest <= old(entries).Keys
        invariant entries ==
          map t | t in old(entries) && (t in rest || !Expired(old(entries)[t], now)) :: old(entries)[t]
        decreases rest
      {
        var t :| t in rest;
        rest := rest - {t};
        if Expired(entries[t], now) {
          entries := entries - {t};
        }
      }
    }

    method EvictOldest()
      requires Valid()
      modifies this
      ensures Valid()
      ensures old(entries) == map[] ==> entries == map[]
      ensures old(entries) != map[] ==> exists t :: Oldest(old(entries), t) && entries == old(entries) - {t}
    {
      var oldestToken := "";
      var oldestTime := 0;
      var rest := entries.Keys;
      while rest != {}
        invariant rest <= entries.Keys && entries == old(entries)
        invariant oldestToken == "" ==> rest == entries.Keys
        invariant oldestToken != "" ==> oldestToken in entries && oldestTime == entries[oldestToken].created
        invariant oldestToken != "" ==> forall t :: t in entries && t !in rest ==> oldestTime <= entries[t].created
        decreases rest
      {
        var t :| t in rest;
        rest := rest - {t};
        if oldestToken == "" || entries[t].created < oldestTime {
          oldestToken := t;
          oldestTime := entries[t].created;
        }
      }
      if oldestToken != "" {
        assert Oldest(entries, oldestToken);
        entries := entries - {oldestToken};
      } else {
        assert entries.Keys == {};
      }
    }
  }

  // ---------------------------------------------------------------- runs

  datatype Op =
    | IssueOp(token: string, scope: Continuation, now: int)
    | TakeOp(token: string, tool: string, repository: string, now: int)

  ghost predicate Next(before: Entries, op: Op, after: Entries, ttl: int, max: nat) {
    match op
    case IssueOp(token, scope, now) => Issued(before, after, token, scope, now, ttl, max)
    case TakeOp(token, _, _, _) => after == before - {token}
  }

  /** What a take returns in a run. */
  function ResultAt(ops: seq<Op>, states: seq<Entries>, i: nat): Option<Continuation>
    requires i < |ops| && i < |states| && ops[i].TakeOp?
  {
    Taken(states[i], ops[i].token, ops[i].tool, ops[i].repository, ops[i].now)
  }

  ghost predicate StepAt(ops: seq<Op>, states: seq<Entries>, ttl: int, max: nat, i: nat)
    requires |states| == |ops| + 1 && i < |ops|
  {
    Next(states[i], ops[i], states[i + 1], ttl, max)
  }

  /** Any sequence of issues and takes, at any times, in which no token is issued twice. */
  ghost predicate Run(ops: seq<Op>, states: seq<Entries>, ttl: int, max: nat) {
    && |states| == |ops| + 1 && states[0] == map[]
    && (forall i :: 0 <= i < |ops| ==> StepAt(ops, states, ttl, max, i))
    && (forall i, j :: 0 <= i < j < |ops| && ops[i].IssueOp? && ops[j].IssueOp? ==> ops[i].token != ops[j].token)
  }

  lemma RoomIsBounded(live: Entries, kept: Entries, max: nat)
    requires MakesRoom(live, kept, max) && max >= 1 && |live| <= max
    ensures |kept| < max && kept.Keys <= live.Keys && forall t :: t in kept ==> kept[t] == live[t]
  {
    if !(|live| < max || live == map[]) {
      var t :| Oldest(live, t) && kept == live - {t};
      assert kept.Keys == live.Keys - {t};
    }
  }

  lemma LiveIsSmaller(entries: Entries, now: int)
    ensures |Live(entries, now)| <= |entries|
  {
    assert Live(entries, now).Keys <= entries.Keys;
    SubsetSize(Live(entries, now).Keys, entries.Keys);
  }

  lemma StepIsBounded(before: Entries, op: Op, after: Entries, ttl: int, max: nat)
    requires Next(before, op, after, ttl, max) && max >= 1 && |before| <= max
    ensures |after| <= max
  {
    match op
    case IssueOp(token, scope, now) =>
      var kept :| MakesRoom(Live(before, now), kept, max) && after == kept[token := NewState(scope, now, ttl)];
      LiveIsSmaller(before, now);
      RoomIsBounded(Live(before, now), kept, max);
      assert after.Keys == kept.Keys + {token};
    case TakeOp(token, _, _, _) =>
      assert after.Keys == before.Keys - {token};
      SubsetSize(after.Keys, before.Keys);
  }

  /** The store never exceeds its bound. */
  lemma {:induction false} SizeIsBounded(ops: seq<Op>, states: seq<Entries>, ttl: int, max: nat, i: nat)
    requires Run(ops, states, ttl, max) && max >= 1 && i <= |ops|
    ensures |states[i]| <= max
  {
    if i > 0 {
      SizeIsBounded(ops, states, ttl, max, i - 1);
      assert StepAt(ops, states, ttl, max, i - 1);
      StepIsBounded(states[i - 1], ops[i - 1], states[i], ttl, max);
    }
  }

  /** One step: an entry is either the one just issued or was there before, unchanged. */
  lemma StepOrigin(before: Entries, op: Op, after: Entries, ttl: int, max: nat, t: string)
    requires Next(before, op, after, ttl, max) && t in after
    ensures (t in before && after[t] == before[t])
         || (op.IssueOp? && op.token == t && after[t] == NewState(op.scope, op.now, ttl))
  {
    if op.IssueOp? {
      var kept :| MakesRoom(Live(before, op.now), kept, max)
        && after == kept[op.token := NewState(op.scope, op.now, ttl)];
      if !(|Live(before, op.now)| < max || Live(before, op.now) == map[]) {
        var o :| Oldest(Live(before, op.now), o) && kept == Live(before, op.now) - {o};
      }
    }
  }

  lemma StepAbsent(before: Entries, op: Op, after: Entries, ttl: int, max: nat, t: string)
    requires Next(before, op, after, ttl, max) && t !in before && (op.IssueOp? ==> op.token != t)
    ensures t !in after
  {
    if t in after {
      StepOrigin(before, op, after, ttl, max, t);
    }
  }

  /** Every entry was issued, and holds what was issued. */
  lemma {:induction false} EntriesWereIssued(ops: seq<Op>, states: seq<Entries>, ttl: int, max: nat, i: nat, t: string)
    requires Run(ops, states, ttl, max) && i <= |ops| && t in states[i]
    ensures exists k :: 0 <= k < i && ops[k].IssueOp? && ops[k].token == t
              && states[i][t] == NewState(ops[k].scope, ops[k].now, ttl)
  {
    assert StepAt(ops, states, ttl, max, i - 1);
    StepOrigin(states[i - 1], ops[i - 1], states[i], ttl, max, t);
    if t in states[i - 1] && states[i][t] == states[i - 1][t] {
      EntriesWereIssued(ops, states, ttl, max, i - 1, t);
    } else {
      assert ops[i - 1].IssueOp?;
    }
  }

  /** A take that succeeds returns what was issued under its token, for the tool and repository it was
      issued for, and before it expired. */
  lemma TakeReturnsWhatWasIssued(ops: seq<Op>, states: seq<Entries>, ttl: int, max: nat, i: nat)
    requires Run(ops, states, ttl, max) && i < |ops| && ops[i].TakeOp?
    requires ResultAt(ops, states, i).Some?
    ensures var op := ops[i];
      exists k :: 0 <= k < i && ops[k].IssueOp? && ops[k].token == op.token
        && ResultAt(ops, states, i) == Some(ops[k].scope)
        && ops[k].scope.tool == op.tool && ops[k].scope.repository == op.repository
        && op.now < ops[k].now + ttl
  {
    EntriesWereIssued(ops, states, ttl, max, i, ops[i].token);
  }

  /** Once taken, a token is gone for good. */
  lemma {:induction false} TakenStaysGone(ops: seq<Op>, states: seq<Entries>, ttl: int, max: nat, i: nat, j: nat)
    requires Run(ops, states, ttl, max) && i < j <= |ops| && ops[i].TakeOp?
    requires exists k :: 0 <= k < i && ops[k].IssueOp? && ops[k].token == ops[i].token
    ensures ops[i].token !in states[j]
    decreases j
  {
    var t := ops[i].token;
    assert StepAt(ops, states, ttl, max, j - 1);
    if j > i + 1 {
      TakenStaysGone(ops, states, ttl, max, i, j - 1);
      var k :| 0 <= k < i && ops[k].IssueOp? && ops[k].token == t;
      assert ops[j - 1].IssueOp? ==> ops[k].token != ops[j - 1].token;
      StepAbsent(states[j - 1], ops[j - 1], states[j], ttl, max, t);
    }
  }

  /** Each token succeeds at most once. */
  lemma TokensAreSingleUse(ops: seq<Op>, states: seq<Entries>, ttl: int, max: nat, i: nat, j: nat)
    requires Run(ops, states, ttl, max) && i < j < |ops| && ops[i].TakeOp? && ops[j].TakeOp?
    requires ops[i].token == ops[j].token && ResultAt(ops, states, i).Some?
    ensures ResultAt(ops, states, j) == None
  {
    TakeReturnsWhatWasIssued(ops, states, ttl, max, i);
    TakenStaysGone(ops, states, ttl, max, i, j);
  }

  // ---------------------------------------------------------------- survival

  /** How many cursors were issued from operation `i` up to operation `j - 1`. */
  function IssuesBetween(ops: seq<Op>, i: nat, j: nat): nat
    requires i <= j <= |ops|
    decreases j
  {
    if i == j then 0 else IssuesBetween(ops, i, j - 1) + if ops[j - 1].IssueOp? then 1 else 0
  }

  /** The tokens that entered the store after `base`, other than `t`. */
  ghost function Newcomers(entries: Entries, base: Entries, t: string): set<string> {
    entries.Keys - base.Keys - {t}
  }

  /** `t` is younger than everything that was in the store when it was issued. */
  ghost predicate Youngest(base: Entries, t: string) {
    t in base && forall u :: u in base && u != t ==> base[u].created < base[t].created
  }

  /** One issue with few newcomers does not push `t` out. */
  lemma IssueSparesToken(base: Entries, before: Entries, op: Op, after: Entries, ttl: int, max: nat, t: string)
    requires Next(before, op, after, ttl, max) && op.IssueOp? && op.token != t
    requires Youngest(base, t) && t in before && before[t] == base[t]
    requires forall u :: u in before && u in base ==> before[u] == base[u]
    requires |Newcomers(before, base, t)| + 2 <= max && op.now < base[t].expires
    ensures t in after && after[t] == base[t]
  {
    var live := Live(before, op.now);
    var kept :| MakesRoom(live, kept, max) && after == kept[op.token := NewState(op.scope, op.now, ttl)];
    if !(|live| < max || live == map[]) {
      var o :| Oldest(live, o) && kept == live - {o};
      if o == t {
        OldestAmongNewcomers(base, before, live, t);
      }
    }
  }

  /** If the youngest token is the oldest live entry, all other live entries came after it. */
  lemma OldestAmongNewcomers(base: Entries, before: Entries, live: Entries, t: string)
    requires Youngest(base, t) && t in before && before[t] == base[t]
    requires forall u :: u in before && u in base ==> before[u] == base[u]
    requires forall u :: u in live ==> u in before && live[u] == before[u]
    requires Oldest(live, t)
    ensures |live| <= |Newcomers(before, base, t)| + 1
  {
    forall u | u in live.Keys - {t} ensures u in Newcomers(before, base, t) {
      assert live[t].created <= live[u].created;
    }
    SubsetSize(live.Keys - {t}, Newcomers(before, base, t));
    assert |live.Keys - {t}| == |live| - 1;
  }

  /** What survival means, relative to the store `base` in which `t` was issued. */
  ghost predicate Survived(base: Entries, now: Entries, t: string, issues: nat) {
    && t in base && t in now && now[t] == base[t]
    && (forall u :: u in now && u in base ==> now[u] == base[u])
    && |Newcomers(now, base, t)| <= issues
  }

  lemma SurvivalStep(base: Entries, before: Entries, op: Op, after: Entries, ttl: int, max: nat, t: string, issues: nat)
    requires Next(before, op, after, ttl, max) && op.token != t && op.token !in base
    requires Youngest(base, t) && Survived(base, before, t, issues)
    requires op.IssueOp? && issues + 2 <= max && op.now < base[t].expires
    ensures Survived(base, after, t, issues + 1)
  {
    IssueSparesToken(base, before, op, after, ttl, max, t);
    NewcomersStep(before, op, after, base, ttl, max, t);
    forall u | u in after && u in base ensures after[u] == base[u] {
      StepOrigin(before, op, after, ttl, max, u);
    }
  }

  lemma SurvivalOfTake(base: Entries, before: Entries, after: Entries, taken: string, t: string, issues: nat)
    requires after == before - {taken} && taken != t && Survived(base, before, t, issues)
    ensures Survived(base, after, t, issues)
  {
    SubsetSize(Newcomers(after, base, t), Newcomers(before, base, t));
  }

  /** An operation that leaves `t` alone: no take of it, and no issue once it has expired. */
  ghost predicate Spares(base: Entries, op: Op, t: string) {
    op.token != t && (op.IssueOp? ==> op.token !in base && t in base && op.now < base[t].expires)
  }

  /** Between `i` and `j` nobody takes the token issued at `i`, and nothing is issued once it has expired. */
  ghost predicate Undisturbed(ops: seq<Op>, ttl: int, i: nat, j: nat)
    requires i < j <= |ops|
  {
    forall k :: i < k < j ==>
      && (ops[k].TakeOp? ==> ops[k].token != ops[i].token)
      && (ops[k].IssueOp? ==> ops[k].now < ops[i].now + ttl)
  }

  lemma IssuesDiffer(ops: seq<Op>, states: seq<Entries>, ttl: int, max: nat, i: nat, k: nat)
    requires Run(ops, states, ttl, max) && i < k < |ops| && ops[i].IssueOp? && ops[k].IssueOp?
    ensures ops[k].token != ops[i].token && ops[k].token !in states[i + 1]
  {
    NotIssuedBefore(ops, states, ttl, max, i + 1, k);
  }

  lemma OperationSpares(ops: seq<Op>, states: seq<Entries>, ttl: int, max: nat, i: nat, k: nat)
    requires Run(ops, states, ttl, max) && i < k < |ops| && ops[i].IssueOp? && Undisturbed(ops, ttl, i, k + 1)
    ensures Spares(states[i + 1], ops[k], ops[i].token)
  {
    if ops[k].IssueOp? {
      IssuedFresh(ops, states, ttl, max, i);
      IssuesDiffer(ops, states, ttl, max, i, k);
    }
  }

  lemma SurvivesOne(ops: seq<Op>, states: seq<Entries>, ttl: int, max: nat, i: nat, k: nat, issues: nat, issues': nat)
    requires Run(ops, states, ttl, max) && i < k < |ops| && ops[i].IssueOp? && Undisturbed(ops, ttl, i, k + 1)
    requires Youngest(states[i + 1], ops[i].token) && Survived(states[i + 1], states[k], ops[i].token, issues)
    requires issues' == issues + (if ops[k].IssueOp? then 1 else 0) && issues' + 1 <= max
    ensures Survived(states[i + 1], states[k + 1], ops[i].token, issues')
  {
    OperationSpares(ops, states, ttl, max, i, k);
    assert StepAt(ops, states, ttl, max, k);
    if ops[k].IssueOp? {
      SurvivalStep(states[i + 1], states[k], ops[k], states[k + 1], ttl, max, ops[i].token, issues);
    } else {
      SurvivalOfTake(states[i + 1], states[k], states[k + 1], ops[k].token, ops[i].token, issues);
    }
  }

  lemma SurvivesAtFirst(base: Entries, t: string)
    requires t in base
    ensures Survived(base, base, t, 0)
  {
    assert Newcomers(base, base, t) == {};
  }

  lemma {:induction false} TokenStays(ops: seq<Op>, states: seq<Entries>, ttl: int, max: nat, i: nat, j: nat)
    requires Run(ops, states, ttl, max) && i < j <= |ops| && ops[i].IssueOp?
    requires Youngest(states[i + 1], ops[i].token) && Undisturbed(ops, ttl, i, j)
    requires IssuesBetween(ops, i + 1, j) + 1 <= max
    ensures Survived(states[i + 1], states[j], ops[i].token, IssuesBetween(ops, i + 1, j))
    decreases j
  {
    if j == i + 1 {
      SurvivesAtFirst(states[j], ops[i].token);
    } else {
      assert Undisturbed(ops, ttl, i, j - 1);
      TokenStays(ops, states, ttl, max, i, j - 1);
      SurvivesOne(ops, states, ttl, max, i, j - 1, IssuesBetween(ops, i + 1, j - 1), IssuesBetween(ops, i + 1, j));
    }
  }

  /** A token that is younger than what it found in the store survives the next `max - 1` issues, as long
      as nobody takes it and it has not expired, and a take in its own scope then returns what was issued.
      Later clocks may run as they like. */
  lemma TokenSurvives(ops: seq<Op>, states: seq<Entries>, ttl: int, max: nat, i: nat, j: nat)
    requires Run(ops, states, ttl, max) && i < j <= |ops| && ops[i].IssueOp?
    requires Youngest(states[i + 1], ops[i].token) && Undisturbed(ops, ttl, i, j)
    requires IssuesBetween(ops, i + 1, j) + 1 <= max
    ensures var t, scope := ops[i].token, ops[i].scope;
      && t in states[j] && states[j][t] == NewState(scope, ops[i].now, ttl)
      && forall now :: now < ops[i].now + ttl ==> Taken(states[j], t, scope.tool, scope.repository, now) == Some(scope)
  {
    TokenStays(ops, states, ttl, max, i, j);
    IssuedFresh(ops, states, ttl, max, i);
  }

  lemma NotIssuedBefore(ops: seq<Op>, states: seq<Entries>, ttl: int, max: nat, i: nat, j: nat)
    requires Run(ops, states, ttl, max) && i <= j < |ops| && ops[j].IssueOp?
    ensures ops[j].token !in states[i]
  {
    if ops[j].token in states[i] {
      EntriesWereIssued(ops, states, ttl, max, i, ops[j].token);
    }
  }

  lemma IssuedFresh(ops: seq<Op>, states: seq<Entries>, ttl: int, max: nat, i: nat)
    requires Run(ops, states, ttl, max) && i < |ops| && ops[i].IssueOp?
    ensures ops[i].token in states[i + 1] && states[i + 1][ops[i].token] == NewState(ops[i].scope, ops[i].now, ttl)
  {
    assert StepAt(ops, states, ttl, max, i);
  }

  lemma NewcomersStep(before: Entries, op: Op, after: Entries, base: Entries, ttl: int, max: nat, t: string)
    requires Next(before, op, after, ttl, max) && op.IssueOp?
    ensures |Newcomers(after, base, t)| <= |Newcomers(before, base, t)| + 1
  {
    forall u | u in Newcomers(after, base, t) ensures u in Newcomers(before, base, t) + {op.token} {
      StepOrigin(before, op, after, ttl, max, u);
    }
    SubsetSize(Newcomers(after, base, t), Newcomers(before, base, t) + {op.token});
  }

  // ---------------------------------------------------------------- eviction

  /** One issue may push a live token out exactly when there is no room and no live entry is older. */
  lemma IssueMayEvict(before: Entries, token: string, scope: Continuation, now: int, ttl: int, max: nat, t: string)
    requires t in Live(before, now) && token != t
    ensures (exists after :: Issued(before, after, token, scope, now, ttl, max) && t !in after)
       <==> |Live(before, now)| >= max && Oldest(Live(before, now), t)
  {
    var live := Live(before, now);
    if |live| >= max && Oldest(live, t) {
      var after := (live - {t})[token := NewState(scope, now, ttl)];
      assert MakesRoom(live, live - {t}, max);
      assert Issued(before, after, token, scope, now, ttl, max);
    }
    if after :| Issued(before, after, token, scope, now, ttl, max) && t !in after {
      var kept :| MakesRoom(live, kept, max) && after == kept[token := NewState(scope, now, ttl)];
      assert t !in kept;
    }
  }

  /** A string longer than every token used so far. */
  function Longer(ops: seq<Op>): string {
    if ops == [] then "x" else Longer(ops[..|ops| - 1]) + ops[|ops| - 1].token + "x"
  }

  lemma {:induction false} LongerIsFresh(ops: seq<Op>, k: nat)
    requires k < |ops|
    ensures |ops[k].token| < |Longer(ops)|
  {
    if k < |ops| - 1 {
      LongerIsFresh(ops[..|ops| - 1], k);
    }
  }

  /** One more issue, under a fresh token. */
  lemma RunGrows(ops: seq<Op>, states: seq<Entries>, ttl: int, max: nat, op: Op, after: Entries)
    requires Run(ops, states, ttl, max) && op.IssueOp? && op.token == Longer(ops)
    requires Next(states[|ops|], op, after, ttl, max)
    ensures Run(ops + [op], states + [after], ttl, max)
  {
    var ops', states' := ops + [op], states + [after];
    forall k | 0 <= k < |ops'| ensures StepAt(ops', states', ttl, max, k) {
      assert k < |ops| ==> StepAt(ops, states, ttl, max, k);
    }
    forall k, j | 0 <= k < j < |ops'| && ops'[k].IssueOp? && ops'[j].IssueOp? ensures ops'[k].token != ops'[j].token {
      if j == |ops| {
        LongerIsFresh(ops, k);
      }
    }
  }

  lemma {:induction false} IssuesGrow(ops: seq<Op>, op: Op, i: nat, j: nat)
    requires i <= j <= |ops|
    ensures IssuesBetween(ops + [op], i, j) == IssuesBetween(ops, i, j)
    decreases j
  {
    if i < j {
      IssuesGrow(ops, op, i, j - 1);
    }
  }

  lemma LongerIsAbsent(ops: seq<Op>, states: seq<Entries>, ttl: int, max: nat)
    requires Run(ops, states, ttl, max)
    ensures Longer(ops) !in states[|ops|]
  {
    if Longer(ops) in states[|ops|] {
      EntriesWereIssued(ops, states, ttl, max, |ops|, Longer(ops));
      var k :| 0 <= k < |ops| && ops[k].token == Longer(ops);
      LongerIsFresh(ops, k);
    }
  }

  /** The live entries that are strictly older than `t`. */
  function Older(live: Entries, t: string): set<string>
    requires t in live
  {
    set u | u in live && live[u].created < live[t].created
  }

  lemma {:induction false} SomeOldest(entries: Entries) returns (o: string)
    requires entries != map[]
    ensures Oldest(entries, o)
    decreases |entries|
  {
    var first :| first in entries;
    o := first;
    var rest := entries - {first};
    assert rest.Keys == entries.Keys - {first};
    assert forall u :: u in entries ==> u == first || (u in rest && rest[u] == entries[u]);
    if rest != map[] {
      var p := SomeOldest(rest);
      o := if entries[p].created < entries[first].created then p else first;
    }
  }

  /** Evicting an oldest entry takes one of the older ones. */
  lemma OlderLosesOne(live: Entries, o: string, t: string)
    requires t in live && Oldest(live, o) && Older(live, t) != {}
    ensures o != t && t in live - {o} && |live - {o}| == |live| - 1
    ensures |Older(live - {o}, t)| == |Older(live, t)| - 1
  {
    var u :| u in Older(live, t);
    assert live[o].created <= live[u].created;
    assert (live - {o}).Keys == live.Keys - {o};
    assert Older(live - {o}, t) == Older(live, t) - {o};
  }

  /** Issuing at the time `t` was created makes room without losing `t`, as long as there is room or an
      older live entry: then one entry more is live, or one older entry less. */
  lemma MakesProgress(before: Entries, token: string, scope: Continuation, now: int, ttl: int, max: nat, t: string)
      returns (after: Entries)
    requires t in before && before[t].created == now && ttl > 0 && token !in before && t in Live(before, now)
    requires var live := Live(before, now);
      |live| <= max && (|live| < max || Older(live, t) != {})
    ensures Issued(before, after, token, scope, now, ttl, max)
    ensures var live, live' := Live(before, now), Live(after, now);
      && t in after && after[t] == before[t] && t in live' && |live'| <= max
      && |live'| - |Older(live', t)| == |live| - |Older(live, t)| + 1
  {
    var live := Live(before, now);
    var kept := live;
    if |live| >= max {
      var o := SomeOldest(live);
      OlderLosesOne(live, o, t);
      kept := live - {o};
    }
    assert MakesRoom(live, kept, max);
    after := kept[token := NewState(scope, now, ttl)];
    GrowsByOne(kept, token, scope, now, ttl, t);
  }

  lemma GrowsByOne(kept: Entries, token: string, scope: Continuation, now: int, ttl: int, t: string)
    requires t in kept && kept[t].created == now && token !in kept && ttl > 0
    requires forall u :: u in kept ==> !Expired(kept[u], now)
    ensures var after := kept[token := NewState(scope, now, ttl)];
      && Live(after, now) == after && |after| == |kept| + 1
      && Older(after, t) == Older(kept, t)
  {
    var after := kept[token := NewState(scope, now, ttl)];
    assert after.Keys == kept.Keys + {token};
  }

  /** The run `ops'` continues `ops`, and after it `t`, issued at `i`, is gone without having been taken. */
  ghost predicate PushedOut(ops: seq<Op>, states: seq<Entries>, ttl: int, max: nat, i: nat, ops': seq<Op>,
          states': seq<Entries>)
    requires i < |ops|
  {
    && Run(ops', states', ttl, max) && ops <= ops' && states <= states'
    && Undisturbed(ops', ttl, i, |ops'|) && ops[i].token !in states'[|ops'|]
  }

  /** Fresh issues at the time `t` was created push it out: they fill the store, then evict what is older,
      and then `t`. */
  lemma {:induction false} PushOut(ops: seq<Op>, states: seq<Entries>, ttl: int, max: nat, i: nat, need: nat)
      returns (ops': seq<Op>, states': seq<Entries>)
    requires Run(ops, states, ttl, max) && ttl > 0 && i < |ops| && ops[i].IssueOp? && Undisturbed(ops, ttl, i, |ops|)
    requires ops[i].token in states[|ops|] && states[|ops|][ops[i].token] == NewState(ops[i].scope, ops[i].now, ttl)
    requires var live := Live(states[|ops|], ops[i].now);
      |live| <= max && need == max - |live| + |Older(live, ops[i].token)| + 1
    ensures PushedOut(ops, states, ttl, max, i, ops', states')
    ensures IssuesBetween(ops', i + 1, |ops'|) == IssuesBetween(ops, i + 1, |ops|) + need
    decreases need
  {
    var t, now, cur := ops[i].token, ops[i].now, states[|ops|];
    var live := Live(cur, now);
    var op := IssueOp(Longer(ops), ops[i].scope, now);
    LongerIsFresh(ops, i);
    IssuesGrow(ops, op, i + 1, |ops|);
    LongerIsAbsent(ops, states, ttl, max);
    var after;
    if |live| >= max && Older(live, t) == {} {
      assert Oldest(live, t) by {
        assert forall u :: u in live ==> u !in Older(live, t);
      }
      after := (live - {t})[op.token := NewState(op.scope, now, ttl)];
      assert MakesRoom(live, live - {t}, max);
      RunGrows(ops, states, ttl, max, op, after);
      ops', states' := ops + [op], states + [after];
    } else {
      after := MakesProgress(cur, op.token, op.scope, now, ttl, max, t);
      RunGrows(ops, states, ttl, max, op, after);
      ops', states' := PushOut(ops + [op], states + [after], ttl, max, i, need - 1);
    }
  }

  /** Whatever is issued and taken after `ops`, whose last operation issued a token: as long as nobody
      takes that token, it has not expired and fewer than `max` others were issued, it is still there. */
  ghost predicate AlwaysKept(ops: seq<Op>, states: seq<Entries>, ttl: int, max: nat)
    requires ops != []
  {
    forall ops', states' :: Run(ops', states', ttl, max) && ops <= ops' && states <= states'
      && Undisturbed(ops', ttl, |ops| - 1, |ops'|) && IssuesBetween(ops', |ops|, |ops'|) + 1 <= max
      ==> ops[|ops| - 1].token in states'[|ops'|]
  }

  lemma NotYoungest(ops: seq<Op>, states: seq<Entries>, ttl: int, max: nat) returns (ops': seq<Op>,
          states': seq<Entries>)
    requires Run(ops, states, ttl, max) && ops != [] && ops[|ops| - 1].IssueOp? && ttl > 0 && max >= 1
    requires !Youngest(states[|ops|], ops[|ops| - 1].token)
    ensures PushedOut(ops, states, ttl, max, |ops| - 1, ops', states')
    ensures IssuesBetween(ops', |ops|, |ops'|) + 1 <= max
  {
    var i, base := |ops| - 1, states[|ops|];
    var t, now := ops[i].token, ops[i].now;
    IssuedFresh(ops, states, ttl, max, i);
    var u :| u in base && u != t && base[u].created >= base[t].created;
    EntriesWereIssued(ops, states, ttl, max, |ops|, u);
    SizeIsBounded(ops, states, ttl, max, |ops|);
    LiveIsSmaller(base, now);
    var live := Live(base, now);
    assert t in live && u in live;
    TwoAreNotOlder(live, t, u);
    ops', states' := PushOut(ops, states, ttl, max, i, max - |live| + |Older(live, t)| + 1);
  }

  lemma TwoAreNotOlder(live: Entries, t: string, u: string)
    requires t in live && u in live && t != u && live[u].created >= live[t].created
    ensures |Older(live, t)| + 2 <= |live|
  {
    SubsetSize(Older(live, t) + {t, u}, live.Keys);
    assert t !in Older(live, t) && u !in Older(live, t) + {t};
    assert Older(live, t) + {t, u} == Older(live, t) + {t} + {u};
  }

  /** A token just issued survives every next `max - 1` issues exactly when it is younger than everything
      it found in the store. */
  lemma KeptIffYoungest(ops: seq<Op>, states: seq<Entries>, ttl: int, max: nat)
    requires Run(ops, states, ttl, max) && ops != [] && ops[|ops| - 1].IssueOp? && ttl > 0 && max >= 1
    ensures AlwaysKept(ops, states, ttl, max) <==> Youngest(states[|ops|], ops[|ops| - 1].token)
  {
    if Youngest(states[|ops|], ops[|ops| - 1].token) {
      forall ops', states' | Run(ops', states', ttl, max) && ops <= ops' && states <= states'
          && Undisturbed(ops', ttl, |ops| - 1, |ops'|) && IssuesBetween(ops', |ops|, |ops'|) + 1 <= max
        ensures ops[|ops| - 1].token in states'[|ops'|]
      {
        TokenSurvives(ops', states', ttl, max, |ops| - 1, |ops'|);
      }
    } else {
      var ops', states' := NotYoungest(ops, states, ttl, max);
    }
  }

  // ---------------------------------------------------------------- a tie

  function TieOps(a: string, b: string, c: string, scope: Continuation, now: int): seq<Op> {
    [IssueOp(a, scope, now), IssueOp(b, scope, now), IssueOp(c, scope, now)]
  }

  function TieStates(a: string, b: string, c: string, s: State): seq<Entries> {
    [map[], map[a := s], map[a := s, b := s], map[a := s, c := s]]
  }

  lemma TieSteps(a: string, b: string, c: string, scope: Continuation, now: int, ttl: int)
    requires a != b && b != c && a != c && ttl > 0
    ensures var s := NewState(scope, now, ttl);
      && Issued(map[], map[a := s], a, scope, now, ttl, 2)
      && Issued(map[a := s], map[a := s, b := s], b, scope, now, ttl, 2)
      && Issued(map[a := s, b := s], map[a := s, c := s], c, scope, now, ttl, 2)
  {
    var s := NewState(scope, now, ttl);
    var s0: Entries := map[];
    var s1: Entries := map[a := s];
    var s2: Entries := map[a := s, b := s];
    assert Live(s0, now) == s0 && Live(s1, now) == s1 && Live(s2, now) == s2;
    assert MakesRoom(s0, s0, 2) && s1 == s0[a := s];
    assert |s1| == 1 && MakesRoom(s1, s1, 2) && s2 == s1[b := s];
    assert |s2| == 2 by { assert s2.Keys == {a, b}; }
    assert Oldest(s2, b) && s2 - {b} == s1;
    assert MakesRoom(s2, s1, 2);
  }

  lemma TieStepAt(a: string, b: string, c: string, scope: Continuation, now: int, ttl: int, i: nat)
    requires a != b && b != c && a != c && ttl > 0 && i < 3
    ensures StepAt(TieOps(a, b, c, scope, now), TieStates(a, b, c, NewState(scope, now, ttl)), ttl, 2, i)
  {
    TieSteps(a, b, c, scope, now, ttl);
  }

  /** The age condition is needed: two cursors issued at the same instant are equally old, and the next
      issue may evict either, the younger one included, although the store holds two. */
  lemma TiesMayEvictEarly(a: string, b: string, c: string, scope: Continuation, now: int, ttl: int)
    requires a != b && b != c && a != c && ttl > 0
    ensures Run(TieOps(a, b, c, scope, now), TieStates(a, b, c, NewState(scope, now, ttl)), ttl, 2)
    ensures b !in TieStates(a, b, c, NewState(scope, now, ttl))[3]
  {
    var ops, states := TieOps(a, b, c, scope, now), TieStates(a, b, c, NewState(scope, now, ttl));
    forall i: nat | i < 3 ensures StepAt(ops, states, ttl, 2, i) {
      TieStepAt(a, b, c, scope, now, ttl, i);
    }
  }
}
