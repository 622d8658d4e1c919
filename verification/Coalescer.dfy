/** Coalescing of identical in-flight metadata commands: callers share a call, count themselves in and
    out, and the last one to leave cancels it. */
module Coalescer {
  import opened Basics

  datatype Outcome = Ok(output: string) | Err(code: string)

  /** A shared call. Its waiters hold references; `done` is the channel its leader closes. */
  datatype Call = Call(key: string, refs: int, done: bool, cancelled: bool, outcome: Option<Outcome>)

  /** The registered calls by key, and every call ever made; calls are named by their index. */
  datatype State = State(calls: map<string, nat>, table: seq<Call>)

  // ---------------------------------------------------------------- the critical sections

  /** Every registered call is one of those made. */
  ghost predicate CallsExist(s: State) {
    forall k :: k in s.calls ==> s.calls[k] < |s.table|
  }

  function JoinCall(s: State, key: string): nat {
    if key in s.calls then s.calls[key] else |s.table|
  }

  function Join(s: State, key: string): State
    requires CallsExist(s)
  {
    if key in s.calls then
      var c := s.calls[key];
      s.(table := s.table[c := s.table[c].(refs := s.table[c].refs + 1)])
    else
      State(s.calls[key := |s.table|], s.table + [Call(key, 1, false, false, None)])
  }

  function Release(s: State, key: string, c: nat): State
    requires c < |s.table|
  {
    var call := s.table[c].(refs := s.table[c].refs - 1);
    if call.refs > 0 || call.done then s.(table := s.table[c := call])
    else State(if key in s.calls && s.calls[key] == c then s.calls - {key} else s.calls,
               s.table[c := call.(cancelled := true)])
  }

  function Finish(s: State, key: string, c: nat, outcome: Outcome): State
    requires c < |s.table|
  {
    State(s.calls - {key}, s.table[c := s.table[c].(outcome := Some(outcome), done := true, cancelled := true)])
  }

  class MetadataCoalescer {
    var calls: map<string, nat>
    var table: seq<Call>

    ghost function Abstract(): State
      reads this
    {
      State(calls, table)
    }

    ghost predicate Valid()
      reads this
    {
      CallsExist(State(calls, table))
    }

    constructor ()
      ensures Valid() && Abstract() == State(map[], [])
    {
      calls, table := map[], [];
    }

    method JoinKey(key: string) returns (c: nat, leader: bool)
      requires Valid()
      modifies this
      ensures Valid() && c < |table|
      ensures c == JoinCall(old(Abstract()), key) && (leader <==> key !in old(calls))
      ensures Abstract() == Join(old(Abstract()), key)
    {
      if key in calls {
        c := calls[key];
        table := table[c := table[c].(refs := table[c].refs + 1)];
        return c, false;
      }
      c := |table|;
      table := table + [Call(key, 1, false, false, None)];
      calls := calls[key := c];
      leader := true;
    }

    method ReleaseCall(key: string, c: nat)
      requires Valid() && c < |table|
      modifies this
      ensures Valid() && Abstract() == Release(old(Abstract()), key, c)
    {
      table := table[c := table[c].(refs := table[c].refs - 1)];
      if table[c].refs > 0 {
        return;
      }
      if table[c].done {
        return;
      }
      if key in calls && calls[key] == c {
        calls := calls - {key};
      }
      table := table[c := table[c].(cancelled := true)];
    }

    method FinishCall(key: string, c: nat, outcome: Outcome)
      requires Valid() && c < |table|
      modifies this
      ensures Valid() && Abstract() == Finish(old(Abstract()), key, c, outcome)
    {
      table := table[c := table[c].(outcome := Some(outcome))];
      calls := calls - {key};
      table := table[c := table[c].(done := true)];
      table := table[c := table[c].(cancelled := true)];
    }
  }

  // ---------------------------------------------------------------- callers and leaders

  /** A caller waits on its call, then leaves because it saw `done` or because its own context ended,
      and gives its reference back in a separate step. */
  datatype Phase = Waiting | Leaving(sawDone: bool) | Left(sawDone: bool)

  datatype Caller = Caller(key: string, call: nat, phase: Phase)

  /** `leaders` maps every call whose leader is still at work to the key it was started for. */
  datatype System = System(state: State, callers: map<nat, Caller>, leaders: map<nat, string>)

  datatype Action =
    | Arrive(caller: nat, key: string)
    | SeeDone(caller: nat)
    | GiveUp(caller: nat)
    | LetGo(caller: nat)
    | Complete(call: nat, outcome: Outcome)

  const START := System(State(map[], []), map[], map[])

  ghost predicate Formed(s: System) {
    && CallsExist(s.state)
    && (forall p :: p in s.callers ==> s.callers[p].call < |s.state.table|)
    && (forall c :: c in s.leaders ==> c < |s.state.table|)
  }

  ghost predicate Enabled(s: System, a: Action)
    requires Formed(s)
  {
    match a
    case Arrive(p, _) => p !in s.callers
    case SeeDone(p) => p in s.callers && s.callers[p].phase == Waiting && s.state.table[s.callers[p].call].done
    case GiveUp(p) => p in s.callers && s.callers[p].phase == Waiting
    case LetGo(p) => p in s.callers && s.callers[p].phase.Leaving?
    case Complete(c, _) => c in s.leaders
  }

  ghost function Apply(s: System, a: Action): System
    requires Formed(s) && Enabled(s, a)
  {
    match a
    case Arrive(p, key) =>
      var c := JoinCall(s.state, key);
      System(Join(s.state, key), s.callers[p := Caller(key, c, Waiting)],
             if key in s.state.calls then s.leaders else s.leaders[c := key])
    case SeeDone(p) => s.(callers := s.callers[p := s.callers[p].(phase := Leaving(true))])
    case GiveUp(p) => s.(callers := s.callers[p := s.callers[p].(phase := Leaving(false))])
    case LetGo(p) =>
      var caller := s.callers[p];
      s.(state := Release(s.state, caller.key, caller.call),
         callers := s.callers[p := caller.(phase := Left(caller.phase.sawDone))])
    case Complete(c, outcome) =>
      s.(state := Finish(s.state, s.leaders[c], c, outcome), leaders := s.leaders - {c})
  }

  // ---------------------------------------------------------------- the invariant

  predicate Holds(caller: Caller, c: nat) {
    caller.call == c && !caller.phase.Left?
  }

  /** The callers that still hold a reference to call `c`. */
  function Holders(callers: map<nat, Caller>, c: nat): set<nat> {
    set p | p in callers && Holds(callers[p], c)
  }

  ghost predicate RegisteredIsLive(s: State, k: string)
    requires k in s.calls
  {
    var c := s.calls[k];
    c < |s.table| && s.table[c].key == k && s.table[c].refs >= 1 && !s.table[c].done && !s.table[c].cancelled
  }

  ghost predicate RegisteredAreLive(s: System) {
    forall k :: k in s.state.calls ==> RegisteredIsLive(s.state, k)
  }

  ghost predicate RefsCountHolders(s: System) {
    forall c :: 0 <= c < |s.state.table| ==> s.state.table[c].refs == |Holders(s.callers, c)|
  }

  /** A shared context is cancelled exactly when its call is done or nobody waits on it. */
  ghost predicate CancelledIffUnneeded(s: System) {
    forall c :: 0 <= c < |s.state.table| ==>
      (s.state.table[c].cancelled <==> s.state.table[c].done || s.state.table[c].refs == 0)
  }

  predicate KnowsItsCall(caller: Caller, table: seq<Call>) {
    caller.call < |table| && table[caller.call].key == caller.key
    && (!caller.phase.Waiting? && caller.phase.sawDone ==> table[caller.call].done)
  }

  ghost predicate CallersKnowTheirCall(s: System) {
    forall p :: p in s.callers ==> KnowsItsCall(s.callers[p], s.state.table)
  }

  /** A call is done exactly when its leader has finished, which is when it has an outcome. */
  ghost predicate LeadersFinishOnce(s: System) {
    forall c :: 0 <= c < |s.state.table| ==>
      && (c in s.leaders <==> !s.state.table[c].done)
      && (s.state.table[c].done <==> s.state.table[c].outcome.Some?)
  }

  ghost predicate LeadersKnowTheirCall(s: System) {
    forall c :: c in s.leaders ==> c < |s.state.table| && s.leaders[c] == s.state.table[c].key
  }

  ghost predicate Inv(s: System) {
    && RegisteredAreLive(s)
    && RefsCountHolders(s)
    && CancelledIffUnneeded(s)
    && CallersKnowTheirCall(s)
    && LeadersFinishOnce(s)
    && LeadersKnowTheirCall(s)
  }

  lemma HoldersAfter(callers: map<nat, Caller>, p: nat, caller: Caller, c: nat)
    ensures Holders(callers[p := caller], c)
         == if Holds(caller, c) then Holders(callers, c) + {p} else Holders(callers, c) - {p}
  {
  }

  lemma RefsAfterArrive(s: System, a: Action, c: nat)
    requires Inv(s) && Enabled(s, a) && a.Arrive? && c < |Apply(s, a).state.table|
    ensures Apply(s, a).state.table[c].refs == |Holders(Apply(s, a).callers, c)|
  {
    HoldersAfter(s.callers, a.caller, Apply(s, a).callers[a.caller], c);
    if c >= |s.state.table| {
      assert Holders(s.callers, c) == {};
    } else {
      assert s.state.table[c].refs == |Holders(s.callers, c)|;
    }
  }

  lemma RefsAfterLetGo(s: System, a: Action, c: nat)
    requires Inv(s) && Enabled(s, a) && a.LetGo? && c < |Apply(s, a).state.table|
    ensures Apply(s, a).state.table[c].refs == |Holders(Apply(s, a).callers, c)|
  {
    HoldersAfter(s.callers, a.caller, Apply(s, a).callers[a.caller], c);
    assert s.state.table[c].refs == |Holders(s.callers, c)|;
    assert a.caller in Holders(s.callers, c) <==> c == s.callers[a.caller].call;
  }

  lemma RefsAfter(s: System, a: Action, c: nat)
    requires Inv(s) && Enabled(s, a) && c < |Apply(s, a).state.table|
    ensures Apply(s, a).state.table[c].refs == |Holders(Apply(s, a).callers, c)|
  {
    match a
    case Arrive(_, _) => RefsAfterArrive(s, a, c);
    case LetGo(_) => RefsAfterLetGo(s, a, c);
    case Complete(_, _) => assert s.state.table[c].refs == |Holders(s.callers, c)|;
    case SeeDone(p) => HoldersUnchanged(s, p, Leaving(true), c);
    case GiveUp(p) => HoldersUnchanged(s, p, Leaving(false), c);
  }

  lemma HoldersUnchanged(s: System, p: nat, phase: Phase, c: nat)
    requires RefsCountHolders(s) && c < |s.state.table|
    requires p in s.callers && s.callers[p].phase.Waiting? && phase.Leaving?
    ensures s.state.table[c].refs == |Holders(s.callers[p := s.callers[p].(phase := phase)], c)|
  {
    HoldersAfter(s.callers, p, s.callers[p].(phase := phase), c);
    assert s.state.table[c].refs == |Holders(s.callers, c)|;
    assert Holders(s.callers[p := s.callers[p].(phase := phase)], c) == Holders(s.callers, c);
  }

  /** Reference counts keep up with the callers in every step. */
  lemma StepKeepsRefs(s: System, a: Action)
    requires Inv(s) && Enabled(s, a)
    ensures RefsCountHolders(Apply(s, a))
  {
    forall c | 0 <= c < |Apply(s, a).state.table|
      ensures Apply(s, a).state.table[c].refs == |Holders(Apply(s, a).callers, c)|
    {
      RefsAfter(s, a, c);
    }
  }

  lemma LiveAfterJoin(s: State, key: string, k: string)
    requires CallsExist(s) && k in Join(s, key).calls && (k in s.calls ==> RegisteredIsLive(s, k))
    ensures RegisteredIsLive(Join(s, key), k)
  {
  }

  lemma LiveAfterRelease(s: State, key: string, c: nat, k: string)
    requires c < |s.table| && s.table[c].key == key
    requires k in Release(s, key, c).calls && RegisteredIsLive(s, k)
    ensures RegisteredIsLive(Release(s, key, c), k)
  {
  }

  lemma LiveAfterFinish(s: State, key: string, c: nat, outcome: Outcome, k: string)
    requires c < |s.table| && s.table[c].key == key
    requires k in Finish(s, key, c, outcome).calls && RegisteredIsLive(s, k)
    ensures RegisteredIsLive(Finish(s, key, c, outcome), k)
  {
  }

  lemma RegisteredAfter(s: System, a: Action, k: string)
    requires Inv(s) && Enabled(s, a) && k in Apply(s, a).state.calls
    ensures RegisteredIsLive(Apply(s, a).state, k)
  {
    assert k in s.state.calls ==> RegisteredIsLive(s.state, k);
    match a
    case Arrive(_, key) => LiveAfterJoin(s.state, key, k);
    case LetGo(p) => LiveAfterRelease(s.state, s.callers[p].key, s.callers[p].call, k);
    case Complete(c, outcome) => LiveAfterFinish(s.state, s.leaders[c], c, outcome, k);
    case SeeDone(_) =>
    case GiveUp(_) =>
  }

  lemma StepKeepsRegistered(s: System, a: Action)
    requires Inv(s) && Enabled(s, a)
    ensures RegisteredAreLive(Apply(s, a))
  {
    forall k | k in Apply(s, a).state.calls ensures RegisteredIsLive(Apply(s, a).state, k) {
      RegisteredAfter(s, a, k);
    }
  }

  lemma StepKeepsCancelled(s: System, a: Action)
    requires Inv(s) && Enabled(s, a)
    ensures CancelledIffUnneeded(Apply(s, a))
  {
    if a.LetGo? {
      assert a.caller in Holders(s.callers, s.callers[a.caller].call);
    }
  }

  ghost predicate SameVerdict(x: Call, y: Call) {
    x.key == y.key && x.done == y.done && x.outcome == y.outcome
  }

  lemma JoinTable(s: State, key: string, c: nat)
    requires CallsExist(s) && c < |Join(s, key).table|
    ensures |s.table| <= |Join(s, key).table| <= |s.table| + 1
    ensures c < |s.table| ==> SameVerdict(Join(s, key).table[c], s.table[c])
    ensures c == |s.table| ==> key !in s.calls && Join(s, key).table[c] == Call(key, 1, false, false, None)
  {
  }

  lemma ReleaseTable(s: State, key: string, d: nat, c: nat)
    requires c < |s.table| && d < |s.table|
    ensures |Release(s, key, d).table| == |s.table|
    ensures SameVerdict(Release(s, key, d).table[c], s.table[c])
  {
  }

  lemma FinishTable(s: State, key: string, d: nat, outcome: Outcome, c: nat)
    requires c < |s.table| && d < |s.table|
    ensures |Finish(s, key, d, outcome).table| == |s.table|
    ensures c != d ==> Finish(s, key, d, outcome).table[c] == s.table[c]
    ensures var x := Finish(s, key, d, outcome).table[d];
      x.key == s.table[d].key && x.done && x.outcome == Some(outcome)
  {
  }

  /** How one step changes the record of one call. */
  lemma CallAfter(s: System, a: Action, c: nat)
    requires Inv(s) && Enabled(s, a) && c < |Apply(s, a).state.table|
    ensures var t := Apply(s, a);
      && |s.state.table| <= |t.state.table| <= |s.state.table| + 1
      && (c == |s.state.table| ==>
            && a.Arrive? && t.state.table[c] == Call(a.key, 1, false, false, None)
            && t.leaders == s.leaders[c := a.key])
      && (c < |s.state.table| ==>
            && t.state.table[c].key == s.state.table[c].key
            && (a.Complete? && a.call == c ==>
                  t.state.table[c].done && t.state.table[c].outcome == Some(a.outcome) && c !in t.leaders)
            && (!(a.Complete? && a.call == c) ==>
                  && t.state.table[c].done == s.state.table[c].done
                  && t.state.table[c].outcome == s.state.table[c].outcome
                  && (c in t.leaders <==> c in s.leaders)))
  {
    match a
    case Arrive(_, key) => JoinTable(s.state, key, c);
    case LetGo(p) => ReleaseTable(s.state, s.callers[p].key, s.callers[p].call, c);
    case Complete(d, outcome) => FinishTable(s.state, s.leaders[d], d, outcome, c);
    case SeeDone(_) =>
    case GiveUp(_) =>
  }

  lemma CallerAfter(s: System, a: Action, p: nat)
    requires Inv(s) && Enabled(s, a) && p in Apply(s, a).callers
    ensures KnowsItsCall(Apply(s, a).callers[p], Apply(s, a).state.table)
  {
    TableGrows(s, a);
    CallAfter(s, a, Apply(s, a).callers[p].call);
    if p in s.callers {
      assert KnowsItsCall(s.callers[p], s.state.table);
    }
  }

  lemma StepKeepsCallers(s: System, a: Action)
    requires Inv(s) && Enabled(s, a)
    ensures CallersKnowTheirCall(Apply(s, a))
  {
    forall p | p in Apply(s, a).callers ensures KnowsItsCall(Apply(s, a).callers[p], Apply(s, a).state.table) {
      CallerAfter(s, a, p);
    }
  }

  lemma StepKeepsLeaders(s: System, a: Action)
    requires Inv(s) && Enabled(s, a)
    ensures LeadersFinishOnce(Apply(s, a))
  {
    var t := Apply(s, a);
    forall c | 0 <= c < |t.state.table|
      ensures c in t.leaders <==> !t.state.table[c].done
      ensures t.state.table[c].done <==> t.state.table[c].outcome.Some?
    {
      CallAfter(s, a, c);
    }
  }

  lemma StepKeepsLeaderKeys(s: System, a: Action)
    requires Inv(s) && Enabled(s, a)
    ensures LeadersKnowTheirCall(Apply(s, a))
  {
  }

  lemma StepKeepsInv(s: System, a: Action)
    requires Inv(s) && Enabled(s, a)
    ensures Inv(Apply(s, a))
  {
    StepKeepsRefs(s, a);
    StepKeepsRegistered(s, a);
    StepKeepsCancelled(s, a);
    StepKeepsCallers(s, a);
    StepKeepsLeaders(s, a);
    StepKeepsLeaderKeys(s, a);
  }

  // ---------------------------------------------------------------- runs

  ghost predicate Next(s: System, a: Action, t: System) {
    Formed(s) && Enabled(s, a) && t == Apply(s, a)
  }

  /** The system after `actions`, one interleaving of arrivals, departures and completions. */
  ghost predicate Run(actions: seq<Action>, states: seq<System>) {
    && |states| == |actions| + 1 && states[0] == START
    && forall i :: 0 <= i < |actions| ==> Next(states[i], actions[i], states[i + 1])
  }

  /** In every interleaving: a registered call has waiters and is neither done nor cancelled, reference
      counts are the waiters, and a context is cancelled exactly when its call is done or unwanted. */
  lemma {:induction false} EveryRunKeepsInv(actions: seq<Action>, states: seq<System>, i: nat)
    requires Run(actions, states) && i <= |actions|
    ensures Inv(states[i])
  {
    if i > 0 {
      EveryRunKeepsInv(actions, states, i - 1);
      assert Next(states[i - 1], actions[i - 1], states[i]);
      StepKeepsInv(states[i - 1], actions[i - 1]);
    }
  }

  /** One caller leaving never cancels the others: while anybody holds an unfinished call, its context
      stays alive. */
  lemma LeavingDoesNotCancelOthers(actions: seq<Action>, states: seq<System>, i: nat, q: nat)
    requires Run(actions, states) && i <= |actions|
    requires q in states[i].callers && !states[i].callers[q].phase.Left?
    ensures var c := states[i].callers[q].call;
      c < |states[i].state.table| && (states[i].state.table[c].cancelled <==> states[i].state.table[c].done)
  {
    EveryRunKeepsInv(actions, states, i);
    assert q in Holders(states[i].callers, states[i].callers[q].call);
  }

  lemma StepKeepsOutcomes(s: System, a: Action, c: nat)
    requires Inv(s) && Enabled(s, a) && c < |s.state.table|
    ensures var t := Apply(s, a);
      && c < |t.state.table| && t.state.table[c].key == s.state.table[c].key
      && (s.state.table[c].done ==> t.state.table[c].done && t.state.table[c].outcome == s.state.table[c].outcome)
  {
    assert a.Complete? && a.call == c ==> c in s.leaders;
    TableGrows(s, a);
    CallAfter(s, a, c);
  }

  lemma TableGrows(s: System, a: Action)
    requires Inv(s) && Enabled(s, a)
    ensures |s.state.table| <= |Apply(s, a).state.table|
  {
  }

  /** What has been decided about a call stays decided. */
  lemma {:induction false} OutcomesAreStable(actions: seq<Action>, states: seq<System>, i: nat, j: nat, c: nat)
    requires Run(actions, states) && i <= j <= |actions| && c < |states[i].state.table|
    ensures c < |states[j].state.table|
    ensures states[j].state.table[c].key == states[i].state.table[c].key
    ensures states[i].state.table[c].done ==>
      states[j].state.table[c].done && states[j].state.table[c].outcome == states[i].state.table[c].outcome
    decreases j - i
  {
    if i < j {
      EveryRunKeepsInv(actions, states, i);
      assert Next(states[i], actions[i], states[i + 1]);
      StepKeepsOutcomes(states[i], actions[i], c);
      OutcomesAreStable(actions, states, i + 1, j, c);
    }
  }

  /** A call's channel is closed at most once. */
  lemma DoneClosesOnce(actions: seq<Action>, states: seq<System>, i: nat, j: nat)
    requires Run(actions, states) && i < j < |actions| && actions[i].Complete? && actions[j].Complete?
    ensures actions[i].call != actions[j].call
  {
    EveryRunKeepsInv(actions, states, i);
    EveryRunKeepsInv(actions, states, j);
    assert Next(states[i], actions[i], states[i + 1]) && Next(states[j], actions[j], states[j + 1]);
    OutcomesAreStable(actions, states, i + 1, j, actions[i].call);
  }

  lemma {:induction false} DoneMeansCompleted(actions: seq<Action>, states: seq<System>, i: nat, c: nat)
    requires Run(actions, states) && i <= |actions|
    requires c < |states[i].state.table| && states[i].state.table[c].done
    ensures exists j :: 0 <= j < i && actions[j].Complete? && actions[j].call == c
              && states[i].state.table[c].outcome == Some(actions[j].outcome)
  {
    EveryRunKeepsInv(actions, states, i - 1);
    var a := actions[i - 1];
    assert Next(states[i - 1], a, states[i]);
    CallAfter(states[i - 1], a, c);
    if a.Complete? && a.call == c {
      assert 0 <= i - 1 < i;
    } else {
      DoneMeansCompleted(actions, states, i - 1, c);
    }
  }

  /** A caller that saw `done` leaves with that, and one that gave up leaves with that, whatever happens next. */
  lemma {:induction false} WhyACallerLeaves(actions: seq<Action>, states: seq<System>, i: nat, j: nat, p: nat)
    requires Run(actions, states) && i < j <= |actions|
    requires actions[i] == SeeDone(p) || actions[i] == GiveUp(p)
    ensures p in states[i].callers && p in states[j].callers
    ensures states[j].callers[p].call == states[i].callers[p].call
    ensures var phase, sawDone := states[j].callers[p].phase, actions[i].SeeDone?;
      phase == Leaving(sawDone) || phase == Left(sawDone)
    decreases j
  {
    assert Next(states[j - 1], actions[j - 1], states[j]);
    if i < j - 1 {
      WhyACallerLeaves(actions, states, i, j - 1, p);
    }
  }

  /** A caller that saw `done` has the result of its call from then on, and one that let go after that has it as
      its answer. */
  lemma SeeingDoneGivesTheResult(actions: seq<Action>, states: seq<System>, i: nat, j: nat, p: nat)
    requires Run(actions, states) && i < j <= |actions| && actions[i] == SeeDone(p)
    ensures p in states[i].callers && p in states[j].callers && states[i].callers[p].call < |states[i].state.table|
    ensures var c := states[i].callers[p].call;
      && states[j].callers[p].call == c < |states[j].state.table|
      && states[i].state.table[c].outcome.Some?
      && states[j].state.table[c].outcome == states[i].state.table[c].outcome
    ensures states[j].callers[p].phase.Left? ==> states[j].callers[p].phase == Left(true)
  {
    WhyACallerLeaves(actions, states, i, j, p);
    EveryRunKeepsInv(actions, states, i);
    assert Next(states[i], actions[i], states[i + 1]);
    OutcomesAreStable(actions, states, i, j, states[i].callers[p].call);
  }

  /** A caller that leaves through `done` gets the outcome its own call's leader reported, for the key it
      asked for; no other leader can have reported for that call. */
  lemma WaiterGetsItsOwnResult(actions: seq<Action>, states: seq<System>, i: nat, p: nat)
    requires Run(actions, states) && i <= |actions|
    requires p in states[i].callers && states[i].callers[p].phase == Left(true)
    ensures var caller := states[i].callers[p];
      && caller.call < |states[i].state.table|
      && states[i].state.table[caller.call].key == caller.key
      && exists j :: 0 <= j < i && actions[j].Complete? && actions[j].call == caller.call
           && states[i].state.table[caller.call].outcome == Some(actions[j].outcome)
           && forall k :: 0 <= k < |actions| && actions[k].Complete? && actions[k].call == caller.call ==> k == j
  {
    EveryRunKeepsInv(actions, states, i);
    var c := states[i].callers[p].call;
    DoneMeansCompleted(actions, states, i, c);
    var j :| 0 <= j < i && actions[j].Complete? && actions[j].call == c
      && states[i].state.table[c].outcome == Some(actions[j].outcome);
    forall k | 0 <= k < |actions| && actions[k].Complete? && actions[k].call == c ensures k == j {
      if k < j {
        DoneClosesOnce(actions, states, k, j);
      } else if j < k {
        DoneClosesOnce(actions, states, j, k);
      }
    }
  }

  /** Once all leaders have finished, no call is registered. */
  lemma QuietSystemIsEmpty(actions: seq<Action>, states: seq<System>, i: nat)
    requires Run(actions, states) && i <= |actions| && states[i].leaders == map[]
    ensures states[i].state.calls == map[]
  {
    EveryRunKeepsInv(actions, states, i);
    RegisteredHaveLeaders(states[i]);
  }

  lemma RegisteredHaveLeaders(s: System)
    requires Inv(s)
    ensures forall k :: k in s.state.calls ==> s.state.calls[k] in s.leaders
  {
  }

  // ---------------------------------------------------------------- sharing

  /** Call `c` is finished, or it is the one registered for its key, so a newcomer with that key joins it. */
  ghost predicate Registered(s: State, c: nat)
    requires c < |s.table|
  {
    s.table[c].done || (s.table[c].key in s.calls && s.calls[s.table[c].key] == c)
  }

  lemma RegistrationAfterRelease(s: State, key: string, d: nat, c: nat)
    requires c < |s.table| && d < |s.table| && s.table[d].key == key && s.table[d].refs >= 1
    requires Registered(s, c) && (Release(s, key, d).table[c].refs != 0 || Release(s, key, d).table[c].done)
    ensures Registered(Release(s, key, d), c)
  {
  }

  /** Every call somebody waits on is the one a newcomer with its key joins, or finished. */
  ghost predicate WaitedAreRegistered(s: System) {
    forall c :: 0 <= c < |s.state.table| && s.state.table[c].refs > 0 ==> Registered(s.state, c)
  }

  /** A leader finishes while another call is registered for its key. */
  ghost predicate LateFinish(s: System, a: Action) {
    a.Complete? && a.call in s.leaders
    && s.leaders[a.call] in s.state.calls && s.state.calls[s.leaders[a.call]] != a.call
  }

  lemma JoinKeepsSharing(s: State, key: string, c: nat)
    requires CallsExist(s) && c < |Join(s, key).table|
    requires key in s.calls ==> s.table[s.calls[key]].key == key
    requires c < |s.table| && s.table[c].refs > 0 ==> Registered(s, c)
    requires Join(s, key).table[c].refs > 0
    ensures Registered(Join(s, key), c)
  {
  }

  lemma FinishKeepsSharing(s: State, key: string, d: nat, outcome: Outcome, c: nat)
    requires c < |s.table| && d < |s.table| && Registered(s, c)
    requires key in s.calls ==> s.calls[key] == d
    ensures Registered(Finish(s, key, d, outcome), c)
  {
  }

  lemma SharingAfter(s: System, a: Action, c: nat)
    requires Inv(s) && Enabled(s, a) && WaitedAreRegistered(s) && !LateFinish(s, a)
    requires c < |Apply(s, a).state.table| && Apply(s, a).state.table[c].refs > 0
    ensures Registered(Apply(s, a).state, c)
  {
    assert c < |s.state.table| && s.state.table[c].refs > 0 ==> Registered(s.state, c);
    match a
    case Arrive(_, key) =>
      assert key in s.state.calls ==> RegisteredIsLive(s.state, key);
      JoinKeepsSharing(s.state, key, c);
    case LetGo(p) =>
      assert p in Holders(s.callers, s.callers[p].call);
      RegistrationAfterRelease(s.state, s.callers[p].key, s.callers[p].call, c);
    case Complete(d, outcome) => FinishKeepsSharing(s.state, s.leaders[d], d, outcome, c);
    case SeeDone(_) =>
    case GiveUp(_) =>
  }

  lemma StepKeepsSharing(s: System, a: Action)
    requires Inv(s) && Enabled(s, a) && WaitedAreRegistered(s) && !LateFinish(s, a)
    ensures WaitedAreRegistered(Apply(s, a))
  {
    var t := Apply(s, a);
    forall c | 0 <= c < |t.state.table| && t.state.table[c].refs > 0 ensures Registered(t.state, c) {
      SharingAfter(s, a, c);
    }
  }

  lemma LateFinishSplits(s: System, a: Action)
    requires Inv(s) && Enabled(s, a) && LateFinish(s, a)
    ensures !WaitedAreRegistered(Apply(s, a))
  {
    var key := s.leaders[a.call];
    var c := s.state.calls[key];
    assert RegisteredIsLive(s.state, key);
    assert Apply(s, a).state.table[c] == s.state.table[c];
    assert !Registered(Apply(s, a).state, c);
  }

  lemma StepDecidesSharing(actions: seq<Action>, states: seq<System>, i: nat)
    requires Run(actions, states) && i < |actions| && WaitedAreRegistered(states[i])
    ensures WaitedAreRegistered(states[i + 1]) <==> !LateFinish(states[i], actions[i])
  {
    EveryRunKeepsInv(actions, states, i);
    assert Next(states[i], actions[i], states[i + 1]);
    if LateFinish(states[i], actions[i]) {
      LateFinishSplits(states[i], actions[i]);
    } else {
      StepKeepsSharing(states[i], actions[i]);
    }
  }

  /** Whoever waits shares its call with every newcomer, throughout a run, exactly when no leader ever
      finishes while another call is registered for its key: `finish` deletes the key without the test
      that `release` makes first. */
  lemma SharedIffNoLateFinish(actions: seq<Action>, states: seq<System>, n: nat)
    requires Run(actions, states) && n <= |actions|
    ensures (forall i :: 0 <= i <= n ==> WaitedAreRegistered(states[i]))
       <==> (forall i :: 0 <= i < n ==> !LateFinish(states[i], actions[i]))
  {
    var shared := (i: nat) => i <= n && WaitedAreRegistered(states[i]);
    var safe := (i: nat) => i < n && !LateFinish(states[i], actions[i]);
    forall i: nat | i < n && shared(i) ensures shared(i + 1) <==> safe(i) {
      StepDecidesSharing(actions, states, i);
    }
    KeptIffSafe(shared, safe, n);
    assert forall i :: 0 <= i <= n ==> (shared(i) <==> WaitedAreRegistered(states[i]));
    assert forall i :: 0 <= i < n ==> (safe(i) <==> !LateFinish(states[i], actions[i]));
  }

  /** Without a late finish, two callers that hold unfinished calls of one key hold the same call. */
  lemma CallersShareOneCall(actions: seq<Action>, states: seq<System>, n: nat, p: nat, q: nat)
    requires Run(actions, states) && n <= |actions|
    requires forall i :: 0 <= i < n ==> !LateFinish(states[i], actions[i])
    requires p in states[n].callers && q in states[n].callers
    requires !states[n].callers[p].phase.Left? && !states[n].callers[q].phase.Left?
    requires states[n].callers[p].key == states[n].callers[q].key
    ensures var s := states[n];
      var c, d := s.callers[p].call, s.callers[q].call;
      && c < |s.state.table| && d < |s.state.table|
      && (!s.state.table[c].done && !s.state.table[d].done ==> c == d)
  {
    var s := states[n];
    EveryRunKeepsInv(actions, states, n);
    SharedIffNoLateFinish(actions, states, n);
    HolderIsCounted(s, p);
    HolderIsCounted(s, q);
    assert Registered(s.state, s.callers[p].call) && Registered(s.state, s.callers[q].call);
  }

  lemma HolderIsCounted(s: System, p: nat)
    requires Inv(s) && p in s.callers && !s.callers[p].phase.Left?
    ensures s.callers[p].call < |s.state.table|
    ensures s.state.table[s.callers[p].call].refs > 0 && s.state.table[s.callers[p].call].key == s.callers[p].key
  {
    assert KnowsItsCall(s.callers[p], s.state.table);
    assert p in Holders(s.callers, s.callers[p].call);
  }

  // ---------------------------------------------------------------- one call per key

  /** An unfinished call; with `waited`, one that somebody waits on. */
  ghost predicate Open(s: State, c: nat, waited: bool)
    requires c < |s.table|
  {
    !s.table[c].done && (waited ==> s.table[c].refs > 0)
  }

  ghost predicate OnePerKey(s: System, waited: bool) {
    forall c, d :: 0 <= c < |s.state.table| && 0 <= d < |s.state.table|
      && Open(s.state, c, waited) && Open(s.state, d, waited) && s.state.table[c].key == s.state.table[d].key
      ==> c == d
  }

  /** A caller arrives while an open call of its key is not registered. */
  ghost predicate StrayArrival(s: System, a: Action, waited: bool) {
    a.Arrive? && exists c :: 0 <= c < |s.state.table| && Open(s.state, c, waited)
                    && s.state.table[c].key == a.key && !Registered(s.state, c)
  }

  /** No step opens an old call. */
  lemma WasOpen(s: System, a: Action, c: nat, waited: bool)
    requires Inv(s) && Enabled(s, a) && c < |s.state.table|
    ensures |s.state.table| <= |Apply(s, a).state.table|
    ensures Open(Apply(s, a).state, c, waited) ==> Open(s.state, c, waited)
    ensures Apply(s, a).state.table[c].key == s.state.table[c].key
  {
    TableGrows(s, a);
    CallAfter(s, a, c);
    if a.Arrive? && a.key in s.state.calls {
      assert RegisteredIsLive(s.state, a.key);
    }
  }

  /** A new call is the only open one of its key unless its caller strayed. */
  lemma NewCallIsAlone(s: System, a: Action, d: nat, waited: bool)
    requires Inv(s) && Enabled(s, a) && |Apply(s, a).state.table| > |s.state.table|
    requires !StrayArrival(s, a, waited) && d < |s.state.table| && Open(s.state, d, waited)
    ensures Apply(s, a).state.table[|s.state.table|].key != s.state.table[d].key
  {
    CallAfter(s, a, |s.state.table|);
  }

  lemma StepKeepsOnePerKey(s: System, a: Action, waited: bool)
    requires Inv(s) && Enabled(s, a) && OnePerKey(s, waited) && !StrayArrival(s, a, waited)
    ensures OnePerKey(Apply(s, a), waited)
  {
    var t := Apply(s, a);
    forall c, d | 0 <= c < |t.state.table| && 0 <= d < |t.state.table|
        && Open(t.state, c, waited) && Open(t.state, d, waited) && t.state.table[c].key == t.state.table[d].key
      ensures c == d
    {
      CallAfter(s, a, c);
      if c < |s.state.table| {
        WasOpen(s, a, c, waited);
      }
      if d < |s.state.table| {
        WasOpen(s, a, d, waited);
      }
      if c < |s.state.table| <= d {
        NewCallIsAlone(s, a, c, waited);
      } else if d < |s.state.table| <= c {
        NewCallIsAlone(s, a, d, waited);
      }
    }
  }

  lemma UnregisteredMeansFree(s: System, c: nat, waited: bool)
    requires Inv(s) && OnePerKey(s, waited) && c < |s.state.table|
    requires Open(s.state, c, waited) && !Registered(s.state, c)
    ensures s.state.table[c].key !in s.state.calls
  {
    var key := s.state.table[c].key;
    assert key in s.state.calls ==> RegisteredIsLive(s.state, key);
    assert key in s.state.calls ==> Open(s.state, s.state.calls[key], waited);
  }

  lemma StrayArrivalSplits(s: System, a: Action, waited: bool)
    requires Inv(s) && Enabled(s, a) && OnePerKey(s, waited) && StrayArrival(s, a, waited)
    ensures !OnePerKey(Apply(s, a), waited)
  {
    var t := Apply(s, a);
    var c :| 0 <= c < |s.state.table| && Open(s.state, c, waited)
      && s.state.table[c].key == a.key && !Registered(s.state, c);
    UnregisteredMeansFree(s, c, waited);
    var d := |s.state.table|;
    assert t.state.table[c] == s.state.table[c] && t.state.table[d] == Call(a.key, 1, false, false, None);
    assert Open(t.state, c, waited) && Open(t.state, d, waited);
  }

  lemma StepDecidesOnePerKey(actions: seq<Action>, states: seq<System>, i: nat, waited: bool)
    requires Run(actions, states) && i < |actions| && OnePerKey(states[i], waited)
    ensures OnePerKey(states[i + 1], waited) <==> !StrayArrival(states[i], actions[i], waited)
  {
    EveryRunKeepsInv(actions, states, i);
    assert Next(states[i], actions[i], states[i + 1]);
    if StrayArrival(states[i], actions[i], waited) {
      StrayArrivalSplits(states[i], actions[i], waited);
    } else {
      StepKeepsOnePerKey(states[i], actions[i], waited);
    }
  }

  /** No key ever has two unfinished calls, or with `waited` two that are waited for, exactly when nobody
      arrives while such a call of its key is not registered. */
  lemma OnePerKeyIffNoStrayArrival(actions: seq<Action>, states: seq<System>, n: nat, waited: bool)
    requires Run(actions, states) && n <= |actions|
    ensures (forall i :: 0 <= i <= n ==> OnePerKey(states[i], waited))
       <==> (forall i :: 0 <= i < n ==> !StrayArrival(states[i], actions[i], waited))
  {
    var single := (i: nat) => i <= n && OnePerKey(states[i], waited);
    var safe := (i: nat) => i < n && !StrayArrival(states[i], actions[i], waited);
    forall i: nat | i < n && single(i) ensures single(i + 1) <==> safe(i) {
      StepDecidesOnePerKey(actions, states, i, waited);
    }
    KeptIffSafe(single, safe, n);
    assert forall i :: 0 <= i <= n ==> (single(i) <==> OnePerKey(states[i], waited));
    assert forall i :: 0 <= i < n ==> (safe(i) <==> !StrayArrival(states[i], actions[i], waited));
  }

  // ---------------------------------------------------------------- runs without abandoned calls

  ghost predicate AllRegistered(s: System) {
    forall c :: 0 <= c < |s.state.table| ==> Registered(s.state, c)
  }

  /** Some call lost its last waiter before it finished. */
  ghost predicate SomeAbandoned(s: System) {
    exists c :: 0 <= c < |s.state.table| && s.state.table[c].refs == 0 && !s.state.table[c].done
  }

  lemma RegistrationAfterJoin(s: State, key: string, c: nat)
    requires CallsExist(s) && c < |Join(s, key).table| && (c < |s.table| ==> Registered(s, c))
    ensures Registered(Join(s, key), c)
  {
  }

  /** The leader's call being registered, finishing it removes no other call. */
  lemma RegistrationAfterFinish(s: State, key: string, d: nat, outcome: Outcome, c: nat)
    requires c < |s.table| && d < |s.table| && s.table[d].key == key && !s.table[d].done
    requires Registered(s, c) && Registered(s, d)
    ensures Registered(Finish(s, key, d, outcome), c)
  {
  }

  lemma RegistrationAfter(s: System, a: Action, c: nat)
    requires Inv(s) && Enabled(s, a) && AllRegistered(s)
    requires c < |Apply(s, a).state.table|
    requires Apply(s, a).state.table[c].refs != 0 || Apply(s, a).state.table[c].done
    ensures Registered(Apply(s, a).state, c)
  {
    assert c < |s.state.table| ==> Registered(s.state, c);
    match a
    case Arrive(_, key) => RegistrationAfterJoin(s.state, key, c);
    case LetGo(p) =>
      assert p in Holders(s.callers, s.callers[p].call);
      RegistrationAfterRelease(s.state, s.callers[p].key, s.callers[p].call, c);
    case Complete(d, outcome) => RegistrationAfterFinish(s.state, s.leaders[d], d, outcome, c);
    case SeeDone(_) =>
    case GiveUp(_) =>
  }

  lemma StepKeepsRegistration(s: System, a: Action)
    requires Inv(s) && Enabled(s, a) && AllRegistered(s)
    requires !SomeAbandoned(Apply(s, a))
    ensures AllRegistered(Apply(s, a))
  {
    var t := Apply(s, a);
    forall c | 0 <= c < |t.state.table| ensures Registered(t.state, c) {
      assert t.state.table[c].refs != 0 || t.state.table[c].done;
      RegistrationAfter(s, a, c);
    }
  }

  lemma RegisteredIsNotAbandoned(s: System)
    requires Inv(s) && AllRegistered(s)
    ensures !SomeAbandoned(s)
  {
    forall c | 0 <= c < |s.state.table| ensures s.state.table[c].refs != 0 || s.state.table[c].done {
      assert Registered(s.state, c);
      assert !s.state.table[c].done ==> RegisteredIsLive(s.state, s.state.table[c].key);
    }
  }

  /** All unfinished calls, those nobody waits on included, stay registered throughout a run exactly when
      no call ever drops to zero references unfinished. */
  lemma {:induction false} RegisteredIffNeverAbandoned(actions: seq<Action>, states: seq<System>, n: nat)
    requires Run(actions, states) && n <= |actions|
    ensures (forall i :: 0 <= i <= n ==> AllRegistered(states[i]))
       <==> (forall i :: 0 <= i <= n ==> !SomeAbandoned(states[i]))
  {
    EveryRunKeepsInv(actions, states, n);
    if AllRegistered(states[n]) {
      RegisteredIsNotAbandoned(states[n]);
    }
    if n > 0 {
      assert Next(states[n - 1], actions[n - 1], states[n]);
      EveryRunKeepsInv(actions, states, n - 1);
      RegisteredIffNeverAbandoned(actions, states, n - 1);
      if AllRegistered(states[n - 1]) && !SomeAbandoned(states[n]) {
        StepKeepsRegistration(states[n - 1], actions[n - 1]);
      }
    }
  }

  /** In a run that abandons no call no key has two unfinished calls. */
  lemma OneCallPerKey(actions: seq<Action>, states: seq<System>, n: nat, c: nat, d: nat)
    requires Run(actions, states) && n <= |actions| && forall i :: 0 <= i <= n ==> !SomeAbandoned(states[i])
    requires c < |states[n].state.table| && d < |states[n].state.table|
    requires !states[n].state.table[c].done && !states[n].state.table[d].done
    requires states[n].state.table[c].key == states[n].state.table[d].key
    ensures c == d
  {
    RegisteredIffNeverAbandoned(actions, states, n);
    assert Registered(states[n].state, c) && Registered(states[n].state, d);
  }

  // ---------------------------------------------------------------- where coalescing fails

  function LateActions(key: string, outcome: Outcome): seq<Action> {
    [Arrive(0, key), GiveUp(0), LetGo(0), Arrive(1, key), Complete(0, outcome), Arrive(2, key)]
  }

  function LateStates(key: string, outcome: Outcome): seq<System> {
    var started := Call(key, 1, false, false, None);
    var abandoned := Call(key, 0, false, true, None);
    var late := Call(key, 0, true, true, Some(outcome));
    var gone := Caller(key, 0, Left(false));
    var second := Caller(key, 1, Waiting);
    [ START,
      System(State(map[key := 0], [started]), map[0 := Caller(key, 0, Waiting)], map[0 := key]),
      System(State(map[key := 0], [started]), map[0 := Caller(key, 0, Leaving(false))], map[0 := key]),
      System(State(map[], [abandoned]), map[0 := gone], map[0 := key]),
      System(State(map[key := 1], [abandoned, started]), map[0 := gone, 1 := second], map[0 := key, 1 := key]),
      System(State(map[], [late, started]), map[0 := gone, 1 := second], map[1 := key]),
      System(State(map[key := 2], [late, started, started]),
             map[0 := gone, 1 := second, 2 := Caller(key, 2, Waiting)], map[1 := key, 2 := key]) ]
  }

  lemma LateJoins(key: string, outcome: Outcome, i: nat)
    requires i == 0 || i == 3 || i == 5
    ensures Next(LateStates(key, outcome)[i], LateActions(key, outcome)[i], LateStates(key, outcome)[i + 1])
  {
    var s, t := LateStates(key, outcome)[i], LateStates(key, outcome)[i + 1];
    assert t.state.table == s.state.table + [Call(key, 1, false, false, None)];
    assert t.state.calls == s.state.calls[key := |s.state.table|];
  }

  lemma LateGiveUp(key: string, outcome: Outcome)
    ensures Next(LateStates(key, outcome)[1], LateActions(key, outcome)[1], LateStates(key, outcome)[2])
  {
  }

  lemma LateLetGo(key: string, outcome: Outcome)
    ensures Next(LateStates(key, outcome)[2], LateActions(key, outcome)[2], LateStates(key, outcome)[3])
  {
    var s, t := LateStates(key, outcome)[2], LateStates(key, outcome)[3];
    assert Release(s.state, key, 0) == t.state;
  }

  lemma LateComplete(key: string, outcome: Outcome)
    ensures Next(LateStates(key, outcome)[4], LateActions(key, outcome)[4], LateStates(key, outcome)[5])
  {
    var s, t := LateStates(key, outcome)[4], LateStates(key, outcome)[5];
    assert Finish(s.state, key, 0, outcome) == t.state;
  }

  lemma LateStep(key: string, outcome: Outcome, i: nat)
    requires i < 6
    ensures Next(LateStates(key, outcome)[i], LateActions(key, outcome)[i], LateStates(key, outcome)[i + 1])
  {
    if i == 1 {
      LateGiveUp(key, outcome);
    } else if i == 2 {
      LateLetGo(key, outcome);
    } else if i == 4 {
      LateComplete(key, outcome);
    } else {
      LateJoins(key, outcome, i);
    }
  }

  /** Sharing really fails: a call that was abandoned and finishes late removes the newer call
      of the same key, and the next caller starts a third one beside it, while both are waited for. */
  lemma LateFinishSplitsCallers(key: string, outcome: Outcome)
    ensures Run(LateActions(key, outcome), LateStates(key, outcome))
    ensures var s := LateStates(key, outcome)[6];
      && |s.state.table| == 3 && s.state.table[1].key == s.state.table[2].key == key
      && !s.state.table[1].done && !s.state.table[2].done
      && 1 in Holders(s.callers, 1) && 2 in Holders(s.callers, 2)
  {
    forall i: nat | i < 6
      ensures Next(LateStates(key, outcome)[i], LateActions(key, outcome)[i], LateStates(key, outcome)[i + 1])
    {
      LateStep(key, outcome, i);
    }
  }
}
