/** A metadata request from its arrival to its answer: the argument check, the key, and the shared call. */
module RunMetadata {
  import opened Basics
  import opened Coalescer
  import MetadataCache

  /** What a caller asks for. */
  datatype Request = Request(repository: string, argv: seq<string>)

  function KeyOf(r: Request): string {
    MetadataCache.MetadataKey(r.repository, r.argv)
  }

  predicate Accepted(r: Request) {
    MetadataCache.Acceptable(r.repository, r.argv)
  }

  lemma KeyNamesRequest(r: Request, q: Request)
    requires Accepted(r) && Accepted(q)
    ensures KeyOf(r) == KeyOf(q) <==> r == q
  {
    MetadataCache.AcceptedArgv(r.argv);
    MetadataCache.AcceptedArgv(q.argv);
    MetadataCache.KeyIsInjective(r.repository, r.argv, q.repository, q.argv);
  }

  /** In every arrival a caller joins under the key of its request, which passed the argument check. */
  ghost predicate Asks(actions: seq<Action>, requests: seq<Request>) {
    && |requests| == |actions|
    && forall i :: 0 <= i < |actions| && actions[i].Arrive? ==>
         Accepted(requests[i]) && actions[i].key == KeyOf(requests[i])
  }

  ghost predicate ArrivesAt(actions: seq<Action>, a: nat, p: nat, key: string) {
    a < |actions| && actions[a] == Arrive(p, key)
  }

  /** Step `b` is the arrival that made call `c` and leads it. */
  ghost predicate Starts(actions: seq<Action>, states: seq<System>, b: nat, c: nat, key: string)
    requires |states| == |actions| + 1
  {
    && b < |actions| && actions[b].Arrive? && actions[b].key == key
    && |states[b].state.table| == c && c in states[b + 1].leaders && c !in states[b].leaders
  }

  lemma {:induction false} CallerArrived(actions: seq<Action>, states: seq<System>, i: nat, p: nat)
    requires Run(actions, states) && i <= |actions| && p in states[i].callers
    ensures exists a: nat :: a < i && ArrivesAt(actions, a, p, states[i].callers[p].key)
  {
    assert Next(states[i - 1], actions[i - 1], states[i]);
    if actions[i - 1].Arrive? && actions[i - 1].caller == p {
      assert ArrivesAt(actions, i - 1, p, states[i].callers[p].key);
    } else {
      CallerArrived(actions, states, i - 1, p);
    }
  }

  lemma NewCall(s: System, a: Action, c: nat)
    requires Inv(s) && Formed(s) && Enabled(s, a) && |s.state.table| <= c < |Apply(s, a).state.table|
    ensures a.Arrive? && a.key == Apply(s, a).state.table[c].key && c == |s.state.table|
    ensures c in Apply(s, a).leaders && c !in s.leaders
  {
    CallAfter(s, a, c);
  }

  lemma {:induction false} CallWasStarted(actions: seq<Action>, states: seq<System>, i: nat, c: nat)
    requires Run(actions, states) && i <= |actions| && c < |states[i].state.table|
    ensures exists b: nat :: b < i && Starts(actions, states, b, c, states[i].state.table[c].key)
  {
    assert i > 0;
    EveryRunKeepsInv(actions, states, i - 1);
    assert Next(states[i - 1], actions[i - 1], states[i]);
    if c < |states[i - 1].state.table| {
      OutcomesAreStable(actions, states, i - 1, i, c);
      CallWasStarted(actions, states, i - 1, c);
    } else {
      NewCall(states[i - 1], actions[i - 1], c);
      assert Starts(actions, states, i - 1, c, states[i].state.table[c].key);
    }
  }

  /** Caller `p` arrived in step `a`, its call was made in step `b` by a caller with the same request, and the
      leader of that call reported its outcome in step `j`. */
  ghost predicate AnsweredBy(actions: seq<Action>, states: seq<System>, requests: seq<Request>, i: nat, p: nat,
          a: nat, b: nat, j: nat)
    requires Run(actions, states) && Asks(actions, requests) && i <= |actions| && p in states[i].callers
  {
    var caller := states[i].callers[p];
    && a < i && ArrivesAt(actions, a, p, caller.key)
    && b < i && Starts(actions, states, b, caller.call, caller.key)
    && requests[a] == requests[b]
    && j < i && actions[j].Complete? && actions[j].call == caller.call && caller.call < |states[i].state.table|
    && states[i].state.table[caller.call].outcome == Some(actions[j].outcome)
  }

  /** A caller that leaves because its call is done gets the outcome of a command that was started for exactly
      its repository and its argument list. */
  lemma WaiterGetsTheResultOfItsRequest(actions: seq<Action>, states: seq<System>, requests: seq<Request>, i: nat,
          p: nat)
    requires Run(actions, states) && Asks(actions, requests) && i <= |actions|
    requires p in states[i].callers && states[i].callers[p].phase == Left(true)
    ensures exists a: nat, b: nat, j: nat :: AnsweredBy(actions, states, requests, i, p, a, b, j)
  {
    var caller := states[i].callers[p];
    WaiterGetsItsOwnResult(actions, states, i, p);
    CallerArrived(actions, states, i, p);
    CallWasStarted(actions, states, i, caller.call);
    var a: nat :| a < i && ArrivesAt(actions, a, p, caller.key);
    var b: nat :| b < i && Starts(actions, states, b, caller.call, caller.key);
    var j :| 0 <= j < i && actions[j].Complete? && actions[j].call == caller.call
      && states[i].state.table[caller.call].outcome == Some(actions[j].outcome);
    KeyNamesRequest(requests[a], requests[b]);
    assert AnsweredBy(actions, states, requests, i, p, a, b, j);
  }
}
