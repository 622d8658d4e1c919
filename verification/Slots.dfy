/** Admission of restic commands: a slot of the repository first, then a global one, never waiting. */
module Slots {
  import opened Basics

  datatype Exit = Cancelled | RepositoryBusy | GlobalBusy | Finished

  /** Where a request stands. A return with slots still held gives them back one by one, the global slot
      first, which is the order in which deferred calls run. */
  datatype Phase =
    | Arrived
    | HasRepository
    | Running
    | ReturningBoth(exit: Exit)
    | ReturningRepository(exit: Exit)
    | Done(exit: Exit)

  datatype Request = Request(repository: string, phase: Phase)

  /** The tokens in each repository's channel and in the global one, and all requests ever made. */
  datatype Registry = Registry(slots: map<string, nat>, global: nat, requests: map<nat, Request>)

  datatype Limits = Limits(perRepository: nat, global: nat)

  function Used(r: Registry, repository: string): nat {
    if repository in r.slots then r.slots[repository] else 0
  }

  predicate HoldsRepository(q: Request) {
    q.phase.HasRepository? || q.phase.Running? || q.phase.ReturningBoth? || q.phase.ReturningRepository?
  }

  predicate HoldsGlobal(q: Request) {
    q.phase.Running? || q.phase.ReturningBoth?
  }

  // ---------------------------------------------------------------- steps

  /** One channel operation or one way out. A `select` takes a default only when nothing else is ready,
      so a busy exit needs a full channel; a cancelled context may win even when a slot is free. */
  datatype Action =
    | Arrive(id: nat, repository: string)
    | TakeRepositorySlot(id: nat)
    | RejectAtRepository(id: nat)
    | CancelEarly(id: nat)
    | TakeGlobalSlot(id: nat)
    | RejectAtGlobal(id: nat)
    | CancelAtGlobal(id: nat)
    | CommandEnds(id: nat)
    | GiveGlobalSlot(id: nat)
    | GiveRepositorySlot(id: nat)

  ghost predicate Enabled(r: Registry, a: Action, limits: Limits) {
    && (a.Arrive? <==> a.id !in r.requests)
    && (!a.Arrive? ==> Ready(r, r.requests[a.id], a, limits))
  }

  predicate Ready(r: Registry, q: Request, a: Action, limits: Limits) {
    match a
    case TakeRepositorySlot(_) => q.phase.Arrived? && Used(r, q.repository) < limits.perRepository
    case RejectAtRepository(_) => q.phase.Arrived? && Used(r, q.repository) >= limits.perRepository
    case CancelEarly(_) => q.phase.Arrived?
    case TakeGlobalSlot(_) => q.phase.HasRepository? && r.global < limits.global
    case RejectAtGlobal(_) => q.phase.HasRepository? && r.global >= limits.global
    case CancelAtGlobal(_) => q.phase.HasRepository?
    case CommandEnds(_) => q.phase.Running?
    case GiveGlobalSlot(_) => q.phase.ReturningBoth? && r.global > 0
    case GiveRepositorySlot(_) => q.phase.ReturningRepository? && Used(r, q.repository) > 0
    case Arrive(_, _) => false
  }

  function Move(r: Registry, id: nat, phase: Phase): Registry
    requires id in r.requests
  {
    r.(requests := r.requests[id := r.requests[id].(phase := phase)])
  }

  ghost function Apply(r: Registry, a: Action, limits: Limits): Registry
    requires Enabled(r, a, limits)
  {
    match a
    case Arrive(id, repository) => r.(requests := r.requests[id := Request(repository, Arrived)])
    case TakeRepositorySlot(id) =>
      var repository := r.requests[id].repository;
      Move(r, id, HasRepository).(slots := r.slots[repository := Used(r, repository) + 1])
    case RejectAtRepository(id) => Move(r, id, Done(RepositoryBusy))
    case CancelEarly(id) => Move(r, id, Done(Cancelled))
    case TakeGlobalSlot(id) => Move(r, id, Running).(global := r.global + 1)
    case RejectAtGlobal(id) => Move(r, id, ReturningRepository(GlobalBusy))
    case CancelAtGlobal(id) => Move(r, id, ReturningRepository(Cancelled))
    case CommandEnds(id) => Move(r, id, ReturningBoth(Finished))
    case GiveGlobalSlot(id) => Move(r, id, ReturningRepository(r.requests[id].phase.exit)).(global := r.global - 1)
    case GiveRepositorySlot(id) =>
      var repository := r.requests[id].repository;
      Move(r, id, Done(r.requests[id].phase.exit)).(slots := r.slots[repository := Used(r, repository) - 1])
  }

  // ---------------------------------------------------------------- conservation

  function RepositoryHolders(requests: map<nat, Request>, repository: string): set<nat> {
    set p | p in requests && HoldsRepository(requests[p]) && requests[p].repository == repository
  }

  function GlobalHolders(requests: map<nat, Request>): set<nat> {
    set p | p in requests && HoldsGlobal(requests[p])
  }

  /** The channels hold one token for every holder, and never more than their capacity. */
  ghost predicate Conserved(r: Registry, limits: Limits) {
    && (forall repository: string ::
          && Used(r, repository) == |RepositoryHolders(r.requests, repository)|
          && Used(r, repository) <= limits.perRepository)
    && r.global == |GlobalHolders(r.requests)| && r.global <= limits.global
  }

  lemma HoldersAfter(requests: map<nat, Request>, id: nat, q: Request, repository: string)
    ensures RepositoryHolders(requests[id := q], repository)
         == if HoldsRepository(q) && q.repository == repository then RepositoryHolders(requests, repository) + {id}
            else RepositoryHolders(requests, repository) - {id}
  {
  }

  lemma GlobalHoldersAfter(requests: map<nat, Request>, id: nat, q: Request)
    ensures GlobalHolders(requests[id := q])
         == if HoldsGlobal(q) then GlobalHolders(requests) + {id} else GlobalHolders(requests) - {id}
  {
  }

  /** A step that neither takes nor gives a repository slot leaves its holders alone. */
  lemma RepositoryUntouched(r: Registry, a: Action, limits: Limits, repository: string)
    requires Enabled(r, a, limits) && !a.TakeRepositorySlot? && !a.GiveRepositorySlot?
    ensures Used(Apply(r, a, limits), repository) == Used(r, repository)
    ensures RepositoryHolders(Apply(r, a, limits).requests, repository) == RepositoryHolders(r.requests, repository)
  {
    var t := Apply(r, a, limits);
    HoldersAfter(r.requests, a.id, t.requests[a.id], repository);
    assert a.id in RepositoryHolders(r.requests, repository)
      <==> a.id in r.requests && HoldsRepository(r.requests[a.id]) && r.requests[a.id].repository == repository;
  }

  lemma SlotTaken(r: Registry, a: Action, limits: Limits, repository: string)
    requires Enabled(r, a, limits) && a.TakeRepositorySlot?
    ensures var t, own := Apply(r, a, limits), r.requests[a.id].repository == repository;
      && Used(t, repository) == Used(r, repository) + (if own then 1 else 0)
      && |RepositoryHolders(t.requests, repository)|
          == |RepositoryHolders(r.requests, repository)| + (if own then 1 else 0)
  {
    var t := Apply(r, a, limits);
    HoldersAfter(r.requests, a.id, t.requests[a.id], repository);
    assert a.id !in RepositoryHolders(r.requests, repository);
  }

  lemma SlotGiven(r: Registry, a: Action, limits: Limits, repository: string)
    requires Enabled(r, a, limits) && a.GiveRepositorySlot?
    ensures var t, own := Apply(r, a, limits), r.requests[a.id].repository == repository;
      && Used(t, repository) == Used(r, repository) - (if own then 1 else 0)
      && |RepositoryHolders(t.requests, repository)|
          == |RepositoryHolders(r.requests, repository)| - (if own then 1 else 0)
  {
    var t := Apply(r, a, limits);
    HoldersAfter(r.requests, a.id, t.requests[a.id], repository);
    assert a.id in RepositoryHolders(r.requests, repository) <==> r.requests[a.id].repository == repository;
  }

  lemma RepositoryConserved(r: Registry, a: Action, limits: Limits, repository: string)
    requires Conserved(r, limits) && Enabled(r, a, limits)
    ensures var t := Apply(r, a, limits);
      Used(t, repository) == |RepositoryHolders(t.requests, repository)| && Used(t, repository) <= limits.perRepository
  {
    assert Used(r, repository) == |RepositoryHolders(r.requests, repository)|;
    if a.TakeRepositorySlot? {
      SlotTaken(r, a, limits, repository);
    } else if a.GiveRepositorySlot? {
      SlotGiven(r, a, limits, repository);
    } else {
      RepositoryUntouched(r, a, limits, repository);
    }
  }

  lemma GlobalUntouched(r: Registry, a: Action, limits: Limits)
    requires Enabled(r, a, limits) && !a.TakeGlobalSlot? && !a.GiveGlobalSlot?
    ensures Apply(r, a, limits).global == r.global
    ensures GlobalHolders(Apply(r, a, limits).requests) == GlobalHolders(r.requests)
  {
    GlobalHoldersAfter(r.requests, a.id, Apply(r, a, limits).requests[a.id]);
    assert a.id in GlobalHolders(r.requests) <==> a.id in r.requests && HoldsGlobal(r.requests[a.id]);
  }

  lemma GlobalConserved(r: Registry, a: Action, limits: Limits)
    requires r.global == |GlobalHolders(r.requests)| && r.global <= limits.global && Enabled(r, a, limits)
    ensures var t := Apply(r, a, limits);
      t.global == |GlobalHolders(t.requests)| && t.global <= limits.global
  {
    if a.TakeGlobalSlot? {
      GlobalHoldersAfter(r.requests, a.id, Request(r.requests[a.id].repository, Running));
      assert a.id !in GlobalHolders(r.requests);
    } else if a.GiveGlobalSlot? {
      GlobalHoldersAfter(r.requests, a.id,
          Request(r.requests[a.id].repository, ReturningRepository(r.requests[a.id].phase.exit)));
      assert a.id in GlobalHolders(r.requests);
    } else {
      GlobalUntouched(r, a, limits);
    }
  }

  lemma StepConserves(r: Registry, a: Action, limits: Limits)
    requires Conserved(r, limits) && Enabled(r, a, limits)
    ensures Conserved(Apply(r, a, limits), limits)
  {
    var t := Apply(r, a, limits);
    GlobalConserved(r, a, limits);
    forall repository: string
      ensures Used(t, repository) == |RepositoryHolders(t.requests, repository)|
      ensures Used(t, repository) <= limits.perRepository
    {
      RepositoryConserved(r, a, limits, repository);
    }
  }

  const IDLE := Registry(map[], 0, map[])

  ghost predicate Next(r: Registry, a: Action, t: Registry, limits: Limits) {
    Enabled(r, a, limits) && t == Apply(r, a, limits)
  }

  ghost predicate Run(actions: seq<Action>, states: seq<Registry>, limits: Limits) {
    && |states| == |actions| + 1 && states[0] == IDLE
    && forall i :: 0 <= i < |actions| ==> Next(states[i], actions[i], states[i + 1], limits)
  }

  /** In every interleaving the channels count their holders. */
  lemma {:induction false} EveryRunConserves(actions: seq<Action>, states: seq<Registry>, limits: Limits, i: nat)
    requires Run(actions, states, limits) && i <= |actions|
    ensures Conserved(states[i], limits)
  {
    if i > 0 {
      EveryRunConserves(actions, states, limits, i - 1);
      assert Next(states[i - 1], actions[i - 1], states[i], limits);
      StepConserves(states[i - 1], actions[i - 1], limits);
    } else {
      forall repository: string ensures RepositoryHolders(IDLE.requests, repository) == {} {
      }
      assert GlobalHolders(IDLE.requests) == {};
    }
  }

  function RunningIn(requests: map<nat, Request>, repository: string): set<nat> {
    set p | p in requests && requests[p].phase.Running? && requests[p].repository == repository
  }

  function RunningNow(requests: map<nat, Request>): set<nat> {
    set p | p in requests && requests[p].phase.Running?
  }

  /** Running commands never exceed either bound, and every holder of a global slot holds its
      repository's slot too. */
  lemma RunningCommandsAreBounded(actions: seq<Action>, states: seq<Registry>, limits: Limits, i: nat,
          repository: string)
    requires Run(actions, states, limits) && i <= |actions|
    ensures |RunningIn(states[i].requests, repository)| <= limits.perRepository
    ensures |RunningNow(states[i].requests)| <= limits.global
    ensures forall p :: p in GlobalHolders(states[i].requests) ==>
      p in RepositoryHolders(states[i].requests, states[i].requests[p].repository)
  {
    EveryRunConserves(actions, states, limits, i);
    var s := states[i];
    assert Used(s, repository) <= limits.perRepository;
    SubsetSize(RunningIn(s.requests, repository), RepositoryHolders(s.requests, repository));
    SubsetSize(RunningNow(s.requests), GlobalHolders(s.requests));
  }

  /** A busy answer is never spurious: at that moment as many other requests hold a slot as there are. */
  lemma BusyMeansFull(actions: seq<Action>, states: seq<Registry>, limits: Limits, i: nat)
    requires Run(actions, states, limits) && i < |actions|
    ensures var s, a := states[i], actions[i];
      && (a.RejectAtRepository? ==>
            && a.id in s.requests
            && |RepositoryHolders(s.requests, s.requests[a.id].repository) - {a.id}| == limits.perRepository)
      && (a.RejectAtGlobal? ==> |GlobalHolders(s.requests) - {a.id}| == limits.global)
  {
    EveryRunConserves(actions, states, limits, i);
    var s, a := states[i], actions[i];
    assert Next(s, a, states[i + 1], limits);
    if a.RejectAtRepository? {
      var repository := s.requests[a.id].repository;
      assert Used(s, repository) == |RepositoryHolders(s.requests, repository)| <= limits.perRepository;
      assert a.id !in RepositoryHolders(s.requests, repository);
      assert RepositoryHolders(s.requests, repository) - {a.id} == RepositoryHolders(s.requests, repository);
    }
    if a.RejectAtGlobal? {
      assert a.id !in GlobalHolders(s.requests);
      assert GlobalHolders(s.requests) - {a.id} == GlobalHolders(s.requests);
    }
  }

  /** And a full channel is always answered so: a request that meets one ends as busy, unless it was cancelled. */
  lemma FullMeansBusy(actions: seq<Action>, states: seq<Registry>, limits: Limits, i: nat)
    requires Run(actions, states, limits) && i < |actions| && actions[i].id in states[i].requests
    ensures var s, a := states[i], actions[i];
      var q, after := s.requests[a.id], states[i + 1].requests[a.id].phase;
      && (q.phase.Arrived? && |RepositoryHolders(s.requests, q.repository)| == limits.perRepository ==>
            after == Done(RepositoryBusy) || (a.CancelEarly? && after == Done(Cancelled)))
      && (q.phase.HasRepository? && |GlobalHolders(s.requests)| == limits.global ==>
            after == ReturningRepository(GlobalBusy) || (a.CancelAtGlobal? && after == ReturningRepository(Cancelled)))
  {
    EveryRunConserves(actions, states, limits, i);
    var s, a := states[i], actions[i];
    var q := s.requests[a.id];
    assert Next(s, a, states[i + 1], limits);
    assert Used(s, q.repository) == |RepositoryHolders(s.requests, q.repository)|;
  }

  // ---------------------------------------------------------------- how requests end

  /** The step that decides how request `p` ends: the full channel, the cancelled context, or the command. */
  predicate Decides(a: Action, p: nat, exit: Exit) {
    a.id == p &&
    match exit
    case RepositoryBusy => a.RejectAtRepository?
    case GlobalBusy => a.RejectAtGlobal?
    case Cancelled => a.CancelEarly? || a.CancelAtGlobal?
    case Finished => a.CommandEnds?
  }

  /** The request is on its way out. */
  predicate Leaves(phase: Phase, exit: Exit) {
    phase == ReturningBoth(exit) || phase == ReturningRepository(exit) || phase == Done(exit)
  }

  ghost predicate IsRunning(r: Registry, p: nat) {
    p in r.requests && r.requests[p].phase.Running?
  }

  ghost predicate HasRun(states: seq<Registry>, i: nat, p: nat)
    requires i < |states|
  {
    exists j: nat :: j <= i && IsRunning(states[j], p)
  }

  /** Whether a request has run by now, phase by phase. */
  ghost predicate PhaseTellsRun(phase: Phase, ran: bool) {
    match phase
    case Arrived => !ran
    case HasRepository => !ran
    case Running => ran
    case ReturningBoth(exit) => ran && exit == Finished
    case ReturningRepository(exit) => ran <==> exit == Finished
    case Done(exit) => ran <==> exit == Finished
  }

  lemma PhaseTellsRunAfter(r: Registry, a: Action, limits: Limits, p: nat, ran: bool)
    requires Enabled(r, a, limits) && p in Apply(r, a, limits).requests
    requires if p in r.requests then PhaseTellsRun(r.requests[p].phase, ran) else !ran
    ensures PhaseTellsRun(Apply(r, a, limits).requests[p].phase, ran || IsRunning(Apply(r, a, limits), p))
  {
  }

  lemma HasRunStep(states: seq<Registry>, i: nat, p: nat)
    requires i + 1 < |states|
    ensures HasRun(states, i + 1, p) <==> HasRun(states, i, p) || IsRunning(states[i + 1], p)
  {
    if j: nat :| j <= i + 1 && IsRunning(states[j], p) {
      assert j <= i || j == i + 1;
    }
  }

  lemma {:induction false} EveryPhaseTellsRun(actions: seq<Action>, states: seq<Registry>, limits: Limits, i: nat,
          p: nat)
    requires Run(actions, states, limits) && i <= |actions|
    ensures if p in states[i].requests then PhaseTellsRun(states[i].requests[p].phase, HasRun(states, i, p))
            else !HasRun(states, i, p)
  {
    if i > 0 {
      EveryPhaseTellsRun(actions, states, limits, i - 1, p);
      assert Next(states[i - 1], actions[i - 1], states[i], limits);
      HasRunStep(states, i - 1, p);
      if p in states[i].requests {
        PhaseTellsRunAfter(states[i - 1], actions[i - 1], limits, p, HasRun(states, i - 1, p));
      }
    }
  }

  lemma {:induction false} SomeStepDecided(actions: seq<Action>, states: seq<Registry>, limits: Limits, i: nat, p: nat,
          exit: Exit)
    requires Run(actions, states, limits) && i <= |actions|
    requires p in states[i].requests && Leaves(states[i].requests[p].phase, exit)
    ensures exists j: nat :: j < i && Decides(actions[j], p, exit)
  {
    assert Next(states[i - 1], actions[i - 1], states[i], limits);
    if !Decides(actions[i - 1], p, exit) {
      SomeStepDecided(actions, states, limits, i - 1, p, exit);
    }
  }

  /** A request's answer tells what happened to it: it ended as finished exactly when its command had been
      running, otherwise it never ran, and it ended as busy or cancelled because of a step that rejected or
      cancelled it. */
  lemma AnswerTellsWhatHappened(actions: seq<Action>, states: seq<Registry>, limits: Limits, i: nat, p: nat, exit: Exit)
    requires Run(actions, states, limits) && i <= |actions|
    requires p in states[i].requests && states[i].requests[p].phase == Done(exit)
    ensures exit == Finished <==> HasRun(states, i, p)
    ensures exists j: nat :: j < i && Decides(actions[j], p, exit)
  {
    EveryPhaseTellsRun(actions, states, limits, i, p);
    SomeStepDecided(actions, states, limits, i, p, exit);
  }

  // ---------------------------------------------------------------- progress

  /** Nothing ever blocks: a request that is not done can always move, and giving a slot back finds a
      token in the channel. */
  lemma NothingBlocks(actions: seq<Action>, states: seq<Registry>, limits: Limits, i: nat, p: nat)
    requires Run(actions, states, limits) && i <= |actions|
    requires p in states[i].requests && !states[i].requests[p].phase.Done?
    ensures exists a: Action :: a.id == p && !a.CancelEarly? && !a.CancelAtGlobal? && Enabled(states[i], a, limits)
  {
    EveryRunConserves(actions, states, limits, i);
    var s := states[i];
    var q := s.requests[p];
    match q.phase
    case Arrived =>
      var a := if Used(s, q.repository) < limits.perRepository then TakeRepositorySlot(p) else RejectAtRepository(p);
      assert Enabled(s, a, limits);
    case HasRepository =>
      var a := if s.global < limits.global then TakeGlobalSlot(p) else RejectAtGlobal(p);
      assert Enabled(s, a, limits);
    case Running =>
      assert Enabled(s, CommandEnds(p), limits);
    case ReturningBoth(_) =>
      assert p in GlobalHolders(s.requests);
      assert Enabled(s, GiveGlobalSlot(p), limits);
    case ReturningRepository(_) =>
      assert p in RepositoryHolders(s.requests, q.repository);
      assert Used(s, q.repository) == |RepositoryHolders(s.requests, q.repository)|;
      assert Enabled(s, GiveRepositorySlot(p), limits);
  }

  /** Every way out restores both counts: the slots in use are exactly those of the requests that are not
      done, so once all requests are done, rejected and cancelled ones included, all slots are free. */
  lemma QuietRegistryIsFree(actions: seq<Action>, states: seq<Registry>, limits: Limits, i: nat)
    requires Run(actions, states, limits) && i <= |actions|
    requires forall p :: p in states[i].requests ==> states[i].requests[p].phase.Done?
    ensures states[i].global == 0 && forall repository: string :: Used(states[i], repository) == 0
  {
    EveryRunConserves(actions, states, limits, i);
    var s := states[i];
    assert GlobalHolders(s.requests) == {};
    forall repository: string ensures Used(s, repository) == 0 {
      assert RepositoryHolders(s.requests, repository) == {};
      assert Used(s, repository) == |RepositoryHolders(s.requests, repository)|;
    }
  }
}
