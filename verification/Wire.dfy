/**
 The alert wire under concurrent use, one step at a time.

 Each router has an evaluator, the lock that guards it and the store it was
 built on. They are looked up or made under the wire's own lock, used under
 the router's, and thrown away under the wire's while other threads may still
 be using the old ones.
 */
module Wire {
  import opened Wrappers

  type Router = string
  type Thread = nat
  type Id = nat

  /** An evaluator, with the lock and the store made for it. */
  datatype Kit = Kit(eval: Id, lock: Id, store: Id)

  datatype Operation =
    | Judge            // Evaluate, RouterStatus, DeviceAbsent and DomainRouting
    | Tick
    | Withdraw
    | Drop
    | SetPersisting(on: bool)

  /** Where a thread is. `Mu` places hold the wire's lock, `Using` places a router's. */
  datatype Place =
    | Idle
    | AwaitMu(op: Operation, router: Router)
    | MuEntered(op: Operation, router: Router)
    | MuStored(op: Operation, router: Router, store: Id)
    | MuEvaluated(op: Operation, router: Router, store: Id, eval: Id)
    | MuDropping(op: Operation, router: Router)
    | MuLeaving(op: Operation, found: Option<Kit>)
    | AwaitLock(op: Operation, kit: Kit)
    | UsingChecked(op: Operation, kit: Kit)
    | UsingClock(op: Operation, kit: Kit)
    | UsingRules(op: Operation, kit: Kit)

  predicate InMu(p: Place) {
    p.MuEntered? || p.MuStored? || p.MuEvaluated? || p.MuDropping? || p.MuLeaving?
  }

  predicate Using(p: Place) {
    p.UsingChecked? || p.UsingClock? || p.UsingRules?
  }

  datatype State = State(
    mu: Option<Thread>,
    held: map<Id, Thread>,
    evals: map<Router, Id>,
    locks: map<Router, Id>,
    stores: map<Router, Id>,
    persist: map<Router, bool>,
    threads: map<Thread, Place>,
    made: set<Kit>,
    next: Id)

  function Move(s: State, t: Thread, p: Place): State {
    s.(threads := s.threads[t := p])
  }

  // ---- The steps ------------------------------------------------------------

  /** A thread can take its next step unless it waits for a lock that is held. */
  predicate Enabled(s: State, t: Thread) {
    t in s.threads
    && match s.threads[t]
       case Idle => false
       case AwaitMu(_, _) => s.mu.None?
       case AwaitLock(_, kit) => kit.lock !in s.held
       case _ => true
  }

  function EnteredStep(s: State, t: Thread, op: Operation, r: Router): State {
    match op
    case Tick =>
      Move(s, t, MuLeaving(op, if r in s.evals && r in s.locks && r in s.stores
                               then Some(Kit(s.evals[r], s.locks[r], s.stores[r])) else None))
    case Drop => Move(s.(evals := s.evals - {r}), t, MuDropping(op, r))
    case SetPersisting(on) =>
      if r in s.persist && s.persist[r] == on then Move(s, t, MuLeaving(op, None))
      else Move(s.(persist := s.persist[r := on], evals := s.evals - {r}), t, MuDropping(op, r))
    case _ =>
      if r in s.stores then
        Move(s, t, MuLeaving(op, if r in s.evals && r in s.locks
                                 then Some(Kit(s.evals[r], s.locks[r], s.stores[r])) else None))
      else Move(s.(stores := s.stores[r := s.next], next := s.next + 1), t, MuStored(op, r, s.next))
  }

  function StepOf(s: State, t: Thread): State
    requires Enabled(s, t)
  {
    match s.threads[t]
    case AwaitMu(op, r) => Move(s.(mu := Some(t)), t, MuEntered(op, r))
    case MuEntered(op, r) => EnteredStep(s, t, op, r)
    case MuStored(op, r, store) =>
      Move(s.(evals := s.evals[r := s.next], next := s.next + 1), t, MuEvaluated(op, r, store, s.next))
    case MuEvaluated(op, r, store, eval) =>
      var kit := Kit(eval, s.next, store);
      Move(s.(locks := s.locks[r := s.next], next := s.next + 1, made := s.made + {kit}),
           t, MuLeaving(op, Some(kit)))
    case MuDropping(op, r) => Move(s.(stores := s.stores - {r}), t, MuLeaving(op, None))
    case MuLeaving(op, kit) =>
      Move(s.(mu := None), t, if kit.None? then Idle else AwaitLock(op, kit.value))
    case AwaitLock(op, kit) =>
      Move(s.(held := s.held[kit.lock := t]), t,
           if op.Withdraw? then UsingChecked(op, kit) else UsingClock(op, kit))
    case UsingChecked(op, kit) => Move(s, t, UsingClock(op, kit))
    case UsingClock(op, kit) => Move(s, t, UsingRules(op, kit))
    case UsingRules(op, kit) => Move(s.(held := s.held - {kit.lock}), t, Idle)
    case Idle => s
  }

  /** A withdrawal that finds nothing open leaves without touching the clock. */
  ghost predicate LeavesEarly(s: State, t: Thread, s': State) {
    && t in s.threads && s.threads[t].UsingChecked?
    && s' == Move(s.(held := s.held - {s.threads[t].kit.lock}), t, Idle)
  }

  /** A thread with nothing to do calls the wire. */
  ghost predicate Calls(s: State, t: Thread, s': State) {
    && t in s.threads && s.threads[t].Idle?
    && exists op, r :: s' == Move(s, t, AwaitMu(op, r))
  }

  ghost predicate Next(s: State, t: Thread, s': State) {
    || Calls(s, t, s')
    || LeavesEarly(s, t, s')
    || (Enabled(s, t) && s' == StepOf(s, t))
  }

  ghost predicate Initial(s: State) {
    && s.mu.None? && s.held == map[] && s.evals == map[] && s.locks == map[] && s.stores == map[]
    && s.made == {}
    && (forall t :: t in s.threads ==> s.threads[t].Idle?)
  }

  ghost predicate Follows(s: State, s': State) {
    exists t :: Next(s, t, s')
  }

  /** A run: each state follows from the one before by a step of some thread. */
  ghost predicate IsRun(run: seq<State>) {
    && run != []
    && Initial(run[0])
    && (forall i :: 0 <= i < |run| - 1 ==> Follows(run[i], run[i + 1]))
  }

  // ---- The invariant --------------------------------------------------------

  /** The kit a place carries, if it does. */
  function KitAt(p: Place): Option<Kit> {
    match p
    case MuLeaving(_, kit) => kit
    case AwaitLock(_, kit) => Some(kit)
    case UsingChecked(_, kit) => Some(kit)
    case UsingClock(_, kit) => Some(kit)
    case UsingRules(_, kit) => Some(kit)
    case _ => None
  }

  /** The wire's lock is held by exactly the thread that is in a `Mu` place. */
  ghost predicate MuHeld(s: State) {
    && (forall t :: t in s.threads && InMu(s.threads[t]) ==> s.mu == Some(t))
    && (s.mu.Some? ==> s.mu.value in s.threads && InMu(s.threads[s.mu.value]))
  }

  /** A router's lock is held by exactly the thread that is using its kit. */
  ghost predicate LocksHeld(s: State) {
    && (forall t :: t in s.threads && Using(s.threads[t]) ==>
          s.threads[t].kit.lock in s.held && s.held[s.threads[t].kit.lock] == t)
    && (forall l :: l in s.held ==>
          s.held[l] in s.threads && Using(s.threads[s.held[l]]) && s.threads[s.held[l]].kit.lock == l)
  }

  /** Kits share nothing: each was made once, of parts made for it. */
  ghost predicate KitsApart(s: State) {
    && (forall k :: k in s.made ==> k.eval < s.next && k.lock < s.next && k.store < s.next)
    && (forall k, k' :: k in s.made && k' in s.made && (k.eval == k'.eval || k.lock == k'.lock || k.store == k'.store)
          ==> k == k')
  }

  ghost predicate KitsMade(s: State) {
    forall t :: t in s.threads && KitAt(s.threads[t]).Some? ==> KitAt(s.threads[t]).value in s.made
  }

  /** What the maps hold for a router nobody is in the middle of changing. */
  ghost predicate Settled(s: State, r: Router) {
    && (r in s.evals <==> r in s.stores)
    && (r in s.stores ==> r in s.locks && Kit(s.evals[r], s.locks[r], s.stores[r]) in s.made)
  }

  /** A part that belongs to no kit yet. */
  ghost predicate Unused(s: State, id: Id) {
    id < s.next && forall k :: k in s.made ==> k.eval != id && k.lock != id && k.store != id
  }

  /** What the maps hold for the router the holder of the wire's lock is changing. */
  ghost predicate Changing(s: State, p: Place) {
    match p
    case MuStored(_, r, store) =>
      r in s.stores && s.stores[r] == store && Unused(s, store)
    case MuEvaluated(_, r, store, eval) =>
      && r in s.stores && s.stores[r] == store && r in s.evals && s.evals[r] == eval
      && Unused(s, store) && Unused(s, eval) && store != eval
    case MuDropping(_, r) => r !in s.evals
    case _ => true
  }

  ghost predicate Busy(s: State, r: Router) {
    && s.mu.Some? && s.mu.value in s.threads
    && match s.threads[s.mu.value]
       case MuStored(_, r', _) => r == r'
       case MuEvaluated(_, r', _, _) => r == r'
       case MuDropping(_, r') => r == r'
       case _ => false
  }

  ghost predicate MapsAgree(s: State) {
    && (forall r :: !Busy(s, r) ==> Settled(s, r))
    && (s.mu.Some? && s.mu.value in s.threads ==> Changing(s, s.threads[s.mu.value]))
  }

  ghost predicate Inv(s: State) {
    MuHeld(s) && LocksHeld(s) && KitsApart(s) && KitsMade(s) && MapsAgree(s)
  }

  // ---- Every step keeps it --------------------------------------------------

  lemma InitialIsGood(s: State)
    requires Initial(s)
    ensures Inv(s)
  {
  }

  /** Nothing the maps say depends on a thread that does not hold the wire's lock. */
  lemma MapsUntouched(s: State, s': State)
    requires MapsAgree(s)
    requires s'.evals == s.evals && s'.locks == s.locks && s'.stores == s.stores && s'.made == s.made && s'.next == s.next
    requires s'.mu == s.mu
    requires s.mu.Some? ==> s.mu.value in s.threads && s.mu.value in s'.threads
    requires s.mu.Some? ==> s'.threads[s.mu.value] == s.threads[s.mu.value]
    ensures MapsAgree(s')
  {
    forall r | !Busy(s', r)
      ensures Settled(s', r)
    {
      assert !Busy(s, r);
      assert Settled(s, r);
    }
  }

  /** Taking the wire's lock, or giving it back between changes, leaves every router settled. */
  lemma MapsSettled(s: State, s': State)
    requires MapsAgree(s) && forall r :: !Busy(s, r)
    requires s'.evals == s.evals && s'.locks == s.locks && s'.stores == s.stores && s'.made == s.made && s'.next == s.next
    requires s'.mu.Some? ==> s'.mu.value in s'.threads && (s'.threads[s'.mu.value].MuEntered? || s'.threads[s'.mu.value].MuLeaving?)
    ensures MapsAgree(s')
  {
    forall r
      ensures Settled(s', r)
    {
      assert !Busy(s, r);
      assert Settled(s, r);
    }
  }

  /** A thread moves between places that hold no lock or the same one. */
  lemma MoveKeepsLocks(s: State, t: Thread, p: Place)
    requires LocksHeld(s) && t in s.threads
    requires || (!Using(s.threads[t]) && !Using(p))
             || (Using(s.threads[t]) && Using(p) && p.kit == s.threads[t].kit)
    ensures LocksHeld(Move(s, t, p))
  {
  }

  /** Outside the wire's lock, a thread that keeps its kit or has none leaves all but the routers' locks in order. */
  lemma MoveOutside(s: State, s': State, t: Thread, p: Place)
    requires MuHeld(s) && KitsApart(s) && KitsMade(s) && MapsAgree(s)
    requires t in s.threads && !InMu(s.threads[t]) && !InMu(p)
    requires KitAt(p).None? || KitAt(p) == KitAt(s.threads[t])
    requires s' == s.(held := s'.held, threads := s.threads[t := p])
    ensures MuHeld(s') && KitsApart(s') && KitsMade(s') && MapsAgree(s')
  {
    MapsUntouched(s, s');
  }

  lemma CallKeeps(s: State, t: Thread, s': State)
    requires Inv(s) && Calls(s, t, s')
    ensures Inv(s')
  {
    var op, r :| s' == Move(s, t, AwaitMu(op, r));
    MoveKeepsLocks(s, t, AwaitMu(op, r));
    MoveOutside(s, s', t, AwaitMu(op, r));
  }

  lemma UnlockKeepsLocks(s: State, t: Thread, s': State)
    requires LocksHeld(s) && t in s.threads && Using(s.threads[t])
    requires s'.held == s.held - {s.threads[t].kit.lock} && s'.threads == s.threads[t := Idle]
    ensures LocksHeld(s')
  {
    forall u | u in s'.threads && Using(s'.threads[u])
      ensures s'.threads[u].kit.lock in s'.held && s'.held[s'.threads[u].kit.lock] == u
    {
      assert s.held[s.threads[u].kit.lock] == u;
    }
  }

  /** Leaving a router's lock. */
  lemma UnlockKeeps(s: State, t: Thread)
    requires Inv(s) && t in s.threads && Using(s.threads[t])
    ensures Inv(Move(s.(held := s.held - {s.threads[t].kit.lock}), t, Idle))
  {
    var s' := Move(s.(held := s.held - {s.threads[t].kit.lock}), t, Idle);
    UnlockKeepsLocks(s, t, s');
    MoveOutside(s, s', t, Idle);
  }

  lemma LockKeepsLocks(s: State, t: Thread, s': State, p: Place)
    requires LocksHeld(s) && t in s.threads && !Using(s.threads[t]) && Using(p) && p.kit.lock !in s.held
    requires s'.held == s.held[p.kit.lock := t] && s'.threads == s.threads[t := p]
    ensures LocksHeld(s')
  {
    forall u | u in s'.threads && Using(s'.threads[u])
      ensures s'.threads[u].kit.lock in s'.held && s'.held[s'.threads[u].kit.lock] == u
    {
      assert u != t ==> s.held[s.threads[u].kit.lock] == u;
    }
  }

  /** Taking a router's lock. */
  lemma LockKeeps(s: State, t: Thread)
    requires Inv(s) && Enabled(s, t) && s.threads[t].AwaitLock?
    ensures Inv(StepOf(s, t))
  {
    var s' := StepOf(s, t);
    LockKeepsLocks(s, t, s', s'.threads[t]);
    MoveOutside(s, s', t, s'.threads[t]);
  }

  /** Moving on under it. */
  lemma UsingKeeps(s: State, t: Thread)
    requires Inv(s) && t in s.threads && (s.threads[t].UsingChecked? || s.threads[t].UsingClock?)
    ensures Inv(StepOf(s, t))
  {
    var s' := StepOf(s, t);
    MoveKeepsLocks(s, t, s'.threads[t]);
    MoveOutside(s, s', t, s'.threads[t]);
  }

  /** Taking the wire's lock. */
  lemma EnterKeeps(s: State, t: Thread)
    requires Inv(s) && Enabled(s, t) && s.threads[t].AwaitMu?
    ensures Inv(StepOf(s, t))
  {
    var s' := StepOf(s, t);
    MoveKeepsLocks(s, t, s'.threads[t]);
    MapsSettled(s, s');
  }

  /** Giving it back. */
  lemma LeaveKeeps(s: State, t: Thread)
    requires Inv(s) && t in s.threads && s.threads[t].MuLeaving?
    ensures Inv(StepOf(s, t))
  {
    var s' := StepOf(s, t);
    MoveKeepsLocks(s, t, s'.threads[t]);
    MapsSettled(s, s');
  }

  /** Inside the wire's lock, only one router's entries change. */
  lemma MapsChange(s: State, s': State, t: Thread, r: Router)
    requires MapsAgree(s) && s.mu == Some(t) == s'.mu && t in s.threads && t in s'.threads
    requires forall q :: q != r ==> !Busy(s, q)
    requires forall q :: q != r ==>
               && (q in s.evals <==> q in s'.evals) && (q in s.evals ==> s.evals[q] == s'.evals[q])
               && (q in s.locks <==> q in s'.locks) && (q in s.locks ==> s.locks[q] == s'.locks[q])
               && (q in s.stores <==> q in s'.stores) && (q in s.stores ==> s.stores[q] == s'.stores[q])
    requires s.made <= s'.made
    requires Busy(s', r) || Settled(s', r)
    requires Changing(s', s'.threads[t])
    ensures MapsAgree(s')
  {
    forall q | !Busy(s', q)
      ensures Settled(s', q)
    {
      if q != r {
        assert Settled(s, q);
      }
    }
  }

  /** A thread inside the wire's lock moves to another place inside it. */
  lemma MoveInMu(s: State, s': State, t: Thread, p: Place)
    requires MuHeld(s) && LocksHeld(s) && KitsMade(s) && t in s.threads && InMu(s.threads[t]) && InMu(p)
    requires s'.threads == s.threads[t := p] && s'.mu == s.mu && s'.held == s.held && s.made <= s'.made
    requires KitAt(p).Some? ==> KitAt(p).value in s'.made
    ensures MuHeld(s') && LocksHeld(s') && KitsMade(s')
  {
    MoveKeepsLocks(s, t, p);
  }

  /** A kit of parts no other kit has. */
  lemma NewKit(s: State, s': State, kit: Kit)
    requires KitsApart(s) && s'.made == s.made + {kit} && s'.next == s.next + 1
    requires Unused(s, kit.store) && Unused(s, kit.eval) && kit.lock == s.next
    ensures KitsApart(s')
  {
  }

  /** Looking up and finding, or not, changes nothing. */
  lemma LookedUpKeeps(s: State, t: Thread, op: Operation, r: Router, found: Option<Kit>)
    requires Inv(s) && t in s.threads && s.threads[t] == MuEntered(op, r)
    requires found.Some? ==> found.value in s.made
    ensures Inv(Move(s, t, MuLeaving(op, found)))
  {
    var s' := Move(s, t, MuLeaving(op, found));
    MoveInMu(s, s', t, s'.threads[t]);
    MapsSettled(s, s');
  }

  /** Throwing the evaluator away is the first half of dropping a router. */
  lemma ForgetKeeps(s: State, t: Thread, op: Operation, r: Router, persist: map<Router, bool>)
    requires Inv(s) && t in s.threads && s.threads[t] == MuEntered(op, r)
    ensures Inv(Move(s.(evals := s.evals - {r}, persist := persist), t, MuDropping(op, r)))
  {
    var s' := Move(s.(evals := s.evals - {r}, persist := persist), t, MuDropping(op, r));
    MoveInMu(s, s', t, s'.threads[t]);
    MapsChange(s, s', t, r);
  }

  /** Making a store is the first third of making a kit. */
  lemma MakeStoreKeeps(s: State, t: Thread, op: Operation, r: Router)
    requires Inv(s) && t in s.threads && s.threads[t] == MuEntered(op, r) && r !in s.stores
    ensures Inv(Move(s.(stores := s.stores[r := s.next], next := s.next + 1), t, MuStored(op, r, s.next)))
  {
    var s' := Move(s.(stores := s.stores[r := s.next], next := s.next + 1), t, MuStored(op, r, s.next));
    MoveInMu(s, s', t, s'.threads[t]);
    MapsChange(s, s', t, r);
  }

  lemma EnteredKeeps(s: State, t: Thread, op: Operation, r: Router)
    requires Inv(s) && t in s.threads && s.threads[t] == MuEntered(op, r)
    ensures Inv(EnteredStep(s, t, op, r))
  {
    assert Settled(s, r);
    var s' := EnteredStep(s, t, op, r);
    if s'.threads[t].MuLeaving? {
      LookedUpKeeps(s, t, op, r, s'.threads[t].found);
    } else if s'.threads[t].MuDropping? {
      ForgetKeeps(s, t, op, r, s'.persist);
    } else {
      MakeStoreKeeps(s, t, op, r);
    }
  }

  lemma MakeEvaluatorKeeps(s: State, t: Thread)
    requires Inv(s) && t in s.threads && s.threads[t].MuStored?
    ensures Inv(StepOf(s, t))
  {
    var s' := StepOf(s, t);
    MoveInMu(s, s', t, s'.threads[t]);
    MapsChange(s, s', t, s.threads[t].router);
  }

  lemma MakeLockKeeps(s: State, t: Thread)
    requires Inv(s) && t in s.threads && s.threads[t].MuEvaluated?
    ensures Inv(StepOf(s, t))
  {
    var s' := StepOf(s, t);
    NewKit(s, s', s'.threads[t].found.value);
    MoveInMu(s, s', t, s'.threads[t]);
    MapsChange(s, s', t, s.threads[t].router);
  }

  lemma DropKeeps(s: State, t: Thread)
    requires Inv(s) && t in s.threads && s.threads[t].MuDropping?
    ensures Inv(StepOf(s, t))
  {
    var s' := StepOf(s, t);
    MoveInMu(s, s', t, s'.threads[t]);
    MapsChange(s, s', t, s.threads[t].router);
  }

  lemma StepKeeps(s: State, t: Thread)
    requires Inv(s) && Enabled(s, t)
    ensures Inv(StepOf(s, t))
  {
    match s.threads[t]
    case AwaitMu(_, _) => EnterKeeps(s, t);
    case MuEntered(op, r) => EnteredKeeps(s, t, op, r);
    case MuStored(_, _, _) => MakeEvaluatorKeeps(s, t);
    case MuEvaluated(_, _, _, _) => MakeLockKeeps(s, t);
    case MuDropping(_, _) => DropKeeps(s, t);
    case MuLeaving(_, _) => LeaveKeeps(s, t);
    case AwaitLock(_, _) => LockKeeps(s, t);
    case UsingRules(_, _) => UnlockKeeps(s, t);
    case _ => UsingKeeps(s, t);
  }

  lemma {:induction false} RunKeeps(run: seq<State>, i: nat)
    requires IsRun(run) && i < |run|
    ensures Inv(run[i])
  {
    if i == 0 {
      InitialIsGood(run[0]);
    } else {
      RunKeeps(run, i - 1);
      assert Follows(run[i - 1], run[i - 1 + 1]);
      var t :| Next(run[i - 1], t, run[i]);
      if Calls(run[i - 1], t, run[i]) {
        CallKeeps(run[i - 1], t, run[i]);
      } else if LeavesEarly(run[i - 1], t, run[i]) {
        UnlockKeeps(run[i - 1], t);
      } else {
        StepKeeps(run[i - 1], t);
      }
    }
  }

  // ---- What every run guarantees --------------------------------------------

  /**
   In every interleaving, two threads under a router's lock are on kits that
   share no evaluator, no lock and no store: nobody runs the same rules, or
   touches the same store's clock, at the same time.
   */
  lemma NoSharedUse(run: seq<State>, i: nat, t: Thread, u: Thread)
    requires IsRun(run) && i < |run| && t != u
    requires t in run[i].threads && u in run[i].threads
    requires Using(run[i].threads[t]) && Using(run[i].threads[u])
    ensures var k, k' := run[i].threads[t].kit, run[i].threads[u].kit;
            k.eval != k'.eval && k.lock != k'.lock && k.store != k'.store
  {
    RunKeeps(run, i);
  }

  /** Every kit in use, or about to be, was made as one; and it is used under the lock made with it. */
  lemma KitsStayTogether(run: seq<State>, i: nat, t: Thread)
    requires IsRun(run) && i < |run| && t in run[i].threads && KitAt(run[i].threads[t]).Some?
    ensures KitAt(run[i].threads[t]).value in run[i].made
    ensures Using(run[i].threads[t]) ==>
              run[i].threads[t].kit.lock in run[i].held && run[i].held[run[i].threads[t].kit.lock] == t
  {
    RunKeeps(run, i);
  }

  /** No thread waits for a router's lock while it holds the wire's, nor for the wire's while it holds a router's. */
  lemma NoNestedWait(run: seq<State>, i: nat, t: Thread)
    requires IsRun(run) && i < |run| && t in run[i].threads
    ensures run[i].threads[t].AwaitLock? ==> run[i].mu != Some(t)
    ensures run[i].threads[t].AwaitMu? || InMu(run[i].threads[t]) ==>
              forall l :: l in run[i].held ==> run[i].held[l] != t
  {
    RunKeeps(run, i);
  }

  /** Whoever enters the wire's lock finds the maps agreeing: an evaluator has its lock and its store. */
  lemma EvaluatorHasKit(run: seq<State>, i: nat, t: Thread, r: Router)
    requires IsRun(run) && i < |run| && t in run[i].threads && run[i].threads[t].MuEntered?
    ensures r in run[i].evals <==> r in run[i].stores
    ensures r in run[i].evals ==> r in run[i].locks && Kit(run[i].evals[r], run[i].locks[r], run[i].stores[r]) in run[i].made
  {
    RunKeeps(run, i);
    assert Settled(run[i], r);
  }

  /** Looking a router up always finds a whole kit: whoever asks for one leaves with one. */
  lemma LookupFindsKit(run: seq<State>, i: nat, t: Thread)
    requires IsRun(run) && i < |run| && t in run[i].threads && run[i].threads[t].MuEntered?
    requires run[i].threads[t].op.Judge? || run[i].threads[t].op.Withdraw?
    requires run[i].threads[t].router in run[i].stores
    ensures var s' := StepOf(run[i], t); s'.threads[t].MuLeaving? && s'.threads[t].found.Some?
  {
    EvaluatorHasKit(run, i, t, run[i].threads[t].router);
  }

  /** A tick looks only for the evaluator, and never misses the lock or the store of one it finds. */
  lemma TickFindsKit(run: seq<State>, i: nat, t: Thread)
    requires IsRun(run) && i < |run| && t in run[i].threads && run[i].threads[t].MuEntered? && run[i].threads[t].op.Tick?
    ensures var r, s' := run[i].threads[t].router, StepOf(run[i], t);
            s'.threads[t].MuLeaving? && (s'.threads[t].found.Some? <==> r in run[i].evals)
  {
    EvaluatorHasKit(run, i, t, run[i].threads[t].router);
  }

  // ---- What a call does under the wire's lock -------------------------------

  ghost predicate SameMaps(s: State, s': State) {
    s'.evals == s.evals && s'.locks == s.locks && s'.stores == s.stores && s'.persist == s.persist && s'.made == s.made
    && s'.next == s.next
  }

  /** What the maps hold for a router is this kit. */
  ghost predicate Holds(s: State, r: Router, kit: Kit) {
    && r in s.evals && s.evals[r] == kit.eval && r in s.locks && s.locks[r] == kit.lock
    && r in s.stores && s.stores[r] == kit.store
  }

  ghost predicate IsGone(s: State, r: Router) {
    r !in s.evals && r !in s.stores
  }

  /** What came of a call that entered at `s0` and is about to leave. */
  ghost predicate CameTo(s0: State, s: State, op: Operation, r: Router, found: Option<Kit>) {
    match op
    case Tick => SameMaps(s0, s) && (found.Some? <==> r in s0.evals) && (found.Some? ==> Holds(s0, r, found.value))
    case Drop => found.None? && IsGone(s, r)
    case SetPersisting(on) =>
      && found.None? && r in s.persist && s.persist[r] == on
      && if r in s0.persist && s0.persist[r] == on then SameMaps(s0, s) else IsGone(s, r)
    case _ =>
      && found.Some? && Holds(s, r, found.value)
      && if r in s0.stores then SameMaps(s0, s) else found.value !in s0.made
  }

  /** Where a call that entered at `s0` stands. */
  ghost predicate Underway(s0: State, s: State, t: Thread, op: Operation, r: Router) {
    t in s.threads
    && match s.threads[t]
       case MuEntered(op', r') => op' == op && r' == r && SameMaps(s0, s)
       case MuStored(op', r', _) =>
         op' == op && r' == r && (op.Judge? || op.Withdraw?) && r !in s0.stores && s.made == s0.made && s.next >= s0.next
       case MuEvaluated(op', r', _, _) =>
         op' == op && r' == r && (op.Judge? || op.Withdraw?) && r !in s0.stores && s.made == s0.made && s.next >= s0.next
       case MuDropping(op', r') =>
         && op' == op && r' == r
         && (op.Drop? || (op.SetPersisting? && !(r in s0.persist && s0.persist[r] == op.on)
                          && r in s.persist && s.persist[r] == op.on))
       case MuLeaving(op', found) => op' == op && CameTo(s0, s, op, r, found)
       case _ => false
  }

  lemma OutsideLeavesMaps(s: State, u: Thread)
    requires Enabled(s, u) && s.mu.Some? && !InMu(s.threads[u])
    ensures SameMaps(s, StepOf(s, u)) && StepOf(s, u).threads == s.threads[u := StepOf(s, u).threads[u]]
  {
    match s.threads[u]
    case AwaitLock(_, _) =>
    case UsingChecked(_, _) =>
    case UsingClock(_, _) =>
    case UsingRules(_, _) =>
    case _ =>
  }

  /** Nobody else touches the maps meanwhile. */
  lemma OthersLeaveMaps(s: State, t: Thread, u: Thread, s': State)
    requires MuHeld(s) && t in s.threads && InMu(s.threads[t]) && u != t && Next(s, u, s')
    ensures SameMaps(s, s') && t in s'.threads && s'.threads[t] == s.threads[t]
  {
    if Calls(s, u, s') {
      var op, r :| s' == Move(s, u, AwaitMu(op, r));
    } else if !LeavesEarly(s, u, s') {
      OutsideLeavesMaps(s, u);
    }
  }

  lemma StaysUnderway(s0: State, s: State, s': State, t: Thread, op: Operation, r: Router)
    requires Underway(s0, s, t, op, r) && SameMaps(s, s') && t in s'.threads && s'.threads[t] == s.threads[t]
    ensures Underway(s0, s', t, op, r)
  {
  }

  lemma StoredOn(s0: State, s: State, t: Thread, op: Operation, r: Router)
    requires t in s.threads && s.threads[t].MuStored? && Underway(s0, s, t, op, r)
    ensures Underway(s0, StepOf(s, t), t, op, r)
  {
  }

  lemma OwnStepOn(s0: State, s: State, t: Thread, op: Operation, r: Router)
    requires Inv(s0) && Inv(s) && Underway(s0, s, t, op, r) && Enabled(s, t) && !s.threads[t].MuLeaving?
    ensures Underway(s0, StepOf(s, t), t, op, r)
  {
    match s.threads[t]
    case MuEntered(_, _) => EnteredOn(s0, s, t, op, r);
    case MuStored(_, _, _) => StoredOn(s0, s, t, op, r);
    case MuEvaluated(_, _, _, _) => EvaluatedOn(s0, s, t, op, r);
    case MuDropping(_, _) => DroppingOn(s0, s, t, op, r);
  }

  /** Inside the wire's lock a thread has one step to take, and the last one leaves. */
  lemma StepInMu(s: State, t: Thread, s': State)
    requires t in s.threads && InMu(s.threads[t]) && Next(s, t, s')
    ensures Enabled(s, t) && s' == StepOf(s, t)
    ensures s.threads[t].MuLeaving? ==> t in s'.threads && !InMu(s'.threads[t])
  {
  }

  lemma EnteredOn(s0: State, s: State, t: Thread, op: Operation, r: Router)
    requires Inv(s0) && Inv(s) && t in s.threads && s.threads[t] == MuEntered(op, r) && SameMaps(s0, s)
    ensures Underway(s0, EnteredStep(s, t, op, r), t, op, r)
  {
    assert !Busy(s, r) && Settled(s, r);
  }

  lemma EvaluatedOn(s0: State, s: State, t: Thread, op: Operation, r: Router)
    requires Inv(s0) && Inv(s) && t in s.threads && s.threads[t].MuEvaluated? && Underway(s0, s, t, op, r)
    ensures Underway(s0, StepOf(s, t), t, op, r)
  {
    assert Changing(s, s.threads[t]);
  }

  lemma DroppingOn(s0: State, s: State, t: Thread, op: Operation, r: Router)
    requires Inv(s) && t in s.threads && s.threads[t].MuDropping? && Underway(s0, s, t, op, r)
    ensures Underway(s0, StepOf(s, t), t, op, r)
  {
    assert Changing(s, s.threads[t]);
  }

  /** A step of any thread that leaves this one inside. */
  lemma StepOn(s0: State, s: State, s': State, t: Thread, op: Operation, r: Router)
    requires Inv(s0) && Inv(s) && Underway(s0, s, t, op, r) && Follows(s, s')
    requires t in s'.threads && InMu(s'.threads[t])
    ensures Underway(s0, s', t, op, r)
  {
    var u :| Next(s, u, s');
    if u != t {
      OthersLeaveMaps(s, t, u, s');
      StaysUnderway(s0, s, s', t, op, r);
    } else {
      StepInMu(s, t, s');
      OwnStepOn(s0, s, t, op, r);
    }
  }

  lemma UnderwayAtFirst(s: State, t: Thread, op: Operation, r: Router)
    requires t in s.threads && s.threads[t] == MuEntered(op, r)
    ensures Underway(s, s, t, op, r)
  {
  }

  lemma RunGoesOn(run: seq<State>, i: nat)
    requires IsRun(run) && i + 1 < |run|
    ensures Inv(run[i]) && Follows(run[i], run[i + 1])
  {
    RunKeeps(run, i);
  }

  /** The thread is inside the wire's lock all this time. */
  ghost predicate StaysInMu(run: seq<State>, i: nat, j: nat, t: Thread)
    requires j < |run|
  {
    forall k :: i <= k <= j ==> t in run[k].threads && InMu(run[k].threads[t])
  }

  /**
   Any call, from entering the wire's lock to leaving it, whatever other
   threads do meanwhile: an evaluation or a withdrawal leaves with the kit of
   its router, which is a new one if there was no store; a dropped router, and
   one whose persistence was changed, has neither evaluator nor store left.
   */
  lemma {:induction false} CallComesTo(run: seq<State>, i: nat, j: nat, t: Thread, op: Operation, r: Router)
    requires IsRun(run) && i <= j < |run| && StaysInMu(run, i, j, t) && run[i].threads[t] == MuEntered(op, r)
    ensures Underway(run[i], run[j], t, op, r)
    decreases j
  {
    if i == j {
      UnderwayAtFirst(run[i], t, op, r);
    } else {
      CallComesTo(run, i, j - 1, t, op, r);
      RunKeeps(run, i);
      RunGoesOn(run, j - 1);
      StepOn(run[i], run[j - 1], run[j], t, op, r);
    }
  }

  /** There is no deadlock: while any thread is in the middle of a call, some such thread can go on. */
  lemma NoDeadlock(run: seq<State>, i: nat, t: Thread) returns (u: Thread)
    requires IsRun(run) && i < |run| && t in run[i].threads && !run[i].threads[t].Idle?
    ensures Enabled(run[i], u)
  {
    RunKeeps(run, i);
    var s := run[i];
    if Enabled(s, t) {
      u := t;
    } else if s.threads[t].AwaitMu? {
      u := s.mu.value;
    } else {
      u := s.held[s.threads[t].kit.lock];
    }
  }
}
