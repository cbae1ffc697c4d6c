/** What the threads of the server can always get done, on their own: serve what has been accepted, accept
    again, and end when they are stopped. */
module WorkerProgress {
  import opened Wrappers
  import opened WorkerPool
  import opened WorkerStops

  // ---- paths without luck ----

  /** A step of a worker or the acceptor that needs neither a spurious wakeup nor a new connection. */
  ghost predicate StepsOn(s: State, t: State) {
    || (exists i :: 0 <= i < |s.workers| && s.workers[i] != Waiting && WorkerStep(s, t, i))
    || (s.acceptor != Accept && AcceptorStep(s, t))
  }

  datatype Goal = IsClosed(r: Request) | Accepting | AllGone

  predicate Met(s: State, goal: Goal) {
    match goal
    case IsClosed(r) => r in s.closed
    case Accepting => s.acceptor == Accept
    case AllGone => forall i :: 0 <= i < |s.workers| ==> s.workers[i] == Gone
  }

  ghost predicate LeadsTo(path: seq<State>, s: State, goal: Goal) {
    && path != [] && path[0] == s && Met(path[|path| - 1], goal)
    && forall k :: 0 <= k < |path| - 1 ==> StepsOn(path[k], path[k + 1])
  }

  ghost predicate CanReach(s: State, goal: Goal) {
    exists path :: LeadsTo(path, s, goal)
  }

  lemma ReachedNow(s: State, goal: Goal)
    requires Met(s, goal)
    ensures CanReach(s, goal)
  {
    assert LeadsTo([s], s, goal);
  }

  lemma ReachedLater(s: State, t: State, goal: Goal)
    requires StepsOn(s, t) && CanReach(t, goal)
    ensures CanReach(s, goal)
  {
    hide StepsOn, Met;
    var path :| LeadsTo(path, t, goal);
    var longer := [s] + path;
    forall k | 0 <= k < |longer| - 1
      ensures StepsOn(longer[k], longer[k + 1])
    {
      if k > 0 {
        assert StepsOn(path[k - 1], path[k - 1 + 1]);
      }
    }
    assert LeadsTo(longer, s, goal);
  }

  lemma WorkerStepsOn(s: State, i: nat)
    requires Exclusive(s) && PopFinds(s)
    requires i < |s.workers| && s.workers[i] != Waiting && s.workers[i] != Gone
    requires s.lock == Some(Worker(i)) || s.lock == None
    ensures StepsOn(s, Onward(s, i)) && WorkerStep(s, Onward(s, i), i)
  {
    hide WorkerStep, Onward, Exclusive;
    HolderMoves(s, i);
  }

  predicate AcceptorCanMove(s: State) {
    s.acceptor == ATest || AcceptorHoldsLock(s.acceptor) || s.acceptor == ABroadcast
    || (s.acceptor.AWantLock? && s.lock == None)
  }

  function AcceptorOnward(s: State): State {
    match s.acceptor
    case ATest => s.(acceptor := if s.keepAlive then Accept else AGone)
    case AWantLock(r) => s.(acceptor := AAdd(r), lock := Some(Acceptor))
    case AAdd(r) => s.(acceptor := AUnlock, queue := s.queue + [r])
    case AUnlock => s.(acceptor := ABroadcast, lock := None)
    case ABroadcast => s.(acceptor := ATest, workers := WakeAll(s.workers))
    case _ => s
  }

  lemma AcceptorStepsOn(s: State)
    requires AcceptorCanMove(s)
    ensures StepsOn(s, AcceptorOnward(s))
  {
    assert AcceptorStep(s, AcceptorOnward(s));
  }

  // ---- while the server runs ----

  ghost predicate Running(s: State) {
    && Inv(s) && s.keepAlive && s.stopper == SIdle && |s.workers| > 0 && s.acceptor != AGone
    && forall i :: 0 <= i < |s.workers| ==> s.workers[i] != Gone
  }

  lemma StepIsNext(s: State, t: State)
    requires StepsOn(s, t)
    ensures Next(s, t)
  {
    hide WorkerStep, AcceptorStep;
  }

  lemma StepKeepsStopper(s: State, t: State)
    requires StepsOn(s, t)
    ensures t.stopper == s.stopper && t.keepAlive == s.keepAlive && t.accepted == s.accepted
    ensures |s.taken| <= |t.taken| && |t.workers| == |s.workers|
    ensures s.lock == Some(Stopper) && Exclusive(s) ==> t.lock == s.lock && t.taken == s.taken
    ensures s.keepAlive && s.acceptor != AGone ==> t.acceptor != AGone
    ensures s.keepAlive && (forall i :: 0 <= i < |s.workers| ==> s.workers[i] != Gone) ==>
      forall i :: 0 <= i < |t.workers| ==> t.workers[i] != Gone
  {
  }

  lemma KeepsRunning(s: State, t: State)
    requires Running(s) && StepsOn(s, t)
    ensures Running(t) && t.accepted == s.accepted && |s.taken| <= |t.taken|
  {
    hide Inv, Next, StepsOn;
    StepIsNext(s, t);
    NextKeeps(s, t);
    StepKeepsStopper(s, t);
  }

  /** How far the holder of the lock is from letting it go. */
  function Hold(w: WorkerPc): nat {
    match w
    case Look => 3
    case Take => 2
    case Taken(_) => 1
    case GiveUp => 1
    case _ => 0
  }

  /** How far a worker is from taking a request out of a queue that has one. */
  function Load(w: WorkerPc): nat {
    match w
    case Take => 1
    case Look => 2
    case WantLock => 3
    case Test => 4
    case Serve(_) => 5
    case GiveUp => 5
    case Taken(_) => 6
    case Woken => 6
    case Waiting => 7
    case Gone => 0
  }

  /** How far the acceptor is from accepting again. */
  function AcceptorLoad(a: AcceptorPc): nat {
    match a
    case ATest => 1
    case ABroadcast => 2
    case AUnlock => 3
    case AAdd(_) => 4
    case AWantLock(_) => 5
    case _ => 0
  }

  lemma AcceptorNearer(s: State)
    requires Running(s) && AcceptorCanMove(s)
    ensures var t := AcceptorOnward(s);
      StepsOn(s, t) && Running(t) && t.accepted == s.accepted && t.taken == s.taken
      && AcceptorLoad(t.acceptor) < AcceptorLoad(s.acceptor)
  {
    hide Inv, StepsOn;
    AcceptorStepsOn(s);
    KeepsRunning(s, AcceptorOnward(s));
  }

  lemma HolderNearer(s: State, i: nat)
    requires Running(s) && i < |s.workers| && s.lock == Some(Worker(i))
    ensures s.workers[i] == Take ==> s.queue != []
    ensures var t := Onward(s, i);
      StepsOn(s, t) && Running(t) && t.accepted == s.accepted && t.acceptor == s.acceptor
      && |s.taken| <= |t.taken| && Sum(t.workers, Hold) < Sum(s.workers, Hold)
  {
    hide Inv, Sum, StepsOn;
    InvParts(s);
    WorkerStepsOn(s, i);
    var t := Onward(s, i);
    KeepsRunning(s, t);
    SumUpdated(s.workers, i, t.workers[i], Hold);
    assert t.workers == s.workers[i := t.workers[i]];
  }

  /** The server always gets back to accepting connections. */
  lemma {:induction false} AcceptsAgain(s: State)
    requires Running(s)
    ensures CanReach(s, Accepting)
    decreases AcceptorLoad(s.acceptor), Sum(s.workers, Hold)
  {
    hide Inv, Sum, StepsOn, CanReach, Onward, AcceptorOnward, AcceptorLoad, Exclusive;
    if s.acceptor == Accept {
      ReachedNow(s, Accepting);
    } else if AcceptorCanMove(s) {
      AcceptorNearer(s);
      AcceptsAgain(AcceptorOnward(s));
      ReachedLater(s, AcceptorOnward(s), Accepting);
    } else {
      var i := Holder(s);
      HolderNearer(s, i);
      AcceptsAgain(Onward(s, i));
      ReachedLater(s, Onward(s, i), Accepting);
    }
  }

  lemma Holder(s: State) returns (i: nat)
    requires Running(s) && s.acceptor.AWantLock? && s.lock != None
    ensures i < |s.workers| && s.lock == Some(Worker(i))
  {
    i := s.lock.value.i;
  }

  // ---- every accepted request is served ----

  function ToTake(s: State, r: Request): nat {
    if r < |s.taken| then 0 else r + 1 - |s.taken|
  }

  function Weight(s: State): nat {
    if s.acceptor.AWantLock? then Sum(s.workers, Hold) else Sum(s.workers, Load)
  }

  /** Somebody is there to move the queue on. */
  lemma WhoServes(s: State, r: Request) returns (i: nat)
    requires Running(s) && |s.taken| <= r < s.accepted && (AcceptorCanMove(s) ==> s.acceptor == ATest)
    ensures i < |s.workers| && s.workers[i] != Waiting
    ensures s.lock == Some(Worker(i)) || (s.lock == None && !s.acceptor.AWantLock?)
    ensures !s.acceptor.AWantLock? ==> s.queue != []
  {
    hide Accounted, PopFinds;
    i := if s.lock == None then 0 else s.lock.value.i;
  }

  lemma WorkerNearer(s: State, r: Request, i: nat)
    requires Running(s) && |s.taken| <= r < s.accepted && i < |s.workers| && s.workers[i] != Waiting
    requires s.lock == Some(Worker(i)) || (s.lock == None && !s.acceptor.AWantLock?)
    requires !s.acceptor.AWantLock? ==> s.queue != []
    ensures s.workers[i] == Take ==> s.queue != []
    ensures var t := Onward(s, i);
      StepsOn(s, t) && Running(t) && t.accepted == s.accepted && t.acceptor == s.acceptor
      && (ToTake(t, r) < ToTake(s, r) || (ToTake(t, r) == ToTake(s, r) && Weight(t) < Weight(s)))
  {
    if s.acceptor.AWantLock? {
      hide Inv, Sum, StepsOn, Onward;
      HolderNearer(s, i);
    } else {
      hide Inv, Sum, StepsOn;
      InvParts(s);
      WorkerStepsOn(s, i);
      var t := Onward(s, i);
      KeepsRunning(s, t);
      SumUpdated(s.workers, i, t.workers[i], Load);
      assert t.workers == s.workers[i := t.workers[i]];
    }
  }

  /** A request that a worker has taken is closed by that worker's own steps. */
  lemma TakenIsClosed(s: State, r: Request)
    requires Inv(s) && r < |s.taken|
    ensures CanReach(s, IsClosed(r))
  {
    hide Exclusive, PopFinds, InOrder, HeldOnce, ClosedOnce, NoLostWakeup, CanReach, StepsOn, Held;
    if r in s.closed {
      ReachedNow(s, IsClosed(r));
    } else {
      var i :| 0 <= i < |s.workers| && Held(s.workers[i]) == Some(r);
      HeldIsClosed(s, r, i);
    }
  }

  lemma HeldIsClosed(s: State, r: Request, i: nat)
    requires Inv(s) && i < |s.workers| && Held(s.workers[i]) == Some(r)
    ensures CanReach(s, IsClosed(r))
  {
    hide Inv, CanReach, StepsOn;
    InvParts(s);
    var t := s;
    if s.workers[i] == Taken(r) {
      t := Onward(s, i);
      WorkerStepsOn(s, i);
      StepIsNext(s, t);
      NextKeeps(s, t);
      InvParts(t);
    }
    assert t.workers[i] == Serve(r);
    ServedIsClosed(t, r, i);
    if t != s {
      ReachedLater(s, t, IsClosed(r));
    }
  }

  lemma ServedIsClosed(s: State, r: Request, i: nat)
    requires i < |s.workers| && s.workers[i] == Serve(r)
    ensures CanReach(s, IsClosed(r))
  {
    hide CanReach;
    var t := Moved(s, i, Test).(closed := s.closed + [r]);
    assert WorkerStep(s, t, i);
    ReachedNow(t, IsClosed(r));
    ReachedLater(s, t, IsClosed(r));
  }

  lemma {:induction false} Served(s: State, r: Request)
    requires Running(s) && r < s.accepted
    ensures CanReach(s, IsClosed(r))
    decreases AcceptorLoad(s.acceptor), ToTake(s, r), Weight(s)
  {
    hide Inv, Weight, StepsOn, CanReach, Onward, AcceptorOnward, AcceptorLoad, AcceptorCanMove;
    if r < |s.taken| {
      TakenIsClosed(s, r);
    } else if AcceptorCanMove(s) && s.acceptor != ATest {
      AcceptorNearer(s);
      Served(AcceptorOnward(s), r);
      ReachedLater(s, AcceptorOnward(s), IsClosed(r));
    } else {
      var i := WhoServes(s, r);
      WorkerNearer(s, r, i);
      Served(Onward(s, i), r);
      ReachedLater(s, Onward(s, i), IsClosed(r));
    }
  }

  /** While the stopping thread has the lock nothing is taken, so nothing else is closed. */
  lemma {:induction false} NothingTaken(path: seq<State>, k: nat)
    requires path != [] && k < |path| && Inv(path[0]) && path[0].lock == Some(Stopper)
    requires forall j :: 0 <= j < |path| - 1 ==> StepsOn(path[j], path[j + 1])
    ensures Inv(path[k]) && path[k].lock == Some(Stopper) && path[k].taken == path[0].taken
  {
    hide Inv, StepsOn;
    if k > 0 {
      NothingTaken(path, k - 1);
      var s, t := path[k - 1], path[k - 1 + 1];
      assert StepsOn(s, t);
      StepIsNext(s, t);
      NextKeeps(s, t);
      InvParts(s);
      StepKeepsStopper(s, t);
    }
  }

  lemma ClosedWereTaken(s: State, r: Request)
    requires Inv(s) && r in s.closed
    ensures r < |s.taken|
  {
    hide Exclusive, PopFinds, InOrder, NoneLost, HeldOnce, NoLostWakeup;
  }

  /** In every run, as long as the server is kept alive: the workers and the acceptor by themselves, with no
      spurious wakeup and no further connection, can get an accepted request closed if and only if the
      stopping thread has not got the lock or the request has been taken before. */
  lemma ServedExactly(states: seq<State>, k: nat, r: Request)
    requires Run(states) && k < |states| && states[0].workers != []
    requires states[k].keepAlive && r < states[k].accepted
    ensures CanReach(states[k], IsClosed(r)) <==> states[k].stopper == SIdle || r < |states[k].taken|
  {
    hide Run, Inv, CanReach, StepsOn;
    var s := states[k];
    RunKeeps(states, k);
    RunStaffed(states, k);
    if s.stopper == SIdle {
      Served(s, r);
    } else if r < |s.taken| {
      TakenIsClosed(s, r);
    } else {
      StopperHasLock(s);
      NeverClosed(s, r);
    }
  }

  lemma StopperHasLock(s: State)
    requires Inv(s) && s.stopper == SClear
    ensures s.lock == Some(Stopper)
  {
    hide PopFinds, InOrder, Accounted, NoLostWakeup;
  }

  lemma NeverClosed(s: State, r: Request)
    requires Inv(s) && s.lock == Some(Stopper) && r >= |s.taken|
    ensures !CanReach(s, IsClosed(r))
  {
    hide Inv, StepsOn;
    if CanReach(s, IsClosed(r)) {
      var path :| LeadsTo(path, s, IsClosed(r));
      NothingTaken(path, |path| - 1);
      ClosedWereTaken(path[|path| - 1], r);
    }
  }

  /** In every run, as long as nobody stops the server, it gets back to accepting. */
  lemma AlwaysAcceptsAgain(states: seq<State>, k: nat)
    requires Run(states) && k < |states| && states[0].workers != [] && states[k].stopper == SIdle
    ensures CanReach(states[k], Accepting)
  {
    hide Run, Inv, CanReach;
    RunKeeps(states, k);
    RunStaffed(states, k);
    AcceptsAgain(states[k]);
  }

  // ---- when the server stops ----

  ghost predicate NobodySleeps(s: State) {
    forall i :: 0 <= i < |s.workers| ==> s.workers[i] != Waiting
  }

  function ToGo(w: WorkerPc): nat {
    match w
    case Test => 1
    case Serve(_) => 2
    case GiveUp => 2
    case Woken => 3
    case Taken(_) => 3
    case Take => 4
    case Look => 5
    case WantLock => 6
    case _ => 0
  }

  function LockLoad(a: AcceptorPc): nat {
    match a case AAdd(_) => 2 case AUnlock => 1 case _ => 0
  }

  lemma StillAwake(s: State, t: State)
    requires NobodySleeps(s) && StepsOn(s, t) && !FallsAsleep(s, t)
    ensures NobodySleeps(t)
  {
    hide WorkerStep, FallsAsleep;
    if !AcceptorStep(s, t) {
      var j :| 0 <= j < |s.workers| && WorkerStep(s, t, j);
      OtherStays(s, t, if j == 0 then 1 else 0, j);
      forall i | 0 <= i < |t.workers|
        ensures t.workers[i] != Waiting
      {
        if i == j {
          MoverAwake(s, t, j);
        } else {
          OtherStays(s, t, i, j);
        }
      }
    }
  }

  lemma MoverAwake(s: State, t: State, i: nat)
    requires i < |s.workers| && WorkerStep(s, t, i) && s.workers[i] != Waiting && !FallsAsleep(s, t)
    ensures i < |t.workers| ==> t.workers[i] != Waiting
  {
  }

  lemma StopStep(s: State, t: State)
    requires Stopping(s) && !CanRunDry(s) && NobodySleeps(s) && StepsOn(s, t)
    ensures Stopping(t) && !CanRunDry(t) && NobodySleeps(t)
  {
    hide Stopping, CanRunDry, FallsAsleep, NobodySleeps, StepsOn, Next;
    StepIsNext(s, t);
    StaysSupplied(s, t);
    StillAwake(s, t);
  }

  lemma WhoGoes(s: State) returns (i: nat)
    requires Stopping(s) && NobodySleeps(s) && !Met(s, AllGone) && !AcceptorHoldsLock(s.acceptor)
    ensures i < |s.workers| && s.workers[i] != Gone && s.workers[i] != Waiting
    ensures s.lock == Some(Worker(i)) || s.lock == None
  {
    hide Accounted, PopFinds, InOrder, NoLostWakeup;
    if s.lock != None {
      i := s.lock.value.i;
    } else {
      i :| 0 <= i < |s.workers| && s.workers[i] != Gone;
    }
  }

  lemma GoesOn(s: State, i: nat)
    requires Stopping(s) && !CanRunDry(s) && NobodySleeps(s)
    requires i < |s.workers| && s.workers[i] != Gone && s.workers[i] != Waiting
    requires s.lock == Some(Worker(i)) || s.lock == None
    ensures s.workers[i] == Take ==> s.queue != []
    ensures var t := Onward(s, i);
      StepsOn(s, t) && Stopping(t) && !CanRunDry(t) && NobodySleeps(t) && t.acceptor == s.acceptor
      && Sum(t.workers, ToGo) < Sum(s.workers, ToGo)
  {
    hide Inv, Sum, StepsOn, CanRunDry;
    InvParts(s);
    WorkerStepsOn(s, i);
    var t := Onward(s, i);
    StopStep(s, t);
    SumUpdated(s.workers, i, t.workers[i], ToGo);
    assert t.workers == s.workers[i := t.workers[i]];
  }

  /** After the last broadcast, with nobody asleep and a request for everyone who still looks for one, all
      workers leave by themselves, so the stop returns. */
  lemma {:induction false} WorkersEnd(s: State)
    requires Stopping(s) && !CanRunDry(s) && NobodySleeps(s)
    ensures CanReach(s, AllGone)
    decreases LockLoad(s.acceptor), Sum(s.workers, ToGo)
  {
    hide Stopping, CanRunDry, NobodySleeps, Sum, StepsOn, CanReach, Onward, Met;
    if Met(s, AllGone) {
      ReachedNow(s, AllGone);
    } else if AcceptorHoldsLock(s.acceptor) {
      var t := AcceptorOnward(s);
      AcceptorStepsOn(s);
      StopStep(s, t);
      WorkersEnd(t);
      ReachedLater(s, t, AllGone);
    } else {
      var i := WhoGoes(s);
      GoesOn(s, i);
      WorkersEnd(Onward(s, i));
      ReachedLater(s, Onward(s, i), AllGone);
    }
  }

  /** Worker `i` has passed the test before the stop and falls asleep behind the last broadcast. */
  ghost predicate SleepsLate(states: seq<State>, m: int, i: nat) {
    && 0 <= m && m + 1 < |states| && states[m].stopper == SJoin
    && i < |states[m].workers| == |states[m + 1].workers|
    && states[m].workers[i] == Look && states[m + 1].workers[i] == Waiting
  }

  /** In every run a worker that is asleep while the stopping thread waits fell asleep after the broadcast:
      whoever slept before has been woken by it. */
  lemma {:induction false} SleeperWasLate(states: seq<State>, k: nat, i: nat)
    requires Run(states) && k < |states| && states[k].stopper == SJoin && Asleep(states[k], i)
    ensures exists m :: 0 <= m < k && SleepsLate(states, m, i)
  {
    hide Next, Init;
    if k > 0 {
      var before := k - 1;
      assert Next(states[before], states[before + 1]);
      BeforeSleep(states[before], states[k], i);
      if Asleep(states[before], i) {
        SleeperWasLate(states, before, i);
      } else {
        assert SleepsLate(states, before, i);
      }
    } else {
      NobodyStopsYet(states[0]);
    }
  }

  lemma NobodyStopsYet(s: State)
    requires Init(s)
    ensures s.stopper != SJoin
  {
  }

  lemma BeforeSleep(s: State, t: State, i: nat)
    requires Next(s, t) && t.stopper == SJoin && Asleep(t, i)
    ensures s.stopper == SJoin && |s.workers| == |t.workers|
    ensures Asleep(s, i) || s.workers[i] == Look
  {
    hide WorkerStep;
    if exists j :: 0 <= j < |s.workers| && WorkerStep(s, t, j) {
      var j :| 0 <= j < |s.workers| && WorkerStep(s, t, j);
      if i == j {
        OwnSleep(s, t, i);
      } else {
        OtherStays(s, t, i, j);
      }
    }
  }

  lemma OwnSleep(s: State, t: State, i: nat)
    requires i < |s.workers| && WorkerStep(s, t, i) && Asleep(t, i)
    ensures t.stopper == s.stopper && |s.workers| == |t.workers| && s.workers[i] == Look
  {
  }
}
