/** The acceptor, the workers and the stopping thread of the server as one interleaved state machine.
    A request is its number in the order of acceptance. */
module WorkerPool {
  import opened Wrappers

  type Request = nat

  /** Where a worker is in its loop. */
  datatype WorkerPc =
    | Test                  // about to read keep_alive
    | WantLock              // about to lock
    | Look                  // holds the lock, about to peek
    | Waiting               // blocked in the condition wait, the lock released
    | Woken                 // signalled, about to get the lock back
    | GiveUp                // holds the lock after the wait, about to unlock and start over
    | Take                  // holds the lock, about to pop
    | Taken(r: Request)     // holds the lock and a request, about to unlock
    | Serve(r: Request)     // reads, answers and closes without the lock
    | Gone                  // out of the loop

  datatype AcceptorPc =
    | ATest                 // about to read keep_alive
    | Accept                // about to accept
    | AWantLock(r: Request) // accepted, about to lock
    | AAdd(r: Request)      // holds the lock, about to add
    | AUnlock               // holds the lock, about to unlock
    | ABroadcast            // about to wake the workers
    | AGone

  datatype StopperPc =
    | SIdle                 // stop has not been called
    | SClear                // holds the lock, about to clear keep_alive
    | SUnlock               // holds the lock, about to unlock
    | SBroadcast            // about to wake the workers
    | SJoin                 // waits for the workers to end
    | SDone

  datatype Owner = Worker(i: int) | Acceptor | Stopper

  datatype State = State(
    workers: seq<WorkerPc>, acceptor: AcceptorPc, stopper: StopperPc,
    lock: Option<Owner>, keepAlive: bool, queue: seq<Request>,
    accepted: nat, taken: seq<Request>, closed: seq<Request>)

  ghost predicate Init(s: State) {
    && (forall i :: 0 <= i < |s.workers| ==> s.workers[i] == Test) && s.acceptor == ATest && s.stopper == SIdle
    && s.lock == None && s.keepAlive && s.queue == [] && s.accepted == 0 && s.taken == [] && s.closed == []
  }

  function Wake(w: WorkerPc): WorkerPc {
    if w == Waiting then Woken else w
  }

  /** What the condition broadcast does. */
  function WakeAll(workers: seq<WorkerPc>): (r: seq<WorkerPc>)
    ensures |r| == |workers| && forall i :: 0 <= i < |r| ==> r[i] == Wake(workers[i])
  {
    seq(|workers|, i requires 0 <= i < |workers| => Wake(workers[i]))
  }

  function Moved(s: State, i: nat, w: WorkerPc): State
    requires i < |s.workers|
  {
    s.(workers := s.workers[i := w])
  }

  /** One step of worker `i`. */
  ghost predicate WorkerStep(s: State, t: State, i: nat)
    requires i < |s.workers|
  {
    match s.workers[i]
    case Test => t == Moved(s, i, if s.keepAlive then WantLock else Gone)
    case WantLock => s.lock == None && t == Moved(s, i, Look).(lock := Some(Worker(i)))
    case Look =>
      if s.queue == [] then t == Moved(s, i, Waiting).(lock := None) else t == Moved(s, i, Take)
    case Waiting => t == Moved(s, i, Woken)  // a spurious wakeup
    case Woken => s.lock == None && t == Moved(s, i, GiveUp).(lock := Some(Worker(i)))
    case GiveUp => t == Moved(s, i, Test).(lock := None)
    case Take =>
      // popping an empty queue would give no request
      s.queue != [] && t == Moved(s, i, Taken(s.queue[0])).(queue := s.queue[1..], taken := s.taken + [s.queue[0]])
    case Taken(r) => t == Moved(s, i, Serve(r)).(lock := None)
    case Serve(r) => t == Moved(s, i, Test).(closed := s.closed + [r])
    case Gone => false
  }

  ghost predicate AcceptorStep(s: State, t: State) {
    match s.acceptor
    case ATest => t == s.(acceptor := if s.keepAlive then Accept else AGone)
    case Accept =>
      || t == s.(acceptor := ATest)  // accept failed
      || t == s.(acceptor := AWantLock(s.accepted), accepted := s.accepted + 1)
    case AWantLock(r) => s.lock == None && t == s.(acceptor := AAdd(r), lock := Some(Acceptor))
    case AAdd(r) => t == s.(acceptor := AUnlock, queue := s.queue + [r])
    case AUnlock => t == s.(acceptor := ABroadcast, lock := None)
    case ABroadcast => t == s.(acceptor := ATest, workers := WakeAll(s.workers))
    case AGone => false
  }

  ghost predicate StopperStep(s: State, t: State) {
    match s.stopper
    case SIdle => s.lock == None && t == s.(stopper := SClear, lock := Some(Stopper))
    case SClear => t == s.(stopper := SUnlock, keepAlive := false)
    case SUnlock => t == s.(stopper := SBroadcast, lock := None)
    case SBroadcast => t == s.(stopper := SJoin, workers := WakeAll(s.workers))
    case SJoin => (forall i :: 0 <= i < |s.workers| ==> s.workers[i] == Gone) && t == s.(stopper := SDone)
    case SDone => false
  }

  ghost predicate Next(s: State, t: State) {
    || (exists i :: 0 <= i < |s.workers| && WorkerStep(s, t, i))
    || AcceptorStep(s, t)
    || StopperStep(s, t)
  }

  /** A run: any interleaving of steps from an initial state. */
  ghost predicate Run(states: seq<State>) {
    states != [] && Init(states[0]) && forall k :: 0 <= k < |states| - 1 ==> Next(states[k], states[k + 1])
  }

  // ---- the invariant ----

  predicate WorkerHoldsLock(w: WorkerPc) {
    w.Look? || w.GiveUp? || w.Take? || w.Taken?
  }

  predicate AcceptorHoldsLock(a: AcceptorPc) {
    a.AAdd? || a.AUnlock?
  }

  predicate StopperHoldsLock(p: StopperPc) {
    p.SClear? || p.SUnlock?
  }

  /** The lock has one owner, and exactly the owner is between locking and unlocking. */
  ghost predicate Exclusive(s: State) {
    && (forall i :: 0 <= i < |s.workers| ==> (WorkerHoldsLock(s.workers[i]) <==> s.lock == Some(Worker(i))))
    && (AcceptorHoldsLock(s.acceptor) <==> s.lock == Some(Acceptor))
    && (StopperHoldsLock(s.stopper) <==> s.lock == Some(Stopper))
    && (forall i :: s.lock == Some(Worker(i)) ==> 0 <= i < |s.workers|)
  }

  /** A worker about to pop has found the queue non-empty and kept the lock since. */
  ghost predicate PopFinds(s: State) {
    forall i :: 0 <= i < |s.workers| && s.workers[i] == Take ==> s.queue != []
  }

  /** The request a worker has popped and not closed yet. */
  function Held(w: WorkerPc): Option<Request> {
    match w case Taken(r) => Some(r) case Serve(r) => Some(r) case _ => None
  }

  /** The request the acceptor has accepted and not added yet. */
  function Pending(a: AcceptorPc): Option<Request> {
    match a case AWantLock(r) => Some(r) case AAdd(r) => Some(r) case _ => None
  }

  ghost predicate HeldBySome(workers: seq<WorkerPc>, r: Request) {
    exists i :: 0 <= i < |workers| && Held(workers[i]) == Some(r)
  }

  /** Requests are added and taken in the order of acceptance: the taken ones and the queued ones
      together are the numbers from 0 on, up to one the acceptor may still hold. */
  ghost predicate InOrder(s: State) {
    && (forall k :: 0 <= k < |s.taken| ==> s.taken[k] == k)
    && (forall k :: 0 <= k < |s.queue| ==> s.queue[k] == |s.taken| + k)
    && |s.taken| + |s.queue| + (if Pending(s.acceptor).Some? then 1 else 0) == s.accepted
    && (Pending(s.acceptor).Some? ==> Pending(s.acceptor).value == s.accepted - 1)
  }

  /** Every taken request is closed or held. */
  ghost predicate NoneLost(s: State) {
    forall r :: 0 <= r < |s.taken| ==> r in s.closed || HeldBySome(s.workers, r)
  }

  /** A held request has been taken and is not closed, and no second worker holds it. */
  ghost predicate HeldOnce(s: State) {
    && (forall i :: 0 <= i < |s.workers| && Held(s.workers[i]).Some? ==>
          Held(s.workers[i]).value < |s.taken| && Held(s.workers[i]).value !in s.closed)
    && (forall i, j :: 0 <= i < |s.workers| && 0 <= j < |s.workers| && i != j && Held(s.workers[i]).Some? ==>
          Held(s.workers[i]) != Held(s.workers[j]))
  }

  /** Only taken requests are closed, each at most once. */
  ghost predicate ClosedOnce(s: State) {
    && (forall k :: 0 <= k < |s.closed| ==> s.closed[k] < |s.taken|)
    && (forall k, l :: 0 <= k < l < |s.closed| ==> s.closed[k] != s.closed[l])
  }

  ghost predicate Accounted(s: State) {
    NoneLost(s) && HeldOnce(s) && ClosedOnce(s)
  }

  /** Requests in the queue, and yet a worker asleep: only while the acceptor still owes its broadcast. */
  ghost predicate NoLostWakeup(s: State) {
    s.queue != [] ==> (forall i :: 0 <= i < |s.workers| ==> s.workers[i] != Waiting) || s.acceptor.AUnlock? || s.acceptor.ABroadcast?
  }

  ghost predicate Inv(s: State) {
    Exclusive(s) && PopFinds(s) && InOrder(s) && Accounted(s) && NoLostWakeup(s)
  }

  lemma InitInv(s: State)
    requires Init(s)
    ensures Inv(s)
  {
  }

  lemma WorkerKeepsLock(s: State, t: State, i: nat)
    requires Exclusive(s) && i < |s.workers| && WorkerStep(s, t, i)
    ensures Exclusive(t)
  {
    assert forall j :: 0 <= j < |s.workers| && j != i ==> t.workers[j] == s.workers[j];
  }

  lemma WorkerKeepsPop(s: State, t: State, i: nat)
    requires Exclusive(s) && PopFinds(s) && NoLostWakeup(s) && i < |s.workers| && WorkerStep(s, t, i)
    ensures PopFinds(t) && NoLostWakeup(t)
  {
    assert forall j :: 0 <= j < |s.workers| && j != i ==> t.workers[j] == s.workers[j];
    assert forall j :: 0 <= j < |s.workers| && WorkerHoldsLock(s.workers[i]) && s.workers[j] == Take ==> j == i;
  }

  lemma WorkerKeepsOrder(s: State, t: State, i: nat)
    requires InOrder(s) && i < |s.workers| && WorkerStep(s, t, i)
    ensures InOrder(t)
  {
  }

  /** What a worker's step does to the books: nothing, one request taken, or one closed. */
  ghost predicate Booked(s: State, t: State, i: nat)
    requires i < |s.workers| == |t.workers|
  {
    && (forall j :: 0 <= j < |s.workers| && j != i ==> Held(t.workers[j]) == Held(s.workers[j]))
    && (|| (Held(t.workers[i]) == Held(s.workers[i]) && t.taken == s.taken && t.closed == s.closed)
        || (Held(s.workers[i]) == None && Held(t.workers[i]) == Some(|s.taken|)
            && |t.taken| == |s.taken| + 1 && t.closed == s.closed)
        || (Held(s.workers[i]).Some? && Held(t.workers[i]) == None
            && t.taken == s.taken && t.closed == s.closed + [Held(s.workers[i]).value]))
  }

  lemma WorkerBooks(s: State, t: State, i: nat)
    requires InOrder(s) && i < |s.workers| && WorkerStep(s, t, i)
    ensures |t.workers| == |s.workers| && Booked(s, t, i)
  {
  }

  lemma WorkerLosesNone(s: State, t: State, i: nat)
    requires NoneLost(s) && i < |s.workers| == |t.workers| && Booked(s, t, i)
    ensures NoneLost(t)
  {
    hide Held;
    forall r | 0 <= r < |t.taken|
      ensures r in t.closed || HeldBySome(t.workers, r)
    {
      if r == |s.taken| {
        assert Held(t.workers[i]) == Some(r);
      } else if r !in s.closed {
        var j :| 0 <= j < |s.workers| && Held(s.workers[j]) == Some(r);
        assert r in t.closed || Held(t.workers[j]) == Some(r);
      }
    }
  }

  lemma WorkerHoldsOnce(s: State, t: State, i: nat)
    requires HeldOnce(s) && ClosedOnce(s) && i < |s.workers| == |t.workers| && Booked(s, t, i)
    ensures HeldOnce(t)
  {
    hide Held;
    assert forall r :: r in s.closed ==> r < |s.taken|;
  }

  lemma WorkerClosesOnce(s: State, t: State, i: nat)
    requires HeldOnce(s) && ClosedOnce(s) && i < |s.workers| == |t.workers| && Booked(s, t, i)
    ensures ClosedOnce(t)
  {
    hide Held;
    assert forall k :: 0 <= k < |s.closed| ==> s.closed[k] in s.closed;
  }

  /** Waking workers and adding to the queue concern neither the taken nor the closed requests. */
  lemma AccountsKept(s: State, t: State)
    requires Accounted(s) && t.taken == s.taken && t.closed == s.closed
    requires t.workers == s.workers || t.workers == WakeAll(s.workers)
    ensures Accounted(t)
  {
    forall i | 0 <= i < |s.workers|
      ensures Held(t.workers[i]) == Held(s.workers[i])
    {
    }
    hide Held, Wake;
    forall r | 0 <= r < |t.taken| && r !in t.closed
      ensures HeldBySome(t.workers, r)
    {
      var j :| 0 <= j < |s.workers| && Held(s.workers[j]) == Some(r);
      assert Held(t.workers[j]) == Some(r);
    }
  }

  lemma AcceptorKeepsLock(s: State, t: State)
    requires Exclusive(s) && PopFinds(s) && NoLostWakeup(s) && AcceptorStep(s, t)
    ensures Exclusive(t) && PopFinds(t) && NoLostWakeup(t)
  {
  }

  lemma AcceptorKeepsOrder(s: State, t: State)
    requires InOrder(s) && AcceptorStep(s, t)
    ensures InOrder(t)
  {
  }

  lemma AcceptorKeeps(s: State, t: State)
    requires Inv(s) && AcceptorStep(s, t)
    ensures Inv(t)
  {
    hide Accounted, Exclusive, PopFinds, InOrder, NoLostWakeup;
    AccountsKept(s, t);
    AcceptorKeepsLock(s, t);
    AcceptorKeepsOrder(s, t);
  }

  lemma StopperKeepsLock(s: State, t: State)
    requires Exclusive(s) && PopFinds(s) && NoLostWakeup(s) && StopperStep(s, t)
    ensures Exclusive(t) && PopFinds(t) && NoLostWakeup(t)
  {
  }

  lemma StopperKeeps(s: State, t: State)
    requires Inv(s) && StopperStep(s, t)
    ensures Inv(t)
  {
    hide Accounted, Exclusive, PopFinds, NoLostWakeup;
    AccountsKept(s, t);
    StopperKeepsLock(s, t);
  }

  lemma NextKeeps(s: State, t: State)
    requires Inv(s) && Next(s, t)
    ensures Inv(t)
  {
    hide Inv, WorkerStep, AcceptorStep, StopperStep;
    if AcceptorStep(s, t) {
      AcceptorKeeps(s, t);
    } else if StopperStep(s, t) {
      StopperKeeps(s, t);
    } else {
      var i :| 0 <= i < |s.workers| && WorkerStep(s, t, i);
      WorkerKeeps(s, t, i);
    }
  }

  lemma WorkerKeeps(s: State, t: State, i: nat)
    requires Inv(s) && i < |s.workers| && WorkerStep(s, t, i)
    ensures Inv(t)
  {
    hide Exclusive, PopFinds, InOrder, NoneLost, HeldOnce, ClosedOnce, NoLostWakeup, WorkerStep, Booked;
    WorkerKeepsLock(s, t, i);
    WorkerKeepsPop(s, t, i);
    WorkerBooks(s, t, i);
    WorkerKeepsOrder(s, t, i);
    WorkerLosesNone(s, t, i);
    WorkerHoldsOnce(s, t, i);
    WorkerClosesOnce(s, t, i);
  }

  lemma {:induction false} RunKeeps(states: seq<State>, k: nat)
    requires Run(states) && k < |states|
    ensures Inv(states[k])
  {
    hide Inv, Next, Init;
    if k == 0 {
      InitInv(states[0]);
    } else {
      RunKeeps(states, k - 1);
      NextKeeps(states[k - 1], states[k]);
    }
  }

  // ---- what holds in every reachable state ----

  ghost predicate Queued(s: State, r: Request) { r in s.queue }

  ghost predicate AtAcceptor(s: State, r: Request) { Pending(s.acceptor) == Some(r) }

  ghost predicate AtWorker(s: State, r: Request) { HeldBySome(s.workers, r) }

  ghost predicate Closed(s: State, r: Request) { r in s.closed }

  ghost predicate HoldsRequest(s: State, i: int, r: Request) {
    0 <= i < |s.workers| && Held(s.workers[i]) == Some(r)
  }

  ghost predicate ClosedAs(s: State, a: int, r: Request) {
    0 <= a < |s.closed| && s.closed[a] == r
  }

  /** An accepted request is in exactly one place, and with one worker if with any; others are nowhere. */
  lemma ExactlyOnePlace(states: seq<State>, k: nat, r: Request)
    requires Run(states) && k < |states|
    ensures var s := states[k];
      if r < s.accepted then
        || (Queued(s, r) && !AtAcceptor(s, r) && !AtWorker(s, r) && !Closed(s, r))
        || (!Queued(s, r) && AtAcceptor(s, r) && !AtWorker(s, r) && !Closed(s, r))
        || (!Queued(s, r) && !AtAcceptor(s, r) && AtWorker(s, r) && !Closed(s, r))
        || (!Queued(s, r) && !AtAcceptor(s, r) && !AtWorker(s, r) && Closed(s, r))
      else !Queued(s, r) && !AtAcceptor(s, r) && !AtWorker(s, r) && !Closed(s, r)
    ensures forall i, j :: HoldsRequest(states[k], i, r) && HoldsRequest(states[k], j, r) ==> i == j
    ensures forall a, b :: ClosedAs(states[k], a, r) && ClosedAs(states[k], b, r) ==> a == b
  {
    hide Run, Exclusive, PopFinds, NoLostWakeup, Held, Pending;
    RunKeeps(states, k);
    var s := states[k];
    if |s.taken| <= r < |s.taken| + |s.queue| {
      assert s.queue[r - |s.taken|] == r;
    }
  }

  /** Requests leave the queue in the order they were accepted in. */
  lemma TakenInOrder(states: seq<State>, k: nat)
    requires Run(states) && k < |states|
    ensures var s := states[k]; forall i :: 0 <= i < |s.taken| ==> s.taken[i] == i
    ensures var s := states[k]; s.queue != [] ==> s.queue[0] == |s.taken|
  {
    hide Run, Exclusive, PopFinds, NoLostWakeup, Accounted;
    RunKeeps(states, k);
  }

  /** A sleeping worker beside a non-empty queue is about to be woken: the acceptor has added and
      still owes its broadcast. */
  lemma WakeupNotLost(states: seq<State>, k: nat, i: nat)
    requires Run(states) && k < |states| && i < |states[k].workers|
    requires states[k].queue != [] && states[k].workers[i] == Waiting
    ensures states[k].acceptor == AUnlock || states[k].acceptor == ABroadcast
  {
    hide Run, Exclusive, PopFinds, InOrder, Accounted;
    RunKeeps(states, k);
  }

  /** Only one thread is ever between locking and unlocking. */
  lemma MutualExclusion(states: seq<State>, k: nat, i: nat, j: nat)
    requires Run(states) && k < |states| && i < |states[k].workers| && j < |states[k].workers|
    requires WorkerHoldsLock(states[k].workers[i])
    ensures WorkerHoldsLock(states[k].workers[j]) ==> i == j
    ensures !AcceptorHoldsLock(states[k].acceptor) && !StopperHoldsLock(states[k].stopper)
  {
    hide Run, PopFinds, InOrder, Accounted, NoLostWakeup;
    RunKeeps(states, k);
  }

  /** While a request is queued and some worker has not left its loop, some thread can move on
      without waiting for a new connection or a spurious wakeup. */
  lemma NotStuck(states: seq<State>, k: nat, i: nat)
    requires Run(states) && k < |states| && i < |states[k].workers|
    requires states[k].queue != [] && states[k].workers[i] != Gone
    ensures var s := states[k];
      || (exists j, t :: 0 <= j < |s.workers| && s.workers[j] != Waiting && WorkerStep(s, t, j))
      || (s.acceptor != Accept && exists t :: AcceptorStep(s, t))
      || (s.stopper != SIdle && exists t :: StopperStep(s, t))
  {
    hide Run, InOrder, Accounted;
    RunKeeps(states, k);
    var s := states[k];
    match s.lock {
      case Some(Worker(j)) => HolderMoves(s, j);
      case Some(Acceptor) => AcceptorMoves(s);
      case Some(Stopper) =>
        assert StopperStep(s, if s.stopper == SClear then s.(stopper := SUnlock, keepAlive := false)
                              else s.(stopper := SBroadcast, lock := None));
      case None =>
        if s.workers[i] == Waiting {
          assert AcceptorStep(s, s.(acceptor := ATest, workers := WakeAll(s.workers)));
        } else {
          HolderMoves(s, i);
        }
    }
  }

  /** Where worker `j` gets by its next step, if it has or needs no lock or the lock is free. */
  function Onward(s: State, j: nat): State
    requires j < |s.workers| && (s.workers[j] == Take ==> s.queue != [])
  {
    match s.workers[j]
    case Test => Moved(s, j, if s.keepAlive then WantLock else Gone)
    case WantLock => Moved(s, j, Look).(lock := Some(Worker(j)))
    case Look => if s.queue == [] then Moved(s, j, Waiting).(lock := None) else Moved(s, j, Take)
    case Woken => Moved(s, j, GiveUp).(lock := Some(Worker(j)))
    case GiveUp => Moved(s, j, Test).(lock := None)
    case Take => Moved(s, j, Taken(s.queue[0])).(queue := s.queue[1..], taken := s.taken + [s.queue[0]])
    case Taken(r) => Moved(s, j, Serve(r)).(lock := None)
    case Serve(r) => Moved(s, j, Test).(closed := s.closed + [r])
    case _ => s
  }

  /** A worker that is neither asleep nor gone moves, if it has or can get the lock. */
  lemma HolderMoves(s: State, j: nat)
    requires j < |s.workers| && s.workers[j] != Waiting && s.workers[j] != Gone
    requires s.lock == Some(Worker(j)) || s.lock == None
    requires Exclusive(s) && PopFinds(s)
    ensures WorkerStep(s, Onward(s, j), j)
  {
  }

  lemma AcceptorMoves(s: State)
    requires AcceptorHoldsLock(s.acceptor)
    ensures exists t :: AcceptorStep(s, t)
  {
    match s.acceptor
    case AAdd(r) => assert AcceptorStep(s, s.(acceptor := AUnlock, queue := s.queue + [r]));
    case AUnlock => assert AcceptorStep(s, s.(acceptor := ABroadcast, lock := None));
  }

  // ---- who is there while the server runs ----

  /** Nobody leaves before the flag is cleared, which the stopping thread does first; and it returns only
      when all workers have left. */
  ghost predicate Staffed(s: State) {
    && (s.keepAlive <==> s.stopper == SIdle || s.stopper == SClear)
    && (s.keepAlive ==> s.acceptor != AGone && forall i :: 0 <= i < |s.workers| ==> s.workers[i] != Gone)
    && (s.stopper == SDone ==> forall i :: 0 <= i < |s.workers| ==> s.workers[i] == Gone)
  }

  lemma StaffStays(s: State, t: State)
    requires Staffed(s) && Next(s, t)
    ensures Staffed(t) && |t.workers| == |s.workers|
  {
    hide WorkerStep, Staffed, AcceptorStep, StopperStep;
    if AcceptorStep(s, t) {
      StaffStaysByAcceptor(s, t);
    } else if StopperStep(s, t) {
      StaffStaysByStopper(s, t);
    } else {
      var i :| 0 <= i < |s.workers| && WorkerStep(s, t, i);
      StaffStaysByWorker(s, t, i);
    }
  }

  lemma StaffStaysByWorker(s: State, t: State, i: nat)
    requires Staffed(s) && i < |s.workers| && WorkerStep(s, t, i)
    ensures Staffed(t) && |t.workers| == |s.workers|
  {
  }

  lemma StaffStaysByAcceptor(s: State, t: State)
    requires Staffed(s) && AcceptorStep(s, t)
    ensures Staffed(t) && |t.workers| == |s.workers|
  {
  }

  lemma StaffStaysByStopper(s: State, t: State)
    requires Staffed(s) && StopperStep(s, t)
    ensures Staffed(t) && |t.workers| == |s.workers|
  {
  }

  lemma {:induction false} RunStaffed(states: seq<State>, k: nat)
    requires Run(states) && k < |states|
    ensures Staffed(states[k]) && |states[k].workers| == |states[0].workers|
  {
    hide Next, Staffed;
    if k == 0 {
      StartsStaffed(states[0]);
    } else {
      RunStaffed(states, k - 1);
      assert Next(states[k - 1], states[k - 1 + 1]);
      StaffStays(states[k - 1], states[k]);
    }
  }

  lemma StartsStaffed(s: State)
    requires Init(s)
    ensures Staffed(s)
  {
  }

  // ---- a wakeup that is lost ----

  /** Stopping is different: the flag is read before the lock is taken, so a worker can fall asleep
      after the last broadcast. The stopping thread then waits for it, and nothing is left to wake it. */
  lemma StopWakeupCanBeLost() returns (states: seq<State>)
    ensures Run(states)
    ensures var s := states[|states| - 1];
      s.workers == [Waiting] && s.stopper == SJoin && !s.keepAlive && s.queue == [] && s.acceptor == AGone
  {
    var s0 := State([Test], ATest, SIdle, None, true, [], 0, [], []);
    var s1 := s0.(workers := [WantLock]);
    var s2 := s1.(stopper := SClear, lock := Some(Stopper));
    var s3 := s2.(stopper := SUnlock, keepAlive := false);
    var s4 := s3.(stopper := SBroadcast, lock := None);
    var s5 := s4.(stopper := SJoin);
    var s6 := s5.(workers := [Look], lock := Some(Worker(0)));
    var s7 := s6.(workers := [Waiting], lock := None);
    var s8 := s7.(acceptor := AGone);
    assert WorkerStep(s0, s1, 0);
    assert WakeAll(s4.workers) == s4.workers;
    assert StopperStep(s4, s5);
    assert WorkerStep(s5, s6, 0) && WorkerStep(s6, s7, 0);
    states := [s0, s1, s2, s3, s4, s5, s6, s7, s8];
  }
}
