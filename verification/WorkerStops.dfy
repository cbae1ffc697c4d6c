/** What stopping the server leaves behind: which workers can still fall asleep after the last broadcast,
    and what can wake them. */
module WorkerStops {
  import opened Wrappers
  import opened WorkerPool

  /** Steps one after the other, from any state. */
  ghost predicate Path(states: seq<State>) {
    states != [] && forall k :: 0 <= k < |states| - 1 ==> Next(states[k], states[k + 1])
  }

  ghost predicate Asleep(s: State, i: nat) {
    i < |s.workers| && s.workers[i] == Waiting
  }

  ghost predicate WakesSpuriously(s: State, t: State, i: nat) {
    i < |s.workers| && s.workers[i] == Waiting && t == Moved(s, i, Woken)
  }

  ghost predicate Broadcasts(s: State, t: State) {
    s.acceptor == ABroadcast && t == s.(acceptor := ATest, workers := WakeAll(s.workers))
  }

  // ---- what wakes a worker while the stopping thread waits ----

  /** While the stopping thread waits, a sleeping worker is woken by a broadcast for a new request or
      spuriously, and by nothing else; and while it sleeps the stopping thread waits. */
  lemma OnlyWakers(s: State, t: State, i: nat)
    requires Next(s, t) && s.stopper == SJoin && Asleep(s, i)
    ensures t.stopper == SJoin
    ensures Asleep(t, i) || Broadcasts(s, t) || WakesSpuriously(s, t, i)
    ensures s.acceptor == AGone ==> t.acceptor == AGone && !Broadcasts(s, t)
  {
    if exists j :: 0 <= j < |s.workers| && WorkerStep(s, t, j) {
      var j :| 0 <= j < |s.workers| && WorkerStep(s, t, j);
      if i != j {
        OtherStays(s, t, i, j);
      }
    }
  }

  lemma OtherStays(s: State, t: State, i: nat, j: nat)
    requires j < |s.workers| && i != j && WorkerStep(s, t, j)
    ensures |t.workers| == |s.workers| && (i < |s.workers| ==> t.workers[i] == s.workers[i])
    ensures t.stopper == s.stopper && t.acceptor == s.acceptor
  {
  }

  /** Once the acceptor is gone too a sleeping worker sleeps on through every run in which it does not
      wake spuriously, and the stopping thread never gets past it. */
  lemma {:induction false} StopWaitsForever(states: seq<State>, i: nat, k: nat)
    requires Path(states) && k < |states|
    requires states[0].stopper == SJoin && states[0].acceptor == AGone && Asleep(states[0], i)
    requires forall l :: 0 <= l < |states| - 1 ==> !WakesSpuriously(states[l], states[l + 1], i)
    ensures states[k].stopper == SJoin && states[k].acceptor == AGone && Asleep(states[k], i)
  {
    hide Next, WakesSpuriously, Broadcasts;
    if k > 0 {
      StopWaitsForever(states, i, k - 1);
      assert Next(states[k - 1], states[k]) && !WakesSpuriously(states[k - 1], states[k - 1 + 1], i);
      OnlyWakers(states[k - 1], states[k], i);
    }
  }

  // ---- which workers can still fall asleep ----

  /** Workers that will look at the queue, or have found it non-empty and not popped yet. */
  function Customer(w: WorkerPc): nat {
    if w == WantLock || w == Look || w == Take then 1 else 0
  }

  /** How many steps a worker is from not looking any more. */
  function Distance(w: WorkerPc): nat {
    match w
    case WantLock => 5
    case Look => 4
    case Take => 3
    case Taken(_) => 2
    case GiveUp => 1
    case _ => 0
  }

  function Sum(ws: seq<WorkerPc>, f: WorkerPc -> nat): nat {
    if ws == [] then 0 else Sum(ws[..|ws| - 1], f) + f(ws[|ws| - 1])
  }

  lemma {:induction false} SumUpdated(ws: seq<WorkerPc>, i: nat, w: WorkerPc, f: WorkerPc -> nat)
    requires i < |ws|
    ensures Sum(ws[i := w], f) + f(ws[i]) == Sum(ws, f) + f(w)
  {
    var front := ws[..|ws| - 1];
    if i < |front| {
      assert ws[i := w][..|ws| - 1] == front[i := w];
      SumUpdated(front, i, w, f);
    } else {
      assert ws[i := w][..|ws| - 1] == front;
    }
  }

  lemma {:induction false} SumWoken(ws: seq<WorkerPc>)
    ensures Sum(WakeAll(ws), Customer) == Sum(ws, Customer)
  {
    if ws != [] {
      SumWoken(ws[..|ws| - 1]);
      assert WakeAll(ws)[..|ws| - 1] == WakeAll(ws[..|ws| - 1]);
    }
  }

  lemma {:induction false} SomeCustomer(ws: seq<WorkerPc>)
    requires Sum(ws, Customer) > 0
    ensures exists i :: 0 <= i < |ws| && Customer(ws[i]) == 1
  {
    var front := ws[..|ws| - 1];
    if Customer(ws[|ws| - 1]) == 0 {
      SomeCustomer(front);
      var i :| 0 <= i < |front| && Customer(front[i]) == 1;
      assert Customer(ws[i]) == 1;
    }
  }

  /** Requests that are there or are being added while the lock is held. */
  function Supply(s: State): nat {
    |s.queue| + if s.acceptor.AAdd? then 1 else 0
  }

  /** Not every worker that will look at the queue will find a request there. */
  predicate CanRunDry(s: State) {
    Sum(s.workers, Customer) > Supply(s)
  }

  ghost predicate FallsAsleep(s: State, t: State) {
    exists i :: 0 <= i < |s.workers| == |t.workers| && s.workers[i] == Look && t.workers[i] == Waiting
  }

  /** The stop has been broadcast; nobody starts over. */
  ghost predicate Stopping(s: State) {
    Inv(s) && (s.stopper == SJoin || s.stopper == SDone) && !s.keepAlive
  }

  // a state from which nobody can fall asleep leads to such states only

  lemma WorkerStaysSupplied(s: State, t: State, i: nat)
    requires Stopping(s) && !CanRunDry(s) && i < |s.workers| && WorkerStep(s, t, i)
    ensures !CanRunDry(t) && !FallsAsleep(s, t)
  {
    hide Inv, Customer, Sum;
    InvParts(s);
    if s.workers[i] == Look {
      LookerIsServed(s, i);
    }
    SumUpdated(s.workers, i, t.workers[i], Customer);
    CustomerStep(s.workers[i], t.workers[i], s.keepAlive);
    assert t.workers == s.workers[i := t.workers[i]];
  }

  lemma InvParts(s: State)
    requires Inv(s)
    ensures Exclusive(s) && PopFinds(s)
  {
  }

  lemma CustomerStep(w: WorkerPc, v: WorkerPc, alive: bool)
    ensures w == WantLock && v == Look ==> Customer(v) == Customer(w)
    ensures w == Look && v == Take ==> Customer(v) == Customer(w)
    ensures w == Take && v.Taken? ==> Customer(v) + 1 == Customer(w)
    ensures v != WantLock && v != Look && v != Take ==> Customer(v) == 0
  {
  }

  lemma LookerIsServed(s: State, i: nat)
    requires Exclusive(s) && !CanRunDry(s) && i < |s.workers| && s.workers[i] == Look
    ensures s.queue != []
  {
    SumUpdated(s.workers, i, Gone, Customer);
  }

  lemma StaysSupplied(s: State, t: State)
    requires Stopping(s) && !CanRunDry(s) && Next(s, t)
    ensures Stopping(t) && !CanRunDry(t) && !FallsAsleep(s, t)
  {
    hide Inv, Sum, Customer;
    NextKeeps(s, t);
    if exists i :: 0 <= i < |s.workers| && WorkerStep(s, t, i) {
      var i :| 0 <= i < |s.workers| && WorkerStep(s, t, i);
      WorkerStaysSupplied(s, t, i);
    } else {
      SumWoken(s.workers);
    }
  }

  lemma {:induction false} NeverAsleep(path: seq<State>, k: nat)
    requires Path(path) && Stopping(path[0]) && !CanRunDry(path[0]) && k < |path|
    ensures Stopping(path[k]) && !CanRunDry(path[k])
    ensures k > 0 ==> !FallsAsleep(path[k - 1], path[k])
  {
    hide Stopping, CanRunDry, FallsAsleep, Next;
    if k > 0 {
      NeverAsleep(path, k - 1);
      assert Next(path[k - 1], path[k - 1 + 1]);
      StaysSupplied(path[k - 1], path[k]);
    }
  }

  // otherwise the workers that look take what there is, until one finds nothing

  function Effort(s: State): nat {
    Sum(s.workers, Distance) + match s.acceptor case AAdd(_) => 2 case AUnlock => 1 case _ => 0
  }

  ghost predicate LeadsToSleep(path: seq<State>, s: State) {
    |path| >= 2 && Path(path) && path[0] == s && FallsAsleep(path[|path| - 2], path[|path| - 1])
  }

  ghost predicate CanFallAsleep(s: State) {
    exists path :: LeadsToSleep(path, s)
  }

  lemma OneStepMore(s: State, t: State)
    requires Next(s, t) && CanFallAsleep(t)
    ensures CanFallAsleep(s)
  {
    hide Next;
    var path :| LeadsToSleep(path, t);
    var longer := [s] + path;
    assert forall k :: 0 <= k < |longer| - 1 ==> Next(longer[k], longer[k + 1]) by {
      forall k | 0 <= k < |longer| - 1
        ensures Next(longer[k], longer[k + 1])
      {
        if k > 0 {
          assert Next(path[k - 1], path[k - 1 + 1]);
        }
      }
    }
    assert LeadsToSleep(longer, s);
  }

  lemma SleepsNow(s: State, t: State)
    requires Next(s, t) && FallsAsleep(s, t)
    ensures CanFallAsleep(s)
  {
    assert LeadsToSleep([s, t], s);
  }

  lemma NearerToSleep(s: State, i: nat)
    requires Stopping(s) && CanRunDry(s) && i < |s.workers|
    requires WorkerHoldsLock(s.workers[i]) || (s.workers[i] == WantLock && s.lock == None)
    ensures s.workers[i] == Take ==> s.queue != []
    ensures WorkerStep(s, Onward(s, i), i) && Next(s, Onward(s, i))
    ensures s.workers[i] == Look && s.queue == [] ==> FallsAsleep(s, Onward(s, i))
    ensures !(s.workers[i] == Look && s.queue == []) ==>
      Stopping(Onward(s, i)) && CanRunDry(Onward(s, i)) && Effort(Onward(s, i)) < Effort(s)
  {
    hide Inv, Sum;
    InvParts(s);
    var t := Onward(s, i);
    assert WorkerStep(s, t, i);
    NextKeeps(s, t);
    SumUpdated(s.workers, i, t.workers[i], Customer);
    SumUpdated(s.workers, i, t.workers[i], Distance);
    assert t.workers == s.workers[i := t.workers[i]];
  }

  lemma AcceptorLetsGo(s: State) returns (t: State)
    requires Stopping(s) && CanRunDry(s) && AcceptorHoldsLock(s.acceptor)
    ensures Next(s, t) && Stopping(t) && CanRunDry(t) && Effort(t) < Effort(s)
  {
    hide Inv, Sum, Exclusive;
    t := match s.acceptor
      case AAdd(r) => s.(acceptor := AUnlock, queue := s.queue + [r])
      case _ => s.(acceptor := ABroadcast, lock := None);
    assert AcceptorStep(s, t);
    NextKeeps(s, t);
  }

  lemma {:induction false} RunsDry(s: State)
    requires Stopping(s) && CanRunDry(s)
    ensures CanFallAsleep(s)
    decreases Effort(s)
  {
    hide Inv, Sum, Customer, Effort, Next, WorkerStep, FallsAsleep, CanFallAsleep, Onward, CanRunDry;
    InvParts(s);
    if AcceptorHoldsLock(s.acceptor) {
      var t := AcceptorLetsGo(s);
      RunsDry(t);
      OneStepMore(s, t);
    } else {
      var i := WhoMoves(s);
      NearerToSleep(s, i);
      if s.workers[i] == Look && s.queue == [] {
        SleepsNow(s, Onward(s, i));
      } else {
        RunsDry(Onward(s, i));
        OneStepMore(s, Onward(s, i));
      }
    }
  }

  lemma LockIsFree(s: State)
    requires Exclusive(s) && forall j :: 0 <= j < |s.workers| ==> !WorkerHoldsLock(s.workers[j])
    requires !AcceptorHoldsLock(s.acceptor) && !StopperHoldsLock(s.stopper)
    ensures s.lock == None
  {
    match s.lock
    case Some(Worker(j)) => assert false;
    case _ =>
  }

  lemma WhoMoves(s: State) returns (i: nat)
    requires Exclusive(s) && (s.stopper == SJoin || s.stopper == SDone) && CanRunDry(s) && !AcceptorHoldsLock(s.acceptor)
    ensures i < |s.workers| && (WorkerHoldsLock(s.workers[i]) || (s.workers[i] == WantLock && s.lock == None))
  {
    hide Sum;
    if exists j :: 0 <= j < |s.workers| && WorkerHoldsLock(s.workers[j]) {
      i :| 0 <= i < |s.workers| && WorkerHoldsLock(s.workers[i]);
    } else {
      LockIsFree(s);
      SomeCustomer(s.workers);
      i :| 0 <= i < |s.workers| && Customer(s.workers[i]) == 1;
    }
  }

  // ---- exactly when ----

  /** In every run, once the stop has been broadcast and the stopping thread waits: a worker can still fall
      asleep if and only if the workers that have passed the test of `keep_alive` and will look at the queue,
      or have found something in it, are more than the requests in it, one being added included. */
  lemma SleepAfterStopExactly(states: seq<State>, k: nat)
    requires Run(states) && k < |states| && states[k].stopper == SJoin
    ensures CanFallAsleep(states[k]) <==> Sum(states[k].workers, Customer) > Supply(states[k])
  {
    hide Run, Inv, Sum, Customer, Supply, Path, FallsAsleep;
    var s := states[k];
    RunKeeps(states, k);
    RunStaffed(states, k);
    assert Stopping(s) && (CanRunDry(s) <==> Sum(s.workers, Customer) > Supply(s));
    if CanRunDry(s) {
      RunsDry(s);
    } else if CanFallAsleep(s) {
      var path :| LeadsToSleep(path, s);
      NeverAsleep(path, |path| - 1);
    }
  }
}
