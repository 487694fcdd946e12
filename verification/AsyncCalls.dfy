/** What single calls of writePacketAsync and writeAsync do in the course of any run: into which
    queue their item goes, how often, and that it is sent. */
module AsyncCalls {
  import opened ClockErrors
  import opened AsyncWriter

  function Other(l: Which): Which {
    if l == Packets then Raws else Packets
  }

  /** Step m of the run is one of client t. */
  ghost predicate Acts<T(!new)>(run: seq<State<T>>, m: nat, t: nat) {
    m + 1 < |run| && t in run[m].clients && run[m + 1] == Take(run[m], ByClient(t))
  }

  /** If step m is one of client t, it enqueues nothing and leaves the other lane as it is. */
  ghost predicate Quiet<T(!new)>(run: seq<State<T>>, m: nat, t: nat, l: Which) {
    Acts(run, m, t) ==>
      && run[m + 1].Get(l).enqueued == run[m].Get(l).enqueued && run[m + 1].Get(l).queue == run[m].Get(l).queue
      && run[m + 1].Get(Other(l)) == run[m].Get(Other(l))
  }

  ghost predicate Silent<T(!new)>(run: seq<State<T>>, b: nat, e: nat, t: nat, l: Which) {
    forall m :: b <= m < e ==> Quiet(run, m, t, l)
  }

  /** The item joins the lane, and the other lane stays as it is. */
  ghost predicate Enqueues<T>(s: State<T>, s': State<T>, l: Which, v: T) {
    && s'.Get(l).enqueued == s.Get(l).enqueued + [v] && s'.Get(l).queue == s.Get(l).queue + [v]
    && s'.Get(Other(l)) == s.Get(Other(l))
  }

  /** From step b on, exactly step k among those of client t enqueues something: v, in lane l. */
  ghost predicate Once<T(!new)>(run: seq<State<T>>, b: nat, e: nat, t: nat, l: Which, v: T, k: nat) {
    && b < k < e < |run| && Acts(run, k, t) && Enqueues(run[k], run[k + 1], l, v)
    && Silent(run, b, k, t, l) && Silent(run, k + 1, e, t, l)
  }

  /** Step b is a call of client t with item v for lane l, and the client is in it until moment i. */
  ghost predicate InCall<T(!new)>(run: seq<State<T>>, b: nat, i: nat, t: nat, l: Which, v: T) {
    && b < i < |run| && Possible(run[b], Call(t, l, v)) && run[b + 1] == Take(run[b], Call(t, l, v))
    && forall m :: b < m <= i ==> t in run[m].clients && !run[m].clients[t].Idle?
  }

  /** The client has returned at moment i + 1. */
  ghost predicate Completed<T(!new)>(run: seq<State<T>>, b: nat, i: nat, t: nat, l: Which, v: T) {
    InCall(run, b, i, t, l, v) && i + 1 < |run| && t in run[i + 1].clients && run[i + 1].clients[t].Idle?
  }

  // ---------------------------------------------------------------- one step of a call

  ghost predicate Serves<T>(pc: ClientPc<T>, l: Which, v: T) {
    match pc
    case Idle => false
    case EnqLock(k, w) => k == l && w == v
    case EnqPush(k, w) => k == l && w == v
    case EnqUnlock(k) => k == l
    case TellLock(k) => k == l
    case Tell(k) => k == l
    case TellUnlock => true
  }

  predicate HasEnqueued<T>(pc: ClientPc<T>) {
    pc.EnqUnlock? || pc.TellLock? || pc.Tell? || pc.TellUnlock?
  }

  lemma OwnStep<T>(s: State<T>, t: nat, l: Which, v: T)
    requires t in s.clients && Serves(s.clients[t], l, v)
    ensures var s' := ClientStep(s, t);
      && t in s'.clients && (s'.clients[t].Idle? <==> s.clients[t].TellUnlock?)
      && (!s'.clients[t].Idle? ==> Serves(s'.clients[t], l, v))
      && (HasEnqueued(s.clients[t]) && !s'.clients[t].Idle? ==> HasEnqueued(s'.clients[t]))
      && s'.Get(Other(l)) == s.Get(Other(l))
      && if HasEnqueued(s'.clients[t]) && !HasEnqueued(s.clients[t]) then Enqueues(s, s', l, v)
         else s'.Get(l).enqueued == s.Get(l).enqueued && s'.Get(l).queue == s.Get(l).queue
  {
  }

  /** A move of anyone else leaves the client where it is. */
  lemma OtherMove<T>(s: State<T>, m: Move<T>, t: nat)
    requires Possible(s, m) && m != ByClient(t) && t in s.clients && !s.clients[t].Idle?
    ensures t in Take(s, m).clients && Take(s, m).clients[t] == s.clients[t]
  {
    match m
    case ByClient(u) => ClientEffect(s, u, Packets);
    case ByDestructor => DestructorEffect(s, Packets);
    case _ =>
  }

  /** A client that stays where it is changes nothing. */
  lemma SamePlace<T>(s: State<T>, t: nat)
    requires t in s.clients && t in ClientStep(s, t).clients && ClientStep(s, t).clients[t] == s.clients[t]
    ensures ClientStep(s, t) == s
  {
  }

  // ---------------------------------------------------------------- whole calls

  ghost predicate SoFar<T(!new)>(run: seq<State<T>>, b: nat, i: nat, t: nat, l: Which, v: T, k: nat) {
    && InCall(run, b, i, t, l, v) && Serves(run[i].clients[t], l, v)
    && if HasEnqueued(run[i].clients[t]) then Once(run, b, i, t, l, v, k) else Silent(run, b, i, t, l)
  }

  lemma SilentStep<T(!new)>(run: seq<State<T>>, b: nat, i: nat, t: nat, l: Which)
    requires Silent(run, b, i, t, l) && Quiet(run, i, t, l)
    ensures Silent(run, b, i + 1, t, l)
  {
  }

  lemma QuietStep<T(!new)>(run: seq<State<T>>, b: nat, i: nat, t: nat, l: Which, v: T, k: nat)
    requires Quiet(run, i, t, l) && b <= i && i + 1 < |run|
    ensures Silent(run, b, i, t, l) ==> Silent(run, b, i + 1, t, l)
    ensures Once(run, b, i, t, l, v, k) ==> Once(run, b, i + 1, t, l, v, k)
  {
    if Silent(run, b, i, t, l) {
      SilentStep(run, b, i, t, l);
    }
    if Once(run, b, i, t, l, v, k) {
      SilentStep(run, k + 1, i, t, l);
    }
  }

  /** The call itself enqueues nothing yet. */
  lemma CallIsQuiet<T(!new)>(run: seq<State<T>>, b: nat, t: nat, l: Which, v: T)
    requires InCall(run, b, b + 1, t, l, v)
    ensures SoFar(run, b, b + 1, t, l, v, 0)
  {
    assert Quiet(run, b, t, l);
    SilentStep(run, b, b, t, l);
  }

  lemma CallStep<T(!new)>(run: seq<State<T>>, b: nat, i: nat, t: nat, l: Which, v: T, k: nat, m: Move<T>) returns (k': nat)
    requires SoFar(run, b, i, t, l, v, k) && InCall(run, b, i + 1, t, l, v)
    requires Possible(run[i], m) && run[i + 1] == Take(run[i], m)
    ensures SoFar(run, b, i + 1, t, l, v, k')
  {
    k' := k;
    if m == ByClient(t) {
      OwnStep(run[i], t, l, v);
      if HasEnqueued(run[i + 1].clients[t]) && !HasEnqueued(run[i].clients[t]) {
        k' := i;
      } else {
        QuietStep(run, b, i, t, l, v, k);
      }
    } else {
      OtherMove(run[i], m, t);
      if Acts(run, i, t) {
        SamePlace(run[i], t);
      }
      QuietStep(run, b, i, t, l, v, k);
    }
  }

  lemma MoveAt<T(!new)>(run: seq<State<T>>, i: nat) returns (m: Move<T>)
    requires IsRun(run) && i + 1 < |run|
    ensures Possible(run[i], m) && run[i + 1] == Take(run[i], m)
  {
    assert NextAt(run, i);
    m :| Possible(run[i], m) && run[i + 1] == Take(run[i], m);
  }

  lemma InCallBefore<T(!new)>(run: seq<State<T>>, b: nat, i: nat, t: nat, l: Which, v: T)
    requires InCall(run, b, i + 1, t, l, v) && b < i
    ensures InCall(run, b, i, t, l, v)
  {
  }

  lemma {:induction false} CallSoFar<T(!new)>(run: seq<State<T>>, b: nat, i: nat, t: nat, l: Which, v: T) returns (k: nat)
    requires IsRun(run) && InCall(run, b, i, t, l, v)
    ensures SoFar(run, b, i, t, l, v, k)
    decreases i
  {
    if i == b + 1 {
      CallIsQuiet(run, b, t, l, v);
      k := 0;
    } else {
      InCallBefore(run, b, i - 1, t, l, v);
      k := CallSoFar(run, b, i - 1, t, l, v);
      var m := MoveAt(run, i - 1);
      k := CallStep(run, b, i - 1, t, l, v, k, m);
    }
  }

  /** The step with which a call returns is its last one. */
  lemma ReturnStep<T(!new)>(run: seq<State<T>>, b: nat, i: nat, t: nat, l: Which, v: T)
    requires IsRun(run) && Completed(run, b, i, t, l, v) && Serves(run[i].clients[t], l, v)
    ensures run[i].clients[t].TellUnlock? && Quiet(run, i, t, l)
  {
    var m := MoveAt(run, i);
    if m != ByClient(t) {
      OtherMove(run[i], m, t);
    }
    OwnStep(run[i], t, l, v);
  }

  /** Every call that returns, in every run: exactly one of its steps enqueued something, namely the
      item it was called with in the queue it is for, and none of its steps touched the other lane. */
  lemma CompletedCall<T(!new)>(run: seq<State<T>>, b: nat, i: nat, t: nat, l: Which, v: T) returns (k: nat)
    requires IsRun(run) && Completed(run, b, i, t, l, v)
    ensures Once(run, b, i + 1, t, l, v, k)
  {
    k := CallSoFar(run, b, i, t, l, v);
    ReturnStep(run, b, i, t, l, v);
    QuietStep(run, b, i, t, l, v, k);
  }

  // ---------------------------------------------------------------- calls and what is sent

  lemma {:induction false} EnqueuedGrows<T(!new)>(run: seq<State<T>>, j: nat, i: nat, l: Which)
    requires IsRun(run) && j <= i < |run|
    ensures run[j].Get(l).enqueued <= run[i].Get(l).enqueued
  {
    if j < i {
      EnqueuedGrows(run, j, i - 1, l);
      var m := MoveAt(run, i - 1);
      MoveExtends(run[i - 1], m, l);
    }
  }

  /** The destructor returns only after the worker has exited. */
  lemma {:induction false} DestructorJoins<T(!new)>(run: seq<State<T>>, i: nat)
    requires IsRun(run) && i < |run| && run[i].destructor.Done?
    ensures run[i].worker.Exited?
  {
    if i > 0 {
      var m := MoveAt(run, i - 1);
      DoneStep(run[i - 1], m);
      if run[i - 1].destructor.Done? {
        DestructorJoins(run, i - 1);
      }
    }
  }

  lemma DoneStep<T>(s: State<T>, m: Move<T>)
    requires Possible(s, m)
    ensures s.worker.Exited? ==> Take(s, m).worker.Exited?
    ensures Take(s, m).destructor.Done? && !s.destructor.Done? ==> Take(s, m).worker.Exited?
  {
    match m
    case ByClient(t) => ClientEffect(s, t, Packets);
    case _ =>
  }

  /** A call that returned while the flag was down: once the worker has exited, its item has been
      handed to the write call of its own lane, in the place at which it was enqueued. */
  lemma CallIsSent<T(!new)>(run: seq<State<T>>, b: nat, i: nat, t: nat, l: Which, v: T, e: nat) returns (k: nat)
    requires IsRun(run) && Completed(run, b, i, t, l, v) && !run[i + 1].terminate
    requires i < e < |run| && run[e].worker.Exited?
    ensures Once(run, b, i + 1, t, l, v, k)
    ensures var place, sent := |run[k].Get(l).enqueued|, run[e].Get(l).sent; place < |sent| && sent[place] == v
  {
    k := CompletedCall(run, b, i, t, l, v);
    EnqueuedGrows(run, k + 1, i + 1, l);
    ShutdownDrains(run, i + 1, e, l);
    var place, all := |run[k].Get(l).enqueued|, run[i + 1].Get(l).enqueued;
    assert run[k + 1].Get(l).enqueued[place] == v;
    assert all[place] == all[..place + 1][place];
  }

  /** A call that returned before another one for the same lane began has the earlier place. */
  lemma CallsInOrder<T(!new)>(run: seq<State<T>>, b1: nat, i1: nat, t1: nat, v1: T, b2: nat, i2: nat, t2: nat, v2: T, l: Which)
    returns (k1: nat, k2: nat)
    requires IsRun(run) && Completed(run, b1, i1, t1, l, v1) && Completed(run, b2, i2, t2, l, v2) && i1 < b2
    ensures Once(run, b1, i1 + 1, t1, l, v1, k1) && Once(run, b2, i2 + 1, t2, l, v2, k2)
    ensures |run[k1].Get(l).enqueued| < |run[k2].Get(l).enqueued|
  {
    k1 := CompletedCall(run, b1, i1, t1, l, v1);
    k2 := CompletedCall(run, b2, i2, t2, l, v2);
    EnqueuedGrows(run, k1 + 1, k2, l);
  }

  // ---------------------------------------------------------------- the worker comes to an end

  /** An upper bound on the steps the worker still takes in a lane, from this place on. */
  function StepsLeft<T>(socket: Socket, n: nat, d: DrainPc<T>): nat {
    match d
    case LaneLock => 5 * n + 3
    case Test => 5 * n + 2
    case UnlockWith(_) => if socket == Tcp then 5 * n + 5 else 5 * n + 1
    case Send(_) => if socket == Tcp then 5 * n + 4 else 5 * n
    case Relock => if socket == Tcp then 5 * n + 3 else if n > 0 then 5 * n - 1 else 0
    case PopSent => if n > 0 then 5 * n - 2 else 0
    case LaneUnlock => 1
  }

  /** The same until it exits, if it has seen the flag. */
  function Rank<T>(s: State<T>): nat {
    var p, r := |s.packets.queue|, |s.raws.queue|;
    match s.worker
    case Exited => 0
    case Drain(l, _, d) => if l == Packets then StepsLeft(s.socket, p, d) + 5 * r + 3 else StepsLeft(s.socket, r, d)
    case Cond(_) => 5 * p + 5 * r + 7
  }

  lemma LaneStepShrinks<T>(socket: Socket, lane: Lane<T>, d: DrainPc<T>)
    requires Flows(socket, lane, Some(d)) && !d.LaneUnlock?
    ensures var (lane', next) := DrainStep(socket, lane, d);
      if next == d then lane' == lane else StepsLeft(socket, |lane'.queue|, next) < StepsLeft(socket, |lane.queue|, d)
  {
  }

  /** A worker that reads a raised flag finishes, and a worker that finishes never looks back. */
  lemma FinishingStays<T>(s: State<T>)
    ensures s.worker == Cond(ReadTerminate) && s.terminate ==> Finishing(WorkerStep(s).worker)
    ensures Finishing(s.worker) ==> Finishing(WorkerStep(s).worker)
  {
  }

  lemma DrainShrinks<T>(s: State<T>, l: Which, d: DrainPc<T>)
    requires s.worker == Drain(l, true, d) && !d.LaneUnlock? && Conserved(s, l)
    ensures if WorkerStep(s).worker == s.worker then Rank(WorkerStep(s)) == Rank(s) else Rank(WorkerStep(s)) < Rank(s)
  {
    LaneStepShrinks(s.socket, s.Get(l), d);
  }

  /** Each of its steps brings it closer to its exit. */
  lemma FinishingShrinks<T>(s: State<T>)
    requires Good(s) && Finishing(s.worker)
    ensures if WorkerStep(s).worker == s.worker then Rank(WorkerStep(s)) == Rank(s) else Rank(WorkerStep(s)) < Rank(s)
  {
    match s.worker
    case Drain(l, f, d) =>
      if !d.LaneUnlock? {
        DrainShrinks(s, l, d);
      }
    case _ =>
  }

  ghost predicate SameEnqueued<T>(s: State<T>, s': State<T>) {
    s'.packets.enqueued == s.packets.enqueued && s'.raws.enqueued == s.raws.enqueued
  }

  /** No other move that enqueues nothing changes what the worker has still to do. */
  lemma OthersKeepRank<T>(s: State<T>, m: Move<T>)
    requires Possible(s, m) && m != ByWorker && Finishing(s.worker) && SameEnqueued(s, Take(s, m))
    ensures Take(s, m).worker == s.worker && Rank(Take(s, m)) == Rank(s)
  {
    match m
    case ByClient(t) =>
      ClientEffect(s, t, Packets);
      ClientEffect(s, t, Raws);
    case ByDestructor =>
      DestructorEffect(s, Packets);
      DestructorEffect(s, Raws);
    case _ =>
  }

  /** How often the worker got on between two moments. */
  ghost function WorkerSteps<T>(run: seq<State<T>>, j: nat, i: nat): nat
    requires j <= i < |run|
  {
    if i == j then 0 else WorkerSteps(run, j, i - 1) + if run[i].worker != run[i - 1].worker then 1 else 0
  }

  /** Once the worker has seen the flag, and as long as nothing is enqueued any more, it takes at most
      Rank further steps, and then it has exited. */
  lemma {:induction false} WorkerExits<T(!new)>(run: seq<State<T>>, j: nat, i: nat)
    requires IsRun(run) && j <= i < |run| && Finishing(run[j].worker)
    requires forall m :: j <= m < i ==> SameEnqueued(run[m], run[m + 1])
    ensures Finishing(run[i].worker) && WorkerSteps(run, j, i) + Rank(run[i]) <= Rank(run[j])
    ensures WorkerSteps(run, j, i) >= Rank(run[j]) ==> run[i].worker.Exited?
    decreases i
  {
    RunIsGood(run, i);
    if !run[i].worker.Exited? {
      RankIsPositive(run[i]);
    }
    if j < i {
      WorkerExits(run, j, i - 1);
      RunIsGood(run, i - 1);
      var m := MoveAt(run, i - 1);
      if m == ByWorker {
        FinishingStays(run[i - 1]);
        FinishingShrinks(run[i - 1]);
      } else {
        OthersKeepRank(run[i - 1], m);
      }
    }
  }

  lemma RankIsPositive<T>(s: State<T>)
    requires Good(s) && !s.worker.Exited?
    ensures Rank(s) > 0
  {
    if s.worker.Drain? {
      assert Conserved(s, s.worker.l);
    }
  }
}
