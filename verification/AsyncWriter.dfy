/** The asynchronous writer of TcpSocket and UdpSocket as an interleaved step machine: clients
    enqueue and notify, one worker waits on a condition variable and drains two queues, and the
    destructor raises the terminate flag, notifies and joins. */
module AsyncWriter {
  import opened ClockErrors

  /** The sockets differ in two places. TcpSocket's worker pops an item before it sends it and
      its destructor sets the flag under the mutex; UdpSocket's worker pops after sending and its
      destructor sets the flag before it takes the mutex. */
  datatype Socket = Tcp | Udp

  datatype Which = Packets | Raws

  datatype Who = Worker | Destructor | Client(t: nat)

  /** Where the worker stands before and in the wait. */
  datatype CondPc =
    | CondLock
    | ReadTerminate
    | ReadPackets
    | ReadRaws
    | Wait
    | Blocked
    | Reacquire
    | CondUnlock(finish: bool)

  /** Where the worker stands in the drain loop of one queue. */
  datatype DrainPc<T> =
    | LaneLock
    | Test
    | UnlockWith(item: T)
    | Send(item: T)
    | Relock
    | PopSent
    | LaneUnlock

  datatype WorkerPc<T> =
    | Cond(c: CondPc)
    | Drain(l: Which, finish: bool, d: DrainPc<T>)
    | Exited

  datatype ClientPc<T> =
    | Idle
    | EnqLock(l: Which, v: T)
    | EnqPush(l: Which, v: T)
    | EnqUnlock(l: Which)
    | TellLock(l: Which)
    | Tell(l: Which)
    | TellUnlock

  datatype DestructorPc = Alive | SetFirst | TermLock | SetLocked | TermTell | TermUnlock | Join | Done

  /** One of the two queues: its contents and lock, and its history: what was enqueued, what was
      handed to the write call, and how much had been enqueued when the flag was raised. */
  datatype Lane<T> = Lane(queue: seq<T>, lock: Option<Who>, enqueued: seq<T>, sent: seq<T>, mark: nat)

  datatype State<T> = State(
    socket: Socket, packets: Lane<T>, raws: Lane<T>, mutex: Option<Who>, terminate: bool,
    worker: WorkerPc<T>, destructor: DestructorPc, clients: map<nat, ClientPc<T>>)
  {
    function Get(l: Which): Lane<T> {
      if l == Packets then packets else raws
    }
    function Set(l: Which, lane: Lane<T>): State<T> {
      if l == Packets then this.(packets := lane) else this.(raws := lane)
    }
    function SetLock(l: Which, lock: Option<Who>): State<T> {
      Set(l, Get(l).(lock := lock))
    }
  }

  ghost predicate Init<T>(s: State<T>) {
    && s.packets == Lane([], None, [], [], 0) && s.raws == Lane([], None, [], [], 0)
    && s.mutex == None && !s.terminate && s.worker == Cond(CondLock) && s.destructor == Alive
    && forall t :: t in s.clients ==> s.clients[t] == Idle
  }

  // ---------------------------------------------------------------- steps

  function CondStep<T>(s: State<T>, c: CondPc): State<T> {
    match c
    case CondLock => if s.mutex.Some? then s else s.(mutex := Some(Worker), worker := Cond(ReadTerminate))
    case ReadTerminate => s.(worker := Cond(if s.terminate then CondUnlock(true) else ReadPackets))
    case ReadPackets => s.(worker := Cond(if s.packets.queue != [] then CondUnlock(false) else ReadRaws))
    case ReadRaws => s.(worker := Cond(if s.raws.queue != [] then CondUnlock(false) else Wait))
    case Wait => s.(mutex := None, worker := Cond(Blocked))
    case Blocked => s
    case Reacquire => if s.mutex.Some? then s else s.(mutex := Some(Worker), worker := Cond(CondUnlock(false)))
    case CondUnlock(f) => s.(mutex := None, worker := Drain(Packets, f, LaneLock))
  }

  /** A step of the drain loop, in terms of its queue alone. */
  function DrainStep<T>(socket: Socket, lane: Lane<T>, d: DrainPc<T>): (Lane<T>, DrainPc<T>) {
    match d
    case LaneLock => if lane.lock.Some? then (lane, d) else (lane.(lock := Some(Worker)), Test)
    case Test =>
      if lane.queue == [] then (lane, LaneUnlock)
      else (if socket == Tcp then lane.(queue := lane.queue[1..]) else lane, UnlockWith(lane.queue[0]))
    case UnlockWith(item) => (lane.(lock := None), Send(item))
    case Send(item) => (lane.(sent := lane.sent + [item]), Relock)
    case Relock => if lane.lock.Some? then (lane, d) else (lane.(lock := Some(Worker)), if socket == Tcp then Test else PopSent)
    case PopSent => if lane.queue == [] then (lane, d) else (lane.(queue := lane.queue[1..]), Test)
    case LaneUnlock => (lane.(lock := None), d)
  }

  /** One step of `work`; waiting for a lock, being blocked and having exited leave all as it is. */
  function WorkerStep<T>(s: State<T>): State<T> {
    match s.worker
    case Cond(c) => CondStep(s, c)
    case Drain(l, f, d) =>
      var (lane, next) := DrainStep(s.socket, s.Get(l), d);
      s.Set(l, lane).(worker :=
        if !d.LaneUnlock? then Drain(l, f, next)
        else if l == Packets then Drain(Raws, f, LaneLock)
        else if f then Exited else Cond(CondLock))
    case Exited => s
  }

  /** notify_all: the worker, if it is blocked, has to take the mutex again. */
  function Notified<T>(s: State<T>): State<T> {
    if s.worker == Cond(Blocked) then s.(worker := Cond(Reacquire)) else s
  }

  function ClientAt<T>(s: State<T>, t: nat, pc: ClientPc<T>): State<T> {
    s.(clients := s.clients[t := pc])
  }

  function ClientStep<T>(s: State<T>, t: nat): State<T>
    requires t in s.clients
  {
    match s.clients[t]
    case Idle => s
    case EnqLock(l, v) => if s.Get(l).lock.Some? then s else ClientAt(s, t, EnqPush(l, v)).SetLock(l, Some(Client(t)))
    case EnqPush(l, v) =>
      var lane := s.Get(l);
      ClientAt(s, t, EnqUnlock(l)).Set(l, lane.(queue := lane.queue + [v], enqueued := lane.enqueued + [v]))
    case EnqUnlock(l) => ClientAt(s, t, TellLock(l)).SetLock(l, None)
    case TellLock(l) => if s.mutex.Some? then s else ClientAt(s, t, Tell(l)).(mutex := Some(Client(t)))
    case Tell(l) => Notified(ClientAt(s, t, TellUnlock))
    case TellUnlock => ClientAt(s, t, Idle).(mutex := None)
  }

  function Raised<T>(s: State<T>): State<T> {
    s.(terminate := true,
       packets := s.packets.(mark := |s.packets.enqueued|), raws := s.raws.(mark := |s.raws.enqueued|))
  }

  function DestructorStep<T>(s: State<T>): State<T> {
    match s.destructor
    case Alive => s.(destructor := if s.socket == Tcp then TermLock else SetFirst)
    case SetFirst => Raised(s).(destructor := TermLock)
    case TermLock =>
      if s.mutex.Some? then s
      else s.(mutex := Some(Destructor), destructor := if s.socket == Tcp then SetLocked else TermTell)
    case SetLocked => Raised(s).(destructor := TermTell)
    case TermTell => Notified(s.(destructor := TermUnlock))
    case TermUnlock => s.(mutex := None, destructor := Join)
    case Join => if s.worker.Exited? then s.(destructor := Done) else s
    case Done => s
  }

  /** Who moves, and what a client that starts a call enqueues; a blocked worker may also wake
      up without a notification. */
  datatype Move<T> = ByWorker | ByClient(t: nat) | Call(t: nat, l: Which, v: T) | ByDestructor | Spurious

  predicate Possible<T>(s: State<T>, m: Move<T>) {
    match m
    case ByClient(t) => t in s.clients
    case Call(t, _, _) => t in s.clients && s.clients[t].Idle?
    case _ => true
  }

  function Take<T>(s: State<T>, m: Move<T>): State<T>
    requires Possible(s, m)
  {
    match m
    case ByWorker => WorkerStep(s)
    case ByClient(t) => ClientStep(s, t)
    case Call(t, l, v) => ClientAt(s, t, EnqLock(l, v))
    case ByDestructor => DestructorStep(s)
    case Spurious => Notified(s)
  }

  ghost predicate Next<T(!new)>(s: State<T>, s': State<T>) {
    exists m: Move<T> :: Possible(s, m) && s' == Take(s, m)
  }

  ghost predicate NextAt<T(!new)>(run: seq<State<T>>, i: nat) {
    i + 1 < |run| && Next(run[i], run[i + 1])
  }

  ghost predicate IsRun<T(!new)>(run: seq<State<T>>) {
    run != [] && Init(run[0]) && forall i :: 0 <= i < |run| - 1 ==> NextAt(run, i)
  }

  // ---------------------------------------------------------------- locks

  predicate WorkerHoldsMutex<T>(w: WorkerPc<T>) {
    w.Cond? && (w.c.ReadTerminate? || w.c.ReadPackets? || w.c.ReadRaws? || w.c.Wait? || w.c.CondUnlock?)
  }

  /** The worker's place in the drain loop of this lane, if it is there. */
  function WorkerIn<T>(w: WorkerPc<T>, l: Which): Option<DrainPc<T>> {
    if w.Drain? && w.l == l then Some(w.d) else None
  }

  predicate DrainHolds<T>(d: DrainPc<T>) {
    d.Test? || d.UnlockWith? || d.PopSent? || d.LaneUnlock?
  }

  predicate WorkerHoldsLane<T>(w: WorkerPc<T>, l: Which) {
    w.Drain? && w.l == l && DrainHolds(w.d)
  }

  predicate ClientHoldsLane<T>(c: ClientPc<T>, l: Which) {
    (c.EnqPush? || c.EnqUnlock?) && c.l == l
  }

  predicate ClientHoldsMutex<T>(c: ClientPc<T>) {
    c.Tell? || c.TellUnlock?
  }

  predicate DestructorHoldsMutex(d: DestructorPc) {
    d.SetLocked? || d.TermTell? || d.TermUnlock?
  }

  ghost predicate LaneOwned<T>(s: State<T>, l: Which) {
    var lock := s.Get(l).lock;
    && (lock == Some(Worker) <==> WorkerHoldsLane(s.worker, l))
    && (forall t :: t in s.clients ==> (lock == Some(Client(t)) <==> ClientHoldsLane(s.clients[t], l)))
    && (lock.Some? ==> lock.value != Destructor && (lock.value.Client? ==> lock.value.t in s.clients))
  }

  ghost predicate MutexOwned<T>(s: State<T>) {
    && (s.mutex == Some(Worker) <==> WorkerHoldsMutex(s.worker))
    && (s.mutex == Some(Destructor) <==> DestructorHoldsMutex(s.destructor))
    && (forall t :: t in s.clients ==> (s.mutex == Some(Client(t)) <==> ClientHoldsMutex(s.clients[t])))
    && (s.mutex.Some? && s.mutex.value.Client? ==> s.mutex.value.t in s.clients)
  }

  // ---------------------------------------------------------------- conservation

  /** What is enqueued but not yet handed over, given where the worker is in this lane. */
  ghost function Pending<T>(socket: Socket, queue: seq<T>, at: Option<DrainPc<T>>): seq<T> {
    if at.None? then queue
    else if socket == Tcp && (at.value.UnlockWith? || at.value.Send?) then [at.value.item] + queue
    else if socket == Udp && (at.value.Relock? || at.value.PopSent?) && queue != [] then queue[1..]
    else queue
  }

  /** Nothing is lost, doubled or reordered. */
  ghost predicate Flows<T>(socket: Socket, lane: Lane<T>, at: Option<DrainPc<T>>) {
    && lane.enqueued == lane.sent + Pending(socket, lane.queue, at)
    && (at.Some? && socket == Udp && (at.value.UnlockWith? || at.value.Send?) ==>
          lane.queue != [] && lane.queue[0] == at.value.item)
    && (at.Some? && socket == Udp && (at.value.Relock? || at.value.PopSent?) ==> lane.queue != [])
    && (at.Some? && socket == Tcp ==> !at.value.PopSent?)
  }

  ghost predicate Conserved<T>(s: State<T>, l: Which) {
    Flows(s.socket, s.Get(l), WorkerIn(s.worker, l))
  }

  // ---------------------------------------------------------------- wake-ups

  predicate BeforeTell<T>(c: ClientPc<T>, l: Which) {
    (c.EnqUnlock? || c.TellLock? || c.Tell?) && c.l == l
  }

  ghost predicate SomeoneTells<T>(s: State<T>, l: Which) {
    exists t :: t in s.clients && BeforeTell(s.clients[t], l)
  }

  predicate DestructorTells<T>(s: State<T>) {
    s.destructor.TermTell? || (s.socket == Udp && s.destructor.TermLock?)
  }

  predicate PastTerminate(c: CondPc) {
    c.ReadPackets? || c.ReadRaws? || c.Wait? || c.Blocked?
  }

  predicate PastLane(c: CondPc, l: Which) {
    c.Wait? || c.Blocked? || (l == Packets && c.ReadRaws?)
  }

  /** From the moment the worker has found a queue empty, or the flag down, until it wakes up:
      if that has changed, whoever changed it has still to notify. */
  ghost predicate NoLostWakeUp<T>(s: State<T>) {
    s.worker.Cond? ==>
      && (PastTerminate(s.worker.c) && s.terminate ==> DestructorTells(s))
      && TellsLane(s, Packets) && TellsLane(s, Raws)
  }

  ghost predicate TellsLane<T>(s: State<T>, l: Which) {
    s.worker.Cond? && PastLane(s.worker.c, l) && s.Get(l).queue != [] ==> SomeoneTells(s, l)
  }

  // ---------------------------------------------------------------- shutdown

  predicate Finishing<T>(w: WorkerPc<T>) {
    w.Exited? || (w.Cond? && w.c.CondUnlock? && w.c.finish) || (w.Drain? && w.finish)
  }

  /** The worker has left the drain loop of this lane for the last time. */
  predicate Drained<T>(w: WorkerPc<T>, l: Which) {
    w.Exited? || (w.Drain? && w.finish && ((w.l == l && w.d.LaneUnlock?) || (l == Packets && w.l == Raws)))
  }

  ghost predicate ShutsDown<T>(s: State<T>) {
    && (Finishing(s.worker) ==> s.terminate)
    && (s.terminate <==> s.destructor.TermTell? || s.destructor.TermUnlock? || s.destructor.Join? || s.destructor.Done?
                         || (s.socket == Udp && s.destructor.TermLock?))
    && (s.socket == Tcp ==> !s.destructor.SetFirst?) && (s.socket == Udp ==> !s.destructor.SetLocked?)
    && ShutsLane(s, Packets) && ShutsLane(s, Raws)
  }

  ghost predicate ShutsLane<T>(s: State<T>, l: Which) {
    && s.Get(l).mark <= |s.Get(l).enqueued|
    && (Drained(s.worker, l) ==> s.Get(l).mark <= |s.Get(l).sent|)
  }

  ghost predicate Good<T>(s: State<T>) {
    && LaneOwned(s, Packets) && LaneOwned(s, Raws) && MutexOwned(s)
    && Conserved(s, Packets) && Conserved(s, Raws)
    && NoLostWakeUp(s) && ShutsDown(s)
  }

  // ---------------------------------------------------------------- the worker keeps it all

  lemma WorkerOwnsLane<T>(s: State<T>, l: Which)
    requires LaneOwned(s, l)
    ensures LaneOwned(WorkerStep(s), l)
  {
  }

  lemma WorkerOwnsMutex<T>(s: State<T>)
    requires MutexOwned(s)
    ensures MutexOwned(WorkerStep(s))
  {
  }

  lemma DrainFlows<T>(socket: Socket, lane: Lane<T>, d: DrainPc<T>)
    requires Flows(socket, lane, Some(d)) && !d.LaneUnlock?
    ensures var (lane', next) := DrainStep(socket, lane, d);
      Flows(socket, lane', Some(next)) && lane'.enqueued == lane.enqueued && lane'.mark == lane.mark
  {
    var (lane', next) := DrainStep(socket, lane, d);
    if d.Test? && lane.queue != [] {
      assert lane.queue == [lane.queue[0]] + lane.queue[1..];
    } else if d.Send? {
      var rest := if socket == Tcp then lane.queue else lane.queue[1..];
      assert lane.sent + ([d.item] + rest) == lane.sent + [d.item] + rest;
      assert socket == Udp ==> lane.queue == [d.item] + rest;
    }
  }

  lemma WorkerConserves<T>(s: State<T>, l: Which)
    requires Conserved(s, l)
    ensures Conserved(WorkerStep(s), l)
  {
    if s.worker.Drain? && s.worker.l == l && !s.worker.d.LaneUnlock? {
      DrainFlows(s.socket, s.Get(l), s.worker.d);
    }
  }

  lemma WorkerWakes<T>(s: State<T>)
    requires NoLostWakeUp(s)
    ensures NoLostWakeUp(WorkerStep(s))
  {
  }

  lemma WorkerShutsLane<T>(s: State<T>, l: Which)
    requires ShutsLane(s, l) && Conserved(s, l)
    ensures ShutsLane(WorkerStep(s), l)
  {
  }

  lemma WorkerFinishes<T>(s: State<T>)
    requires Finishing(s.worker) ==> s.terminate
    ensures var s' := WorkerStep(s);
      (Finishing(s'.worker) ==> s'.terminate) && s'.terminate == s.terminate && s'.destructor == s.destructor && s'.socket == s.socket
  {
  }

  lemma WorkerKeepsGood<T>(s: State<T>)
    requires Good(s)
    ensures Good(WorkerStep(s))
  {
    WorkerOwnsLane(s, Packets);
    WorkerOwnsLane(s, Raws);
    WorkerOwnsMutex(s);
    WorkerConserves(s, Packets);
    WorkerConserves(s, Raws);
    WorkerWakes(s);
    WorkerShutsLane(s, Packets);
    WorkerShutsLane(s, Raws);
    WorkerFinishes(s);
  }

  // ---------------------------------------------------------------- the clients keep it all

  lemma LaneChanges<T>(s: State<T>, t: nat, l: Which, s': State<T>)
    requires LaneOwned(s, l) && t in s.clients && t in s'.clients && s'.clients == s.clients[t := s'.clients[t]]
    requires WorkerHoldsLane(s'.worker, l) == WorkerHoldsLane(s.worker, l)
    requires var held, holds := ClientHoldsLane(s.clients[t], l), ClientHoldsLane(s'.clients[t], l);
      if held == holds then s'.Get(l).lock == s.Get(l).lock
      else if holds then s.Get(l).lock == None && s'.Get(l).lock == Some(Client(t))
      else s'.Get(l).lock == None
    ensures LaneOwned(s', l)
  {
  }

  lemma ClientOwnsLane<T>(s: State<T>, t: nat, l: Which)
    requires LaneOwned(s, l) && t in s.clients
    ensures LaneOwned(ClientStep(s, t), l)
  {
    match s.clients[t]
    case Idle =>
    case EnqLock(k, _) => if s.Get(k).lock == None { LaneChanges(s, t, l, ClientStep(s, t)); }
    case TellLock(_) => if s.mutex == None { LaneChanges(s, t, l, ClientStep(s, t)); }
    case _ => LaneChanges(s, t, l, ClientStep(s, t));
  }

  lemma MutexChanges<T>(s: State<T>, t: nat, s': State<T>)
    requires MutexOwned(s) && t in s.clients && t in s'.clients && s'.clients == s.clients[t := s'.clients[t]]
    requires WorkerHoldsMutex(s'.worker) == WorkerHoldsMutex(s.worker) && s'.destructor == s.destructor
    requires var held, holds := ClientHoldsMutex(s.clients[t]), ClientHoldsMutex(s'.clients[t]);
      if held == holds then s'.mutex == s.mutex
      else if holds then s.mutex == None && s'.mutex == Some(Client(t))
      else s'.mutex == None
    ensures MutexOwned(s')
  {
  }

  lemma ClientOwnsMutex<T>(s: State<T>, t: nat)
    requires MutexOwned(s) && t in s.clients
    ensures MutexOwned(ClientStep(s, t))
  {
    match s.clients[t]
    case Idle =>
    case EnqLock(k, _) => if s.Get(k).lock == None { MutexChanges(s, t, ClientStep(s, t)); }
    case TellLock(_) => if s.mutex == None { MutexChanges(s, t, ClientStep(s, t)); }
    case _ => MutexChanges(s, t, ClientStep(s, t));
  }

  /** What a client's step does to a lane, to the worker and to the rest. */
  lemma ClientEffect<T>(s: State<T>, t: nat, l: Which)
    requires t in s.clients
    ensures var s', pc := ClientStep(s, t), s.clients[t];
      && s'.socket == s.socket && s'.terminate == s.terminate && s'.destructor == s.destructor
      && s'.clients.Keys == s.clients.Keys
      && (s'.worker == s.worker || (s.worker == Cond(Blocked) && s'.worker == Cond(Reacquire)))
      && (pc.Tell? ==> s'.worker != Cond(Blocked))
      && s'.Get(l).sent == s.Get(l).sent && s'.Get(l).mark == s.Get(l).mark
      && (if pc.EnqPush? && pc.l == l
          then s'.Get(l).queue == s.Get(l).queue + [pc.v] && s'.Get(l).enqueued == s.Get(l).enqueued + [pc.v]
          else s'.Get(l).queue == s.Get(l).queue && s'.Get(l).enqueued == s.Get(l).enqueued)
  {
  }

  lemma PushFlows<T>(socket: Socket, lane: Lane<T>, at: Option<DrainPc<T>>, v: T)
    requires Flows(socket, lane, at)
    ensures Flows(socket, lane.(queue := lane.queue + [v], enqueued := lane.enqueued + [v]), at)
  {
    var pending := Pending(socket, lane.queue, at);
    assert lane.sent + pending + [v] == lane.sent + (pending + [v]);
    assert Pending(socket, lane.queue + [v], at) == pending + [v];
  }

  lemma ClientConserves<T>(s: State<T>, t: nat, l: Which)
    requires Conserved(s, l) && t in s.clients
    ensures Conserved(ClientStep(s, t), l)
  {
    ClientEffect(s, t, l);
    if s.clients[t].EnqPush? {
      PushFlows(s.socket, s.Get(l), WorkerIn(s.worker, l), s.clients[t].v);
    }
  }

  /** A client that has not told yet stays that way until its own notification, which leaves the
      worker awake; and only a push, by a client that then has to tell, fills a queue. */
  lemma ClientTells<T>(s: State<T>, t: nat, l: Which)
    requires t in s.clients && MutexOwned(s) && TellsLane(s, l)
    ensures TellsLane(ClientStep(s, t), l)
  {
    var s', pc := ClientStep(s, t), s.clients[t];
    ClientEffect(s, t, l);
    if s'.worker.Cond? && PastLane(s'.worker.c, l) && s'.Get(l).queue != [] {
      if pc.EnqPush? && pc.l == l {
        assert BeforeTell(s'.clients[t], l);
      } else {
        var u :| u in s.clients && BeforeTell(s.clients[u], l);
        assert u == t ==> !pc.Tell?;
        assert BeforeTell(s'.clients[u], l);
      }
    }
  }

  lemma ClientWakes<T>(s: State<T>, t: nat)
    requires NoLostWakeUp(s) && MutexOwned(s) && t in s.clients
    ensures NoLostWakeUp(ClientStep(s, t))
  {
    ClientEffect(s, t, Packets);
    ClientTells(s, t, Packets);
    ClientTells(s, t, Raws);
  }

  lemma ClientShutsLane<T>(s: State<T>, t: nat, l: Which)
    requires ShutsLane(s, l) && t in s.clients
    ensures ShutsLane(ClientStep(s, t), l)
  {
    ClientEffect(s, t, l);
  }

  lemma ClientKeepsGood<T>(s: State<T>, t: nat)
    requires Good(s) && t in s.clients
    ensures Good(ClientStep(s, t))
  {
    ClientOwnsLane(s, t, Packets);
    ClientOwnsLane(s, t, Raws);
    ClientOwnsMutex(s, t);
    ClientConserves(s, t, Packets);
    ClientConserves(s, t, Raws);
    ClientWakes(s, t);
    ClientShutsLane(s, t, Packets);
    ClientShutsLane(s, t, Raws);
    ClientEffect(s, t, Packets);
  }

  lemma CallKeepsGood<T>(s: State<T>, t: nat, l: Which, v: T)
    requires Good(s) && t in s.clients && s.clients[t].Idle?
    ensures Good(ClientAt(s, t, EnqLock(l, v)))
  {
    var s' := ClientAt(s, t, EnqLock(l, v));
    LaneChanges(s, t, Packets, s');
    LaneChanges(s, t, Raws, s');
    MutexChanges(s, t, s');
    CallTells(s, t, l, v, Packets);
    CallTells(s, t, l, v, Raws);
  }

  lemma CallTells<T>(s: State<T>, t: nat, l: Which, v: T, k: Which)
    requires t in s.clients && s.clients[t].Idle?
    ensures SomeoneTells(s, k) ==> SomeoneTells(ClientAt(s, t, EnqLock(l, v)), k)
  {
    if SomeoneTells(s, k) {
      var u :| u in s.clients && BeforeTell(s.clients[u], k);
      assert BeforeTell(ClientAt(s, t, EnqLock(l, v)).clients[u], k);
    }
  }

  // ---------------------------------------------------------------- the destructor keeps it all

  /** What the destructor's step does to a lane and to the worker. */
  lemma DestructorEffect<T>(s: State<T>, l: Which)
    ensures var s' := DestructorStep(s);
      && s'.socket == s.socket && s'.clients == s.clients
      && (s'.worker == s.worker || (s.worker == Cond(Blocked) && s'.worker == Cond(Reacquire)))
      && s'.Get(l) == s.Get(l).(mark := s'.Get(l).mark)
      && s'.Get(l).mark == (if s.destructor.SetFirst? || s.destructor.SetLocked? then |s.Get(l).enqueued| else s.Get(l).mark)
  {
  }

  lemma DestructorLane<T>(s: State<T>, l: Which)
    requires LaneOwned(s, l) && Conserved(s, l) && TellsLane(s, l)
    ensures LaneOwned(DestructorStep(s), l) && Conserved(DestructorStep(s), l) && TellsLane(DestructorStep(s), l)
  {
    DestructorEffect(s, l);
  }

  lemma DestructorWakes<T>(s: State<T>)
    requires ShutsDown(s) && MutexOwned(s)
    requires s.worker.Cond? && PastTerminate(s.worker.c) && s.terminate ==> DestructorTells(s)
    ensures var s' := DestructorStep(s);
      s'.worker.Cond? && PastTerminate(s'.worker.c) && s'.terminate ==> DestructorTells(s')
  {
  }

  lemma DestructorShutsDown<T>(s: State<T>)
    requires ShutsDown(s)
    ensures ShutsDown(DestructorStep(s))
  {
    DestructorEffect(s, Packets);
    DestructorEffect(s, Raws);
  }

  lemma DestructorKeepsGood<T>(s: State<T>)
    requires Good(s)
    ensures Good(DestructorStep(s))
  {
    DestructorOwnsMutex(s);
    DestructorLane(s, Packets);
    DestructorLane(s, Raws);
    DestructorWakes(s);
    DestructorShutsDown(s);
  }

  lemma DestructorOwnsMutex<T>(s: State<T>)
    requires MutexOwned(s)
    ensures MutexOwned(DestructorStep(s))
  {
  }

  lemma SpuriousKeepsGood<T>(s: State<T>)
    requires Good(s)
    ensures Good(Notified(s))
  {
  }

  // ---------------------------------------------------------------- whole runs

  lemma {:induction false} RunIsGood<T(!new)>(run: seq<State<T>>, i: nat)
    requires IsRun(run) && i < |run|
    ensures Good(run[i])
  {
    if i > 0 {
      var s := run[i - 1];
      RunIsGood(run, i - 1);
      assert NextAt(run, i - 1);
      var m: Move<T> :| Possible(s, m) && run[i] == Take(s, m);
      MoveKeepsGood(s, m);
    }
  }

  lemma MoveKeepsGood<T>(s: State<T>, m: Move<T>)
    requires Good(s) && Possible(s, m)
    ensures Good(Take(s, m))
  {
    match m
    case ByWorker => WorkerKeepsGood(s);
    case ByClient(t) => ClientKeepsGood(s, t);
    case Call(t, l, v) => CallKeepsGood(s, t, l, v);
    case ByDestructor => DestructorKeepsGood(s);
    case Spurious => SpuriousKeepsGood(s);
  }

  /** No lost wake-up: while the worker is blocked, a raised flag or a filled queue has an owner
      that has still to notify. */
  lemma BlockedWillBeTold<T(!new)>(run: seq<State<T>>, i: nat)
    requires IsRun(run) && i < |run| && run[i].worker == Cond(Blocked)
    ensures run[i].terminate ==> DestructorTells(run[i])
    ensures run[i].packets.queue != [] ==> SomeoneTells(run[i], Packets)
    ensures run[i].raws.queue != [] ==> SomeoneTells(run[i], Raws)
  {
    RunIsGood(run, i);
  }

  /** At every moment, what was handed to the write call is what was enqueued first, each item
      once and in order. */
  lemma HandedOverInOrder<T(!new)>(run: seq<State<T>>, i: nat, l: Which)
    requires IsRun(run) && i < |run|
    ensures run[i].Get(l).sent <= run[i].Get(l).enqueued
  {
    RunIsGood(run, i);
  }

  /** A move only extends the history, and the mark covers all that came before the flag. */
  lemma MoveExtends<T>(s: State<T>, m: Move<T>, l: Which)
    requires Possible(s, m)
    ensures var s' := Take(s, m);
      && s.Get(l).enqueued <= s'.Get(l).enqueued
      && (if !s.terminate && s'.terminate then s'.Get(l).mark == |s.Get(l).enqueued|
          else s.terminate ==> s'.terminate)
  {
    match m
    case ByClient(t) => ClientEffect(s, t, l);
    case ByDestructor => DestructorEffect(s, l);
    case _ =>
  }

  lemma MarkStays<T>(s: State<T>, m: Move<T>, l: Which)
    requires Possible(s, m) && s.terminate && ShutsDown(s)
    ensures Take(s, m).Get(l).mark == s.Get(l).mark
  {
    match m
    case ByClient(t) => ClientEffect(s, t, l);
    case ByDestructor => DestructorEffect(s, l);
    case _ =>
  }

  lemma {:induction false} MarkCovers<T(!new)>(run: seq<State<T>>, j: nat, i: nat, l: Which)
    requires IsRun(run) && j <= i < |run| && !run[j].terminate
    ensures run[j].Get(l).enqueued <= run[i].Get(l).enqueued
    ensures run[i].terminate ==> |run[j].Get(l).enqueued| <= run[i].Get(l).mark
  {
    if j < i {
      var s := run[i - 1];
      MarkCovers(run, j, i - 1, l);
      assert NextAt(run, i - 1);
      var m: Move<T> :| Possible(s, m) && run[i] == Take(s, m);
      MoveExtends(s, m, l);
      if s.terminate {
        RunIsGood(run, i - 1);
        MarkStays(s, m, l);
      }
    }
  }

  /** Shutdown drains: once the worker has exited, everything enqueued while the flag was still
      down has been handed over, in order; and if nothing was enqueued after that, everything. */
  lemma ShutdownDrains<T(!new)>(run: seq<State<T>>, j: nat, i: nat, l: Which)
    requires IsRun(run) && j <= i < |run| && !run[j].terminate && run[i].worker.Exited?
    ensures run[j].Get(l).enqueued <= run[i].Get(l).sent
    ensures run[i].Get(l).enqueued == run[j].Get(l).enqueued ==>
      run[i].Get(l).sent == run[i].Get(l).enqueued && run[i].Get(l).queue == []
  {
    RunIsGood(run, i);
    MarkCovers(run, j, i, l);
    var a, b, c := run[j].Get(l).enqueued, run[i].Get(l).sent, run[i].Get(l).enqueued;
    assert a <= c && b <= c && |a| <= |b|;
    assert a == c[..|a|] && b == c[..|b|] && c[..|a|] == c[..|b|][..|a|];
  }

  // ---------------------------------------------------------------- progress

  /** This party is under way, and its next step changes something: a client in a call, or a
      destructor that has been called. */
  predicate CanMove<T(==)>(s: State<T>, who: Who) {
    match who
    case Worker => WorkerStep(s) != s
    case Destructor => !s.destructor.Alive? && DestructorStep(s) != s
    case Client(t) => t in s.clients && ClientStep(s, t) != s
  }

  lemma LaneOwnerMoves<T>(s: State<T>, l: Which) returns (who: Who)
    requires Good(s) && s.Get(l).lock.Some?
    ensures CanMove(s, who)
  {
    who := s.Get(l).lock.value;
    if who.Client? {
      var pc := s.clients[who.t];
      assert ClientStep(s, who.t).clients[who.t] != pc;
    } else {
      assert WorkerStep(s).worker != s.worker;
    }
  }

  lemma MutexOwnerMoves<T>(s: State<T>) returns (who: Who)
    requires Good(s) && s.mutex.Some?
    ensures CanMove(s, who)
  {
    who := s.mutex.value;
    match who
    case Client(t) => assert ClientStep(s, t).clients[t] != s.clients[t];
    case Worker => assert WorkerStep(s).worker != s.worker;
    case Destructor => assert DestructorStep(s).destructor != s.destructor;
  }

  /** Whoever has still to notify can move, or the holder of the mutex can. */
  lemma TellerMoves<T>(s: State<T>, l: Which) returns (who: Who)
    requires Good(s) && SomeoneTells(s, l)
    ensures CanMove(s, who)
  {
    var t :| t in s.clients && BeforeTell(s.clients[t], l);
    if s.clients[t].TellLock? && s.mutex.Some? {
      who := MutexOwnerMoves(s);
    } else {
      who := Client(t);
      assert ClientStep(s, t).clients[t] != s.clients[t];
    }
  }

  /** Nothing gets stuck: unless the worker has exited, or is blocked with nothing to do, some
      party that is already under way can take a step. */
  lemma NeverStuck<T(!new)>(run: seq<State<T>>, i: nat) returns (who: Who)
    requires IsRun(run) && i < |run| && !run[i].worker.Exited?
    requires run[i].worker == Cond(Blocked) ==> run[i].terminate || run[i].packets.queue != [] || run[i].raws.queue != []
    ensures CanMove(run[i], who)
  {
    RunIsGood(run, i);
    var s := run[i];
    if s.worker == Cond(Blocked) {
      if s.packets.queue != [] {
        who := TellerMoves(s, Packets);
      } else if s.raws.queue != [] {
        who := TellerMoves(s, Raws);
      } else if s.mutex.Some? {
        who := MutexOwnerMoves(s);
      } else {
        who := Destructor;
        assert DestructorStep(s).destructor != s.destructor;
      }
    } else {
      who := AwakeMoves(s);
    }
  }

  lemma AwakeMoves<T>(s: State<T>) returns (who: Who)
    requires Good(s) && !s.worker.Exited? && s.worker != Cond(Blocked)
    ensures CanMove(s, who)
  {
    if s.worker.Cond? && s.mutex.Some? {
      who := MutexOwnerMoves(s);
    } else if s.worker.Drain? && s.Get(s.worker.l).lock.Some? {
      who := LaneOwnerMoves(s, s.worker.l);
    } else {
      who := Worker;
      assert WorkerStep(s).worker != s.worker;
    }
  }
}
