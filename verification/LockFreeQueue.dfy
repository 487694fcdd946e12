/** LockFreeQueue as an interleaved step machine: any number of threads, one atomic access per
    step. Producers and consumers each spin on their own flag; the two indices are 64-bit and
    only ever grow. */
module LockFreeQueue {
  import opened ClockErrors

  const UINT64: nat := 0x1_0000_0000_0000_0000

  /** A slot of `_data`; it is blank before its first use and while it is being written. */
  datatype Slot<T> = Blank | Holds(value: T)

  datatype Removal = Pop | Front | Poll
  datatype Observer = IsEmpty | Size

  datatype Call<T> = Push(v: T) | Remove(op: Removal) | Observe(kind: Observer)

  /** Where a thread stands, with its local variables. The constructor names the next step. */
  datatype Pc<T> =
    | Idle
    | EnqSpin(v: T)
    | EnqReadR(v: T)
    | EnqReadW(v: T, r: nat)
    | EnqTest(v: T, r: nat, w: nat)
    | EnqBeginWrite(v: T, r: nat, w: nat)
    | EnqEndWrite(v: T, r: nat, w: nat)
    | EnqAdd(v: T, r: nat, w: nat)
    | EnqRelease(err: ClockError)
    | DeqSpin(op: Removal)
    | DeqReadW(op: Removal)
    | DeqReadR(op: Removal, w: nat)
    | DeqCopy(op: Removal, w: nat, r: nat)
    | DeqAdd(op: Removal, w: nat, r: nat, value: Slot<T>)
    | DeqRelease(op: Removal, err: ClockError, value: Slot<T>)
    | SeeR(kind: Observer)
    | SeeW(kind: Observer, r: nat)
    | SeeDone(kind: Observer, r: nat, w: nat)

  /** The ring's fields, and its history: the values pushed, in the order of their index
      increments, and the slot contents removed, in the order of theirs. */
  datatype Ring<T> = Ring(
    size: nat, readIndex: nat, writeIndex: nat, data: seq<Slot<T>>, pushed: seq<T>, taken: seq<Slot<T>>)
  {
    ghost predicate WellFormed() {
      size >= 1 && |data| == size
    }
    ghost predicate Full() {
      |pushed| == |taken| + size
    }
    ghost predicate Empty() {
      |pushed| == |taken|
    }
  }

  /** A flag is raised when it is Some; the thread that raised it is remembered for the proof. */
  datatype State<T> = State(q: Ring<T>, enqueuing: Option<nat>, dequeuing: Option<nat>, threads: map<nat, Pc<T>>)

  ghost predicate Init<T>(s: State<T>) {
    && s.q.WellFormed() && s.q.readIndex == 0 && s.q.writeIndex == 0 && s.q.pushed == [] && s.q.taken == []
    && s.enqueuing == None && s.dequeuing == None && forall t :: t in s.threads ==> s.threads[t] == Idle
  }

  /** `a - b` in unsigned 64-bit arithmetic. */
  function Minus(a: nat, b: nat): nat {
    if a >= b then (a - b) % UINT64 else (a + UINT64 - b % UINT64) % UINT64
  }

  function Begin<T>(c: Call<T>): Pc<T> {
    match c
    case Push(v) => EnqSpin(v)
    case Remove(op) => DeqSpin(op)
    case Observe(kind) => SeeR(kind)
  }

  /** The next step of thread t. */
  function Step<T>(s: State<T>, t: nat): State<T>
    requires s.q.WellFormed() && t in s.threads && !s.threads[t].Idle?
  {
    var q := s.q;
    match s.threads[t]
    case EnqSpin(v) => if s.enqueuing.Some? then s else At(s, t, EnqReadR(v)).(enqueuing := Some(t))
    case EnqReadR(v) => At(s, t, EnqReadW(v, q.readIndex))
    case EnqReadW(v, r) => At(s, t, EnqTest(v, r, q.writeIndex))
    case EnqTest(v, r, w) =>
      if Minus(w, r) < q.size || r > w then At(s, t, EnqBeginWrite(v, r, w))
      else At(s, t, EnqRelease(NoSpaceAvailable))
    case EnqBeginWrite(v, r, w) => At(s, t, EnqEndWrite(v, r, w)).(q := Written(q, w, Blank))
    case EnqEndWrite(v, r, w) => At(s, t, EnqAdd(v, r, w)).(q := Written(q, w, Holds(v)))
    case EnqAdd(v, r, w) =>
      At(s, t, EnqRelease(Success)).(q := q.(writeIndex := (q.writeIndex + 1) % UINT64, pushed := q.pushed + [v]))
    case EnqRelease(_) => At(s, t, Idle).(enqueuing := None)
    case DeqSpin(op) => if s.dequeuing.Some? then s else At(s, t, DeqReadW(op)).(dequeuing := Some(t))
    case DeqReadW(op) => At(s, t, DeqReadR(op, q.writeIndex))
    case DeqReadR(op, w) =>
      if w <= q.readIndex then At(s, t, DeqRelease(op, NoElement, Blank))
      else if op == Pop then At(s, t, DeqAdd(op, w, q.readIndex, Blank))
      else At(s, t, DeqCopy(op, w, q.readIndex))
    case DeqCopy(op, w, r) =>
      if op == Front then At(s, t, DeqRelease(op, Success, q.data[r % q.size]))
      else At(s, t, DeqAdd(op, w, r, q.data[r % q.size]))
    case DeqAdd(op, w, r, value) =>
      At(s, t, DeqRelease(op, Success, value)).(q := q.(
        readIndex := (q.readIndex + 1) % UINT64,
        taken := q.taken + [if op == Poll then value else q.data[q.readIndex % q.size]]))
    case DeqRelease(_, _, _) => At(s, t, Idle).(dequeuing := None)
    case SeeR(kind) => At(s, t, SeeW(kind, q.readIndex))
    case SeeW(kind, r) => At(s, t, SeeDone(kind, r, q.writeIndex))
    case SeeDone(_, _, _) => At(s, t, Idle)
  }

  function At<T>(s: State<T>, t: nat, pc: Pc<T>): State<T> {
    s.(threads := s.threads[t := pc])
  }

  function Written<T>(q: Ring<T>, w: nat, slot: Slot<T>): Ring<T>
    requires q.WellFormed()
  {
    q.(data := q.data[w % q.size := slot])
  }

  /** Thread t moves from s to s': it starts a call, or takes the next step of one. */
  ghost predicate Moves<T(!new)>(s: State<T>, t: nat, s': State<T>) {
    && s.q.WellFormed() && t in s.threads
    && if s.threads[t].Idle? then exists c: Call<T> :: s' == At(s, t, Begin(c)) else s' == Step(s, t)
  }

  ghost predicate Next<T(!new)>(s: State<T>, s': State<T>) {
    exists t :: Moves(s, t, s')
  }

  ghost predicate NextAt<T(!new)>(run: seq<State<T>>, i: nat) {
    i + 1 < |run| && Next(run[i], run[i + 1])
  }

  ghost predicate IsRun<T(!new)>(run: seq<State<T>>) {
    run != [] && Init(run[0]) && forall i :: 0 <= i < |run| - 1 ==> NextAt(run, i)
  }

  // ---------------------------------------------------------------- the invariant

  predicate InEnq<T>(pc: Pc<T>) {
    pc.EnqReadR? || pc.EnqReadW? || pc.EnqTest? || pc.EnqBeginWrite? || pc.EnqEndWrite? || pc.EnqAdd? || pc.EnqRelease?
  }

  predicate InDeq<T>(pc: Pc<T>) {
    pc.DeqReadW? || pc.DeqReadR? || pc.DeqCopy? || pc.DeqAdd? || pc.DeqRelease?
  }

  predicate InSee<T>(pc: Pc<T>) {
    pc.SeeR? || pc.SeeW? || pc.SeeDone?
  }

  /** A thread is in a section exactly when it raised that section's flag. */
  ghost predicate Exclusive<T>(s: State<T>) {
    && (forall t :: t in s.threads ==> (InEnq(s.threads[t]) <==> s.enqueuing == Some(t)))
    && (forall t :: t in s.threads ==> (InDeq(s.threads[t]) <==> s.dequeuing == Some(t)))
    && (s.enqueuing.Some? ==> s.enqueuing.value in s.threads)
    && (s.dequeuing.Some? ==> s.dequeuing.value in s.threads)
  }

  /** Both indices count the history, the live window fits the ring, every live slot holds its
      value, and everything removed was pushed at the same place. */
  ghost predicate Sound<T>(q: Ring<T>) {
    && q.WellFormed() && q.writeIndex == |q.pushed| && q.readIndex == |q.taken|
    && q.readIndex <= q.writeIndex <= q.readIndex + q.size
    && (forall i :: q.readIndex <= i < q.writeIndex ==> q.data[i % q.size] == Holds(q.pushed[i]))
    && (forall i :: 0 <= i < |q.taken| ==> q.taken[i] == Holds(q.pushed[i]))
  }

  /** What a thread's local copies are worth. */
  ghost predicate Local<T>(q: Ring<T>, pc: Pc<T>)
    requires Sound(q)
  {
    match pc
    case EnqReadW(_, r) => r <= q.readIndex
    case EnqTest(_, r, w) => r <= q.readIndex && w == q.writeIndex
    case EnqBeginWrite(_, r, w) => r <= q.readIndex && w == q.writeIndex < r + q.size
    case EnqEndWrite(_, r, w) => r <= q.readIndex && w == q.writeIndex < r + q.size
    case EnqAdd(v, r, w) => r <= q.readIndex && w == q.writeIndex < r + q.size && q.data[w % q.size] == Holds(v)
    case DeqReadR(_, w) => w <= q.writeIndex
    case DeqCopy(op, w, r) => op != Pop && r == q.readIndex < w <= q.writeIndex
    case DeqAdd(op, w, r, value) =>
      op != Front && r == q.readIndex < w <= q.writeIndex && (op == Poll ==> value == Holds(q.pushed[r]))
    case DeqRelease(op, err, value) =>
      err == Success ==>
        && (op == Front ==> q.readIndex < q.writeIndex && value == Holds(q.pushed[q.readIndex]))
        && (op == Poll ==> q.readIndex > 0 && value == q.taken[q.readIndex - 1])
    case SeeW(_, r) => r <= q.readIndex
    case SeeDone(_, r, w) => r <= w && r <= q.readIndex && w <= q.writeIndex
    case _ => true
  }

  ghost predicate Good<T>(s: State<T>) {
    Sound(s.q) && Exclusive(s) && forall t :: t in s.threads ==> Local(s.q, s.threads[t])
  }

  /** Fewer than 2^64 pushes so far. */
  ghost predicate Bounded<T>(s: State<T>) {
    |s.q.pushed| < UINT64
  }

  // ---------------------------------------------------------------- every step keeps it

  lemma LocalMove<T>(s: State<T>, t: nat, pc: Pc<T>)
    requires Good(s) && t in s.threads && Local(s.q, pc)
    requires InEnq(pc) == InEnq(s.threads[t]) && InDeq(pc) == InDeq(s.threads[t])
    ensures Good(At(s, t, pc))
  {
  }

  lemma EnqFlag<T>(s: State<T>, t: nat, pc: Pc<T>)
    requires Good(s) && t in s.threads && Local(s.q, pc) && !InDeq(s.threads[t]) && !InDeq(pc)
    requires s.enqueuing == if InEnq(pc) then None else Some(t)
    ensures Good(At(s, t, pc).(enqueuing := if InEnq(pc) then Some(t) else None))
  {
  }

  lemma DeqFlag<T>(s: State<T>, t: nat, pc: Pc<T>)
    requires Good(s) && t in s.threads && Local(s.q, pc) && !InEnq(s.threads[t]) && !InEnq(pc)
    requires s.dequeuing == if InDeq(pc) then None else Some(t)
    ensures Good(At(s, t, pc).(dequeuing := if InDeq(pc) then Some(t) else None))
  {
  }

  lemma ModDistinct(i: nat, w: nat, size: nat)
    requires 0 < size && i < w < i + size
    ensures i % size != w % size
  {
    var k := w / size - i / size;
    assert w - i == k * size + (w % size - i % size);
    assert k >= 1 ==> k * size >= size;
    assert k <= 0 ==> k * size <= 0;
  }

  /** The slot ahead of the write index is not a live one. */
  lemma WrittenSound<T>(q: Ring<T>, slot: Slot<T>)
    requires Sound(q) && q.writeIndex < q.readIndex + q.size
    ensures Sound(Written(q, q.writeIndex, slot))
    ensures Written(q, q.writeIndex, slot).data[q.writeIndex % q.size] == slot
  {
    forall i | q.readIndex <= i < q.writeIndex
      ensures i % q.size != q.writeIndex % q.size
    {
      ModDistinct(i, q.writeIndex, q.size);
    }
  }

  lemma WriteMove<T>(s: State<T>, t: nat)
    requires Good(s) && t in s.threads && (s.threads[t].EnqBeginWrite? || s.threads[t].EnqEndWrite?)
    ensures Good(Step(s, t))
  {
    var pc, s' := s.threads[t], Step(s, t);
    assert Local(s.q, pc);
    WrittenSound(s.q, if pc.EnqBeginWrite? then Blank else Holds(pc.v));
    OthersKeepEnq(s, t, s');
  }

  /** A step of a producer leaves the local facts of all threads outside its section intact. */
  lemma OthersKeepEnq<T>(s: State<T>, t: nat, s': State<T>)
    requires Good(s) && t in s.threads && InEnq(s.threads[t]) && Sound(s'.q)
    requires t in s'.threads && s'.threads == s.threads[t := s'.threads[t]]
    requires s'.q.readIndex == s.q.readIndex && s'.q.taken == s.q.taken && s'.q.size == s.q.size
    requires s.q.pushed <= s'.q.pushed
    ensures forall u :: u in s.threads && u != t ==> Local(s'.q, s'.threads[u])
  {
    forall u | u in s.threads && u != t
      ensures Local(s'.q, s'.threads[u])
    {
      assert s'.threads[u] == s.threads[u] && !InEnq(s.threads[u]) && Local(s.q, s.threads[u]);
    }
  }

  lemma OthersKeepDeq<T>(s: State<T>, t: nat, s': State<T>)
    requires Good(s) && t in s.threads && InDeq(s.threads[t]) && Sound(s'.q)
    requires t in s'.threads && s'.threads == s.threads[t := s'.threads[t]]
    requires s'.q.data == s.q.data && s'.q.pushed == s.q.pushed && s'.q.size == s.q.size
    requires s.q.readIndex <= s'.q.readIndex
    ensures forall u :: u in s.threads && u != t ==> Local(s'.q, s'.threads[u])
  {
    forall u | u in s.threads && u != t
      ensures Local(s'.q, s'.threads[u])
    {
      assert s'.threads[u] == s.threads[u] && !InDeq(s.threads[u]) && Local(s.q, s.threads[u]);
    }
  }

  lemma PushMove<T>(s: State<T>, t: nat)
    requires Good(s) && t in s.threads && s.threads[t].EnqAdd? && |s.q.pushed| + 1 < UINT64
    ensures Good(Step(s, t))
  {
    var s' := Step(s, t);
    assert Local(s.q, s.threads[t]);
    assert s'.q.writeIndex == s.q.writeIndex + 1;
    OthersKeepEnq(s, t, s');
  }

  lemma TakeMove<T>(s: State<T>, t: nat)
    requires Good(s) && Bounded(s) && t in s.threads && s.threads[t].DeqAdd?
    ensures Good(Step(s, t))
  {
    var s' := Step(s, t);
    assert Local(s.q, s.threads[t]);
    assert s'.q.readIndex == s.q.readIndex + 1;
    OthersKeepDeq(s, t, s');
  }

  /** The unsigned test for room is the exact one: the stale index never exceeds the fresh one. */
  lemma RoomTest(w: nat, r: nat, size: nat)
    requires r <= w < UINT64
    ensures (Minus(w, r) < size || r > w) <==> w < r + size
  {
  }

  lemma TestMove<T>(s: State<T>, t: nat)
    requires Good(s) && Bounded(s) && t in s.threads && s.threads[t].EnqTest?
    ensures Good(Step(s, t))
  {
    var pc := s.threads[t];
    assert Local(s.q, pc);
    RoomTest(pc.w, pc.r, s.q.size);
    LocalMove(s, t, if pc.w < pc.r + s.q.size then EnqBeginWrite(pc.v, pc.r, pc.w) else EnqRelease(NoSpaceAvailable));
  }

  lemma EnqStep<T>(s: State<T>, t: nat)
    requires Good(s) && t in s.threads && (InEnq(s.threads[t]) || s.threads[t].EnqSpin?) && Bounded(Step(s, t))
    ensures Good(Step(s, t))
  {
    var pc := s.threads[t];
    assert Local(s.q, pc);
    match pc
    case EnqSpin(v) => if s.enqueuing == None { EnqFlag(s, t, EnqReadR(v)); }
    case EnqReadR(v) => LocalMove(s, t, EnqReadW(v, s.q.readIndex));
    case EnqReadW(v, r) => LocalMove(s, t, EnqTest(v, r, s.q.writeIndex));
    case EnqTest(v, r, w) => TestMove(s, t);
    case EnqBeginWrite(v, r, w) => WriteMove(s, t);
    case EnqEndWrite(v, r, w) => WriteMove(s, t);
    case EnqAdd(v, r, w) => PushMove(s, t);
    case EnqRelease(_) => EnqFlag(s, t, Idle);
  }

  lemma DeqStep<T>(s: State<T>, t: nat)
    requires Good(s) && t in s.threads && (InDeq(s.threads[t]) || s.threads[t].DeqSpin?) && Bounded(s)
    ensures Good(Step(s, t))
  {
    var pc, q := s.threads[t], s.q;
    assert Local(s.q, pc);
    match pc
    case DeqSpin(op) => if s.dequeuing == None { DeqFlag(s, t, DeqReadW(op)); }
    case DeqReadW(op) => LocalMove(s, t, DeqReadR(op, q.writeIndex));
    case DeqReadR(op, w) =>
      LocalMove(s, t, if w <= q.readIndex then DeqRelease(op, NoElement, Blank)
                      else if op == Pop then DeqAdd(op, w, q.readIndex, Blank)
                      else DeqCopy(op, w, q.readIndex));
    case DeqCopy(op, w, r) =>
      LocalMove(s, t, if op == Front then DeqRelease(op, Success, q.data[r % q.size])
                      else DeqAdd(op, w, r, q.data[r % q.size]));
    case DeqAdd(op, w, r, value) => TakeMove(s, t);
    case DeqRelease(_, _, _) => DeqFlag(s, t, Idle);
  }

  lemma MoveKeepsGood<T(!new)>(s: State<T>, t: nat, s': State<T>)
    requires Good(s) && Moves(s, t, s') && Bounded(s')
    ensures Good(s')
  {
    var pc := s.threads[t];
    if pc.Idle? {
      var c: Call<T> :| s' == At(s, t, Begin(c));
      LocalMove(s, t, Begin(c));
    } else if InEnq(pc) || pc.EnqSpin? {
      EnqStep(s, t);
    } else if InDeq(pc) || pc.DeqSpin? {
      DeqStep(s, t);
    } else {
      SeeStep(s, t);
    }
  }

  lemma SeeStep<T>(s: State<T>, t: nat)
    requires Good(s) && t in s.threads && InSee(s.threads[t])
    ensures Good(Step(s, t))
  {
    var pc := s.threads[t];
    assert Local(s.q, pc);
    match pc
    case SeeR(kind) => LocalMove(s, t, SeeW(kind, s.q.readIndex));
    case SeeW(kind, r) => LocalMove(s, t, SeeDone(kind, r, s.q.writeIndex));
    case SeeDone(_, _, _) => LocalMove(s, t, Idle);
  }

  // ---------------------------------------------------------------- whole runs

  lemma MoveGrows<T(!new)>(s: State<T>, t: nat, s': State<T>)
    requires Moves(s, t, s')
    ensures |s.q.pushed| <= |s'.q.pushed|
    ensures s'.threads.Keys == s.threads.Keys
    ensures forall u :: u in s.threads && u != t ==> s'.threads[u] == s.threads[u]
  {
  }

  /** In every run of any number of threads, as long as there were fewer than 2^64 pushes. */
  lemma {:induction false} RunIsGood<T(!new)>(run: seq<State<T>>, i: nat)
    requires IsRun(run) && i < |run| && Bounded(run[i])
    ensures Good(run[i])
  {
    if i > 0 {
      assert NextAt(run, i - 1);
      var t :| Moves(run[i - 1], t, run[i]);
      MoveGrows(run[i - 1], t, run[i]);
      RunIsGood(run, i - 1);
      MoveKeepsGood(run[i - 1], t, run[i]);
    }
  }

  /** The queue is first-in first-out: what was removed, in order, is what was pushed first, in
      order; what is left never exceeds the size and sits in its slots. */
  lemma FirstInFirstOut<T(!new)>(run: seq<State<T>>, i: nat)
    requires IsRun(run) && i < |run| && Bounded(run[i])
    ensures var q := run[i].q;
      && q.readIndex == |q.taken| && q.writeIndex == |q.pushed| && q.readIndex <= q.writeIndex <= q.readIndex + q.size
      && (forall k :: 0 <= k < |q.taken| ==> q.taken[k] == Holds(q.pushed[k]))
      && |q.data| == q.size > 0
      && (forall k :: |q.taken| <= k < |q.pushed| ==> q.data[k % q.size] == Holds(q.pushed[k]))
  {
    RunIsGood(run, i);
  }

  /** A consumer about to return the front, or a polled value, returns the right one. */
  lemma ReturnedValue<T(!new)>(run: seq<State<T>>, i: nat, t: nat)
    requires IsRun(run) && i < |run| && Bounded(run[i]) && t in run[i].threads
    requires run[i].threads[t].DeqRelease? && run[i].threads[t].err == Success
    ensures var q, pc := run[i].q, run[i].threads[t];
      && (pc.op == Front ==> |q.taken| < |q.pushed| && pc.value == Holds(q.pushed[|q.taken|]))
      && (pc.op == Poll ==> 0 < |q.taken| <= |q.pushed| && pc.value == Holds(q.pushed[|q.taken| - 1]))
  {
    RunIsGood(run, i);
    assert Local(run[i].q, run[i].threads[t]);
  }

  /** Each side has at most one thread in its section, and a producer about to write a slot and
      a consumer about to copy one never mean the same slot, stale indices notwithstanding. */
  lemma SectionsDisjoint<T(!new)>(run: seq<State<T>>, i: nat, t: nat, u: nat)
    requires IsRun(run) && i < |run| && Bounded(run[i]) && t in run[i].threads && u in run[i].threads
    ensures var a, b := run[i].threads[t], run[i].threads[u];
      && (InEnq(a) && InEnq(b) ==> t == u) && (InDeq(a) && InDeq(b) ==> t == u)
      && ((a.EnqBeginWrite? || a.EnqEndWrite?) && b.DeqCopy? ==>
            run[i].q.size > 0 && a.w % run[i].q.size != b.r % run[i].q.size)
  {
    RunIsGood(run, i);
    var q, a, b := run[i].q, run[i].threads[t], run[i].threads[u];
    assert Local(q, a) && Local(q, b);
    if (a.EnqBeginWrite? || a.EnqEndWrite?) && b.DeqCopy? {
      ModDistinct(b.r, a.w, q.size);
    }
  }

  /** A thread spins in vain while another one has raised the flag. */
  predicate Spins<T>(s: State<T>, pc: Pc<T>) {
    (pc.EnqSpin? && s.enqueuing.Some?) || (pc.DeqSpin? && s.dequeuing.Some?)
  }

  lemma FreeThreadMoves<T>(s: State<T>, u: nat)
    requires s.q.WellFormed() && u in s.threads && !s.threads[u].Idle? && !Spins(s, s.threads[u])
    ensures Step(s, u).threads != s.threads
  {
    assert Step(s, u).threads[u] != s.threads[u];
  }

  /** Nobody spins on an abandoned flag: while some call is under way, some call under way can
      take a step that changes the state. */
  lemma NoDeadlock<T(!new)>(run: seq<State<T>>, i: nat, t: nat) returns (u: nat, next: State<T>)
    requires IsRun(run) && i < |run| && Bounded(run[i]) && t in run[i].threads && !run[i].threads[t].Idle?
    ensures u in run[i].threads && !run[i].threads[u].Idle?
    ensures Moves(run[i], u, next) && next != run[i]
  {
    RunIsGood(run, i);
    var s := run[i];
    u := if !Spins(s, s.threads[t]) then t else if s.threads[t].EnqSpin? then s.enqueuing.value else s.dequeuing.value;
    FreeThreadMoves(s, u);
    next := Step(s, u);
  }

  // ---------------------------------------------------------------- refusals and observers

  /** The one step that leads a thread to each place where it keeps a copy or a refusal. */
  lemma CameFrom<T(!new)>(s: State<T>, t: nat, s': State<T>)
    requires Moves(s, t, s')
    ensures var a, b := s.threads[t], s'.threads[t];
      && (b.EnqReadW? ==> a.EnqReadR? && b.r == s.q.readIndex && s'.q == s.q)
      && (b.EnqTest? ==> a.EnqReadW? && b.r == a.r && b.w == s.q.writeIndex && s'.q == s.q)
      && (b == EnqRelease(NoSpaceAvailable) ==> a.EnqTest? && Minus(a.w, a.r) >= s.q.size && a.r <= a.w)
      && (b.DeqReadR? ==> a.DeqReadW? && b.w == s.q.writeIndex && s'.q == s.q)
      && (b.DeqRelease? && b.err == NoElement ==> a.DeqReadR? && a.w <= s.q.readIndex)
      && (b.SeeW? ==> a.SeeR? && a.kind == b.kind && b.r == s.q.readIndex && s'.q == s.q)
      && (b.SeeDone? ==> a.SeeW? && a.kind == b.kind && b.r == a.r && b.w == s.q.writeIndex && s'.q == s.q)
  {
  }

  /** Only a thread inside a section moves that section's index. */
  lemma IndexMoves<T(!new)>(s: State<T>, t: nat, s': State<T>)
    requires Moves(s, t, s') && Good(s) && Bounded(s')
    ensures s.q.readIndex <= s'.q.readIndex && s.q.writeIndex <= s'.q.writeIndex
    ensures !InEnq(s.threads[t]) ==> s'.q.writeIndex == s.q.writeIndex
    ensures !InDeq(s.threads[t]) ==> s'.q.readIndex == s.q.readIndex
  {
    MoveKeepsGood(s, t, s');
  }

  /** The mover of step i - 1, and what is known around that step. */
  lemma LastMove<T(!new)>(run: seq<State<T>>, i: nat) returns (u: nat)
    requires IsRun(run) && 0 < i < |run| && Bounded(run[i])
    ensures Moves(run[i - 1], u, run[i]) && Bounded(run[i - 1]) && Good(run[i - 1]) && Good(run[i])
    ensures run[i].threads.Keys == run[i - 1].threads.Keys
    ensures forall t :: t in run[i].threads && t != u ==> run[i].threads[t] == run[i - 1].threads[t]
  {
    assert NextAt(run, i - 1);
    u :| Moves(run[i - 1], u, run[i]);
    MoveGrows(run[i - 1], u, run[i]);
    RunIsGood(run, i - 1);
    RunIsGood(run, i);
  }

  /** Thread t was in the given part of one call from moment j to moment i. */
  ghost predicate Throughout<T>(run: seq<State<T>>, j: nat, i: nat, t: nat, part: Pc<T> -> bool) {
    j <= i < |run| && forall k :: j <= k <= i ==> t in run[k].threads && part(run[k].threads[t])
  }

  /** The moment at which a producer copied the read index: the write index is still the same. */
  lemma {:induction false} EnqMoment<T(!new)>(run: seq<State<T>>, i: nat, t: nat) returns (j: nat)
    requires IsRun(run) && i < |run| && Bounded(run[i]) && t in run[i].threads
    requires run[i].threads[t].EnqReadW? || run[i].threads[t].EnqTest?
    ensures j <= i && Throughout(run, j, i, t, InEnq) && Bounded(run[j])
    ensures run[j].q.readIndex == run[i].threads[t].r && run[j].q.writeIndex == run[i].q.writeIndex
  {
    var u := LastMove(run, i);
    IndexMoves(run[i - 1], u, run[i]);
    if u == t {
      CameFrom(run[i - 1], t, run[i]);
      if run[i - 1].threads[t].EnqReadR? {
        return i - 1;
      }
    }
    j := EnqMoment(run, i - 1, t);
  }

  /** A push is refused only if the queue was full at some moment of that push. */
  lemma {:induction false} RefusedPush<T(!new)>(run: seq<State<T>>, i: nat, t: nat) returns (j: nat)
    requires IsRun(run) && i < |run| && Bounded(run[i]) && t in run[i].threads
    requires run[i].threads[t] == EnqRelease(NoSpaceAvailable)
    ensures Throughout(run, j, i, t, InEnq) && run[j].q.Full()
  {
    var u := LastMove(run, i);
    if u == t {
      CameFrom(run[i - 1], t, run[i]);
      assert Local(run[i - 1].q, run[i - 1].threads[t]);
      j := EnqMoment(run, i - 1, t);
      RunIsGood(run, j);
      RoomTest(run[i - 1].threads[t].w, run[i - 1].threads[t].r, run[i - 1].q.size);
      SizeIsFixed(run, j, i - 1);
    } else {
      j := RefusedPush(run, i - 1, t);
    }
  }

  lemma {:induction false} SizeIsFixed<T(!new)>(run: seq<State<T>>, j: nat, i: nat)
    requires IsRun(run) && j <= i < |run|
    ensures run[j].q.size == run[i].q.size
  {
    if j < i {
      SizeIsFixed(run, j, i - 1);
      assert NextAt(run, i - 1);
      var t :| Moves(run[i - 1], t, run[i]);
    }
  }

  lemma {:induction false} DeqMoment<T(!new)>(run: seq<State<T>>, i: nat, t: nat) returns (j: nat)
    requires IsRun(run) && i < |run| && Bounded(run[i]) && t in run[i].threads && run[i].threads[t].DeqReadR?
    ensures j <= i && Throughout(run, j, i, t, InDeq) && Bounded(run[j])
    ensures run[j].q.writeIndex == run[i].threads[t].w && run[j].q.readIndex == run[i].q.readIndex
  {
    var u := LastMove(run, i);
    IndexMoves(run[i - 1], u, run[i]);
    if u == t {
      CameFrom(run[i - 1], t, run[i]);
      return i - 1;
    }
    j := DeqMoment(run, i - 1, t);
  }

  /** A removal or a front finds no element only if the queue was empty at some moment of it. */
  lemma {:induction false} RefusedRemoval<T(!new)>(run: seq<State<T>>, i: nat, t: nat) returns (j: nat)
    requires IsRun(run) && i < |run| && Bounded(run[i]) && t in run[i].threads
    requires run[i].threads[t].DeqRelease? && run[i].threads[t].err == NoElement
    ensures Throughout(run, j, i, t, InDeq) && run[j].q.Empty()
  {
    var u := LastMove(run, i);
    if u == t {
      CameFrom(run[i - 1], t, run[i]);
      j := DeqMoment(run, i - 1, t);
      RunIsGood(run, j);
    } else {
      j := RefusedRemoval(run, i - 1, t);
    }
  }

  /** The moment of an observer's first read. */
  lemma {:induction false} SeeMoment<T(!new)>(run: seq<State<T>>, i: nat, t: nat) returns (j: nat)
    requires IsRun(run) && i < |run| && Bounded(run[i]) && t in run[i].threads
    requires run[i].threads[t].SeeW? || run[i].threads[t].SeeDone?
    ensures j <= i && Throughout(run, j, i, t, InSee) && Bounded(run[j]) && run[j].threads[t].SeeR?
    ensures run[j].q.readIndex == run[i].threads[t].r && run[j].q.writeIndex <= run[i].q.writeIndex
    ensures run[i].threads[t].SeeDone? ==> run[j].q.writeIndex <= run[i].threads[t].w
  {
    var u := LastMove(run, i);
    IndexMoves(run[i - 1], u, run[i]);
    if u == t {
      CameFrom(run[i - 1], t, run[i]);
      if run[i - 1].threads[t].SeeR? {
        return i - 1;
      }
    }
    j := SeeMoment(run, i - 1, t);
  }

  /** empty() returns true only if the queue was empty when it made its first read, and size()
      never underflows: it counts at least what was queued at that moment. */
  lemma Observed<T(!new)>(run: seq<State<T>>, i: nat, t: nat) returns (j: nat)
    requires IsRun(run) && i < |run| && Bounded(run[i]) && t in run[i].threads && run[i].threads[t].SeeDone?
    ensures Throughout(run, j, i, t, InSee) && run[j].threads[t].SeeR?
    ensures var r, w := run[i].threads[t].r, run[i].threads[t].w;
      && (r == w ==> run[j].q.Empty())
      && r <= w && Minus(w, r) == w - r >= |run[j].q.pushed| - |run[j].q.taken|
  {
    RunIsGood(run, i);
    assert Local(run[i].q, run[i].threads[t]);
    j := SeeMoment(run, i, t);
    RunIsGood(run, j);
  }
}
