/** DoubleBufferQueue as an interleaved step machine: two queues behind two pointers, a read
    lock and a write lock, any number of threads that push, pop, poll, look at the front and
    clear. */
module DoubleBufferQueue {
  import opened ClockErrors

  /** A queued value, numbered by its push. */
  datatype Item<T> = Item(value: T, no: nat)

  datatype Removal = Pop | Front | Poll
  datatype Call<T> = Push(v: T) | Remove(op: Removal) | Clear

  /** Where a thread stands; the constructor names the next step. */
  datatype Pc<T> =
    | Idle
    | PushLock(v: T)
    | PushBody(v: T)
    | PushUnlock
    | ReadLock(op: Removal)
    | FirstCheck(op: Removal)
    | SwapLock(op: Removal)
    | SwapWritePointer(op: Removal)
    | SwapReadPointer(op: Removal)
    | SwapUnlock(op: Removal)
    | SecondCheck(op: Removal)
    | ReadFront(op: Removal)
    | PopFront(op: Removal, value: Option<T>)
    | ReadUnlock(op: Removal, err: ClockError, value: Option<T>)
    | ClearReadLock
    | ClearRead
    | ClearReadUnlock
    | ClearWriteLock
    | ClearWrite
    | ClearWriteUnlock

  /** The two queues, the two pointers (true points to queue A), and the history: what was
      pushed, what pop and poll removed, and what clear dropped. */
  datatype Buffers<T> = Buffers(
    a: seq<Item<T>>, b: seq<Item<T>>, readsA: bool, writesA: bool,
    pushed: seq<T>, removed: seq<Item<T>>, cleared: seq<Item<T>>)
  {
    function Reading(): seq<Item<T>> {
      if readsA then a else b
    }
    function Other(): seq<Item<T>> {
      if readsA then b else a
    }
    function Writing(): seq<Item<T>> {
      if writesA then a else b
    }
    /** The abstract queue: the read queue, then the other one. */
    function Queue(): seq<Item<T>> {
      Reading() + Other()
    }
    function SetReading(s: seq<Item<T>>): Buffers<T> {
      if readsA then this.(a := s) else this.(b := s)
    }
    function SetWriting(s: seq<Item<T>>): Buffers<T> {
      if writesA then this.(a := s) else this.(b := s)
    }
  }

  /** A lock is held by the thread it names. */
  datatype State<T> = State(q: Buffers<T>, readLock: Option<nat>, writeLock: Option<nat>, threads: map<nat, Pc<T>>)

  ghost predicate Init<T>(s: State<T>) {
    && s.q == Buffers([], [], true, false, [], [], []) && s.readLock == None && s.writeLock == None
    && forall t :: t in s.threads ==> s.threads[t] == Idle
  }

  function Begin<T>(c: Call<T>): Pc<T> {
    match c
    case Push(v) => PushLock(v)
    case Remove(op) => ReadLock(op)
    case Clear => ClearReadLock
  }

  function At<T>(s: State<T>, t: nat, pc: Pc<T>): State<T> {
    s.(threads := s.threads[t := pc])
  }

  // ---------------------------------------------------------------- changes of the buffers

  function Pushed<T>(q: Buffers<T>, v: T): Buffers<T> {
    q.SetWriting(q.Writing() + [Item(v, |q.pushed|)]).(pushed := q.pushed + [v])
  }

  function Removed<T>(q: Buffers<T>): Buffers<T>
    requires q.Reading() != []
  {
    q.SetReading(q.Reading()[1..]).(removed := q.removed + [q.Reading()[0]])
  }

  function ClearedRead<T>(q: Buffers<T>): Buffers<T>
    requires q.Reading() != []
  {
    q.SetReading(q.Reading()[1..]).(cleared := q.cleared + [q.Reading()[0]])
  }

  function ClearedWrite<T>(q: Buffers<T>): Buffers<T>
    requires q.Writing() != []
  {
    q.SetWriting(q.Writing()[1..]).(cleared := q.cleared + [q.Writing()[0]])
  }

  predicate Waits<T>(s: State<T>, pc: Pc<T>) {
    || ((pc.ReadLock? || pc.ClearReadLock?) && s.readLock.Some?)
    || ((pc.PushLock? || pc.SwapLock? || pc.ClearWriteLock?) && s.writeLock.Some?)
  }

  /** The next step of thread t; a thread that waits for a lock stays where it is. */
  function Step<T>(s: State<T>, t: nat): State<T>
    requires t in s.threads && !s.threads[t].Idle?
    requires (s.threads[t].ReadFront? || s.threads[t].PopFront?) ==> s.q.Reading() != []
  {
    var q := s.q;
    if Waits(s, s.threads[t]) then s
    else
      match s.threads[t]
      case PushLock(v) => At(s, t, PushBody(v)).(writeLock := Some(t))
      case PushBody(v) => At(s, t, PushUnlock).(q := Pushed(q, v))
      case PushUnlock => At(s, t, Idle).(writeLock := None)
      case ReadLock(op) => At(s, t, FirstCheck(op)).(readLock := Some(t))
      case FirstCheck(op) => At(s, t, if q.Reading() == [] then SwapLock(op) else SecondCheck(op))
      case SwapLock(op) => At(s, t, SwapWritePointer(op)).(writeLock := Some(t))
      case SwapWritePointer(op) => At(s, t, SwapReadPointer(op)).(q := q.(writesA := q.readsA))
      case SwapReadPointer(op) => At(s, t, SwapUnlock(op)).(q := q.(readsA := !q.readsA))
      case SwapUnlock(op) => At(s, t, SecondCheck(op)).(writeLock := None)
      case SecondCheck(op) =>
        At(s, t, if q.Reading() == [] then ReadUnlock(op, NoElement, None)
                 else if op == Pop then PopFront(op, None) else ReadFront(op))
      case ReadFront(op) =>
        var v := Some(q.Reading()[0].value);
        At(s, t, if op == Front then ReadUnlock(op, Success, v) else PopFront(op, v))
      case PopFront(op, value) => At(s, t, ReadUnlock(op, Success, value)).(q := Removed(q))
      case ReadUnlock(_, _, _) => At(s, t, Idle).(readLock := None)
      case ClearReadLock => At(s, t, ClearRead).(readLock := Some(t))
      case ClearRead => if q.Reading() == [] then At(s, t, ClearReadUnlock) else s.(q := ClearedRead(q))
      case ClearReadUnlock => At(s, t, ClearWriteLock).(readLock := None)
      case ClearWriteLock => At(s, t, ClearWrite).(writeLock := Some(t))
      case ClearWrite => if q.Writing() == [] then At(s, t, ClearWriteUnlock) else s.(q := ClearedWrite(q))
      case ClearWriteUnlock => At(s, t, Idle).(writeLock := None)
  }

  ghost predicate Moves<T(!new)>(s: State<T>, t: nat, s': State<T>) {
    && t in s.threads
    && if s.threads[t].Idle? then exists c: Call<T> :: s' == At(s, t, Begin(c))
       else && (s.threads[t].ReadFront? || s.threads[t].PopFront? ==> s.q.Reading() != [])
            && s' == Step(s, t)
  }

  ghost predicate Next<T(!new)>(s: State<T>, s': State<T>) {
    exists t :: Moves(s, t, s')
  }

  ghost predicate NextAt<T(!new)>(run: seq<State<T>>, i: nat) {
    i + 1 < |run| && Next(run[i], run[i + 1])
  }

  ghost predicate IsRun<T(!new)>(run: seq<State<T>>) {
    run != [] && Init(run[0]) && forall i :: 0 <= i < |run| - 1 ==> NextAt(run, i)
  }

  // ---------------------------------------------------------------- the invariant

  predicate InRead<T>(pc: Pc<T>) {
    || pc.FirstCheck? || pc.SwapLock? || pc.SwapWritePointer? || pc.SwapReadPointer? || pc.SwapUnlock?
    || pc.SecondCheck? || pc.ReadFront? || pc.PopFront? || pc.ReadUnlock? || pc.ClearRead? || pc.ClearReadUnlock?
  }

  predicate InWrite<T>(pc: Pc<T>) {
    || pc.PushBody? || pc.PushUnlock? || pc.SwapWritePointer? || pc.SwapReadPointer? || pc.SwapUnlock?
    || pc.ClearWrite? || pc.ClearWriteUnlock?
  }

  ghost predicate Exclusive<T>(s: State<T>) {
    && (forall t :: t in s.threads ==> (InRead(s.threads[t]) <==> s.readLock == Some(t)))
    && (forall t :: t in s.threads ==> (InWrite(s.threads[t]) <==> s.writeLock == Some(t)))
    && (s.readLock.Some? ==> s.readLock.value in s.threads)
    && (s.writeLock.Some? ==> s.writeLock.value in s.threads)
  }

  /** How often push number n occurs. */
  ghost function Times<T>(items: seq<Item<T>>, n: nat): nat {
    if items == [] then 0 else Times(items[1..], n) + (if items[0].no == n then 1 else 0)
  }

  ghost predicate Increasing<T>(items: seq<Item<T>>) {
    forall i, j :: 0 <= i < j < |items| ==> items[i].no < items[j].no
  }

  ghost predicate Genuine<T>(items: seq<Item<T>>, pushed: seq<T>) {
    forall i :: 0 <= i < |items| ==> items[i].no < |pushed| && items[i].value == pushed[items[i].no]
  }

  /** All removed and queued items, in order. */
  ghost function Line<T>(q: Buffers<T>): seq<Item<T>> {
    q.removed + q.Queue()
  }

  ghost predicate OncePerPush<T>(pushed: seq<T>, line: seq<Item<T>>, cleared: seq<Item<T>>) {
    forall n: nat :: Times(line, n) + Times(cleared, n) == if n < |pushed| then 1 else 0
  }

  /** Removed and queued items together are in push order and genuine; every push is in exactly
      one place; and without clear nothing is skipped. */
  ghost predicate InOrder<T>(pushed: seq<T>, line: seq<Item<T>>, cleared: seq<Item<T>>) {
    && Increasing(line) && Genuine(line, pushed) && Genuine(cleared, pushed)
    && OncePerPush(pushed, line, cleared)
    && (cleared == [] ==> |line| == |pushed|)
  }

  ghost predicate Sound<T>(q: Buffers<T>) {
    InOrder(q.pushed, Line(q), q.cleared)
  }

  ghost predicate Local<T>(q: Buffers<T>, pc: Pc<T>) {
    match pc
    case SwapLock(_) => q.Reading() == []
    case SwapWritePointer(_) => q.Reading() == []
    case SwapReadPointer(_) => q.Reading() == []
    case ReadFront(op) => q.Reading() != [] && op != Pop
    case PopFront(op, value) => q.Reading() != [] && op != Front && (op == Poll ==> value == Some(q.Reading()[0].value))
    case ReadUnlock(op, err, value) =>
      err == Success ==>
        && (op == Front ==> q.Reading() != [] && value == Some(q.Reading()[0].value))
        && (op == Poll ==> q.removed != [] && value == Some(q.removed[|q.removed| - 1].value))
    case _ => true
  }

  /** The pointers differ, except between the two assignments of a swap. */
  ghost predicate PointersDiffer<T>(s: State<T>) {
    s.q.readsA != s.q.writesA <==>
      !(s.writeLock.Some? && s.writeLock.value in s.threads && s.threads[s.writeLock.value].SwapReadPointer?)
  }

  ghost predicate Good<T>(s: State<T>) {
    && Sound(s.q) && Exclusive(s) && PointersDiffer(s)
    && forall t :: t in s.threads ==> Local(s.q, s.threads[t])
  }

  // ---------------------------------------------------------------- the buffers stay sound

  lemma {:induction false} TimesConcat<T>(a: seq<Item<T>>, b: seq<Item<T>>, n: nat)
    ensures Times(a + b, n) == Times(a, n) + Times(b, n)
  {
    if a == [] {
      assert a + b == b;
    } else {
      assert (a + b)[1..] == a[1..] + b;
      TimesConcat(a[1..], b, n);
    }
  }

  lemma TimesOne<T>(x: Item<T>, n: nat)
    ensures Times([x], n) == if x.no == n then 1 else 0
  {
  }

  lemma AppendInOrder<T>(pushed: seq<T>, line: seq<Item<T>>, cleared: seq<Item<T>>, v: T)
    requires InOrder(pushed, line, cleared)
    ensures InOrder(pushed + [v], line + [Item(v, |pushed|)], cleared)
  {
    var x := Item(v, |pushed|);
    forall n: nat
      ensures Times(line + [x], n) + Times(cleared, n) == if n < |pushed + [v]| then 1 else 0
    {
      TimesConcat(line, [x], n);
      TimesOne(x, n);
      assert Times(line, n) + Times(cleared, n) == if n < |pushed| then 1 else 0;
    }
  }

  lemma DropOnce<T>(pushed: seq<T>, line: seq<Item<T>>, cleared: seq<Item<T>>, k: nat)
    requires OncePerPush(pushed, line, cleared) && k < |line|
    ensures OncePerPush(pushed, line[..k] + line[k + 1..], cleared + [line[k]])
  {
    var x := line[k];
    forall n: nat
      ensures Times(line[..k] + line[k + 1..], n) + Times(cleared + [x], n) == if n < |pushed| then 1 else 0
    {
      assert line == line[..k] + ([x] + line[k + 1..]);
      TimesConcat(line[..k], [x] + line[k + 1..], n);
      TimesConcat([x], line[k + 1..], n);
      TimesConcat(line[..k], line[k + 1..], n);
      TimesConcat(cleared, [x], n);
      assert Times(line, n) + Times(cleared, n) == if n < |pushed| then 1 else 0;
    }
  }

  lemma DropInOrder<T>(pushed: seq<T>, line: seq<Item<T>>, cleared: seq<Item<T>>, k: nat)
    requires InOrder(pushed, line, cleared) && k < |line|
    ensures InOrder(pushed, line[..k] + line[k + 1..], cleared + [line[k]])
  {
    DropOnce(pushed, line, cleared, k);
  }

  lemma PushSound<T>(q: Buffers<T>, v: T)
    requires Sound(q) && q.readsA != q.writesA
    ensures Sound(Pushed(q, v)) && Pushed(q, v).Queue() == q.Queue() + [Item(v, |q.pushed|)]
  {
    AppendInOrder(q.pushed, Line(q), q.cleared, v);
    assert Line(Pushed(q, v)) == Line(q) + [Item(v, |q.pushed|)];
  }

  lemma DropHead<A>(p: seq<A>, r: seq<A>, o: seq<A>)
    requires r != []
    ensures p + [r[0]] + (r[1..] + o) == p + (r + o)
    ensures var line := p + (r + o); p + (r[1..] + o) == line[..|p|] + line[|p| + 1..] && line[|p|] == r[0]
  {
    var line := p + (r + o);
    assert line[..|p|] == p && line[|p| + 1..] == r[1..] + o;
  }

  lemma RemoveSound<T>(q: Buffers<T>)
    requires Sound(q) && q.Reading() != []
    ensures Sound(Removed(q)) && Removed(q).Queue() == q.Queue()[1..]
  {
    DropHead(q.removed, q.Reading(), q.Other());
    assert Line(Removed(q)) == Line(q);
  }

  lemma ClearReadSound<T>(q: Buffers<T>)
    requires Sound(q) && q.Reading() != []
    ensures Sound(ClearedRead(q))
  {
    DropHead(q.removed, q.Reading(), q.Other());
    DropInOrder(q.pushed, Line(q), q.cleared, |q.removed|);
  }

  lemma DropSecond<A>(p: seq<A>, a: seq<A>, r: seq<A>)
    requires r != []
    ensures var line, k := p + (a + r), |p| + |a|;
      p + (a + r[1..]) == line[..k] + line[k + 1..] && line[k] == r[0]
  {
    var line, k := p + (a + r), |p| + |a|;
    assert line[..k] == p + a && line[k + 1..] == r[1..];
  }

  lemma ClearedWriteParts<T>(q: Buffers<T>)
    requires q.readsA != q.writesA && q.Writing() != []
    ensures var q' := ClearedWrite(q);
      && q'.Reading() == q.Reading() && q'.Other() == q.Other()[1..] && q'.removed == q.removed
      && q'.cleared == q.cleared + [q.Other()[0]] && q'.pushed == q.pushed
  {
  }

  lemma ClearWriteSound<T>(q: Buffers<T>)
    requires Sound(q) && q.readsA != q.writesA && q.Writing() != []
    ensures Sound(ClearedWrite(q))
  {
    ClearedWriteParts(q);
    DropSecond(q.removed, q.Reading(), q.Other());
    DropInOrder(q.pushed, Line(q), q.cleared, |q.removed| + |q.Reading()|);
  }

  /** Exchanging the pointers over an empty read queue changes nothing abstractly. */
  lemma SwapSound<T>(q: Buffers<T>)
    requires Sound(q) && q.Reading() == []
    ensures Sound(q.(readsA := !q.readsA)) && q.(readsA := !q.readsA).Queue() == q.Queue()
  {
    assert q.(readsA := !q.readsA).Queue() == q.Queue();
  }

  // ---------------------------------------------------------------- every step keeps it

  /** A step that changes no buffer and no lock. */
  lemma LocalMove<T>(s: State<T>, t: nat, pc: Pc<T>)
    requires Good(s) && t in s.threads && Local(s.q, pc) && !pc.SwapReadPointer? && !s.threads[t].SwapReadPointer?
    requires InRead(pc) == InRead(s.threads[t]) && InWrite(pc) == InWrite(s.threads[t])
    ensures Good(At(s, t, pc))
  {
  }

  lemma ReadLockMove<T>(s: State<T>, t: nat, pc: Pc<T>)
    requires Good(s) && t in s.threads && Local(s.q, pc) && !InWrite(pc) && !InWrite(s.threads[t])
    requires s.readLock == if InRead(pc) then None else Some(t)
    ensures Good(At(s, t, pc).(readLock := if InRead(pc) then Some(t) else None))
  {
  }

  lemma WriteLockMove<T>(s: State<T>, t: nat, pc: Pc<T>)
    requires Good(s) && t in s.threads && Local(s.q, pc) && InRead(pc) == InRead(s.threads[t])
    requires !pc.SwapReadPointer? && !s.threads[t].SwapReadPointer?
    requires s.writeLock == if InWrite(pc) then None else Some(t)
    ensures Good(At(s, t, pc).(writeLock := if InWrite(pc) then Some(t) else None))
  {
  }

  /** A change of the buffers by a thread that holds a lock: the local facts of the others are
      about the read queue, and need the read lock. */
  lemma BufferMove<T>(s: State<T>, t: nat, pc: Pc<T>, q: Buffers<T>)
    requires Good(s) && t in s.threads && Sound(q) && Local(q, pc)
    requires InRead(pc) == InRead(s.threads[t]) && InWrite(pc) == InWrite(s.threads[t])
    requires InRead(pc) || (q.Reading() == s.q.Reading() && q.removed == s.q.removed)
    requires if InWrite(pc) then pc.SwapReadPointer? <==> q.readsA == q.writesA
             else q.readsA == s.q.readsA && q.writesA == s.q.writesA
    ensures Good(At(s, t, pc).(q := q))
  {
    var s' := At(s, t, pc).(q := q);
    forall u | u in s.threads && u != t
      ensures Local(q, s.threads[u])
    {
      assert Local(s.q, s.threads[u]);
    }
  }

  lemma PushStep<T>(s: State<T>, t: nat)
    requires Good(s) && t in s.threads && (s.threads[t].PushLock? || s.threads[t].PushBody? || s.threads[t].PushUnlock?)
    ensures Good(Step(s, t))
  {
    match s.threads[t]
    case PushLock(v) => if s.writeLock == None { WriteLockMove(s, t, PushBody(v)); }
    case PushBody(v) =>
      PushSound(s.q, v);
      BufferMove(s, t, PushUnlock, Pushed(s.q, v));
    case PushUnlock => WriteLockMove(s, t, Idle);
  }

  lemma SwapStep<T>(s: State<T>, t: nat)
    requires Good(s) && t in s.threads
    requires s.threads[t].SwapLock? || s.threads[t].SwapWritePointer? || s.threads[t].SwapReadPointer? || s.threads[t].SwapUnlock?
    ensures Good(Step(s, t))
  {
    var q, pc := s.q, s.threads[t];
    assert Local(q, pc);
    match pc
    case SwapLock(op) => if s.writeLock == None { WriteLockMove(s, t, SwapWritePointer(op)); }
    case SwapWritePointer(op) =>
      var q' := q.(writesA := q.readsA);
      assert Line(q') == Line(q);
      BufferMove(s, t, SwapReadPointer(op), q');
    case SwapReadPointer(op) =>
      SwapSound(q);
      BufferMove(s, t, SwapUnlock(op), q.(readsA := !q.readsA));
    case SwapUnlock(op) => WriteLockMove(s, t, SecondCheck(op));
  }

  lemma CheckStep<T>(s: State<T>, t: nat)
    requires Good(s) && t in s.threads && (s.threads[t].ReadLock? || s.threads[t].FirstCheck? || s.threads[t].SecondCheck?)
    ensures Good(Step(s, t))
  {
    var q := s.q;
    match s.threads[t]
    case ReadLock(op) => if s.readLock == None { ReadLockMove(s, t, FirstCheck(op)); }
    case FirstCheck(op) => LocalMove(s, t, if q.Reading() == [] then SwapLock(op) else SecondCheck(op));
    case SecondCheck(op) =>
      LocalMove(s, t, if q.Reading() == [] then ReadUnlock(op, NoElement, None)
                      else if op == Pop then PopFront(op, None) else ReadFront(op));
  }

  lemma TakeStep<T>(s: State<T>, t: nat)
    requires Good(s) && t in s.threads && (s.threads[t].ReadFront? || s.threads[t].PopFront? || s.threads[t].ReadUnlock?)
    requires !s.threads[t].ReadUnlock? ==> s.q.Reading() != []
    ensures Good(Step(s, t))
  {
    var q, pc := s.q, s.threads[t];
    assert Local(q, pc);
    match pc
    case ReadFront(op) =>
      var v := Some(q.Reading()[0].value);
      LocalMove(s, t, if op == Front then ReadUnlock(op, Success, v) else PopFront(op, v));
    case PopFront(op, value) =>
      RemoveSound(q);
      BufferMove(s, t, ReadUnlock(op, Success, value), Removed(q));
    case ReadUnlock(_, _, _) => ReadLockMove(s, t, Idle);
  }

  lemma ClearReadStep<T>(s: State<T>, t: nat)
    requires Good(s) && t in s.threads && (s.threads[t].ClearReadLock? || s.threads[t].ClearRead? || s.threads[t].ClearReadUnlock?)
    ensures Good(Step(s, t))
  {
    var q := s.q;
    match s.threads[t]
    case ClearReadLock => if s.readLock == None { ReadLockMove(s, t, ClearRead); }
    case ClearRead =>
      if q.Reading() == [] {
        LocalMove(s, t, ClearReadUnlock);
      } else {
        ClearReadSound(q);
        BufferMove(s, t, ClearRead, ClearedRead(q));
        assert At(s, t, ClearRead).(q := ClearedRead(q)) == s.(q := ClearedRead(q));
      }
    case ClearReadUnlock => ReadLockMove(s, t, ClearWriteLock);
  }

  lemma ClearWriteStep<T>(s: State<T>, t: nat)
    requires Good(s) && t in s.threads && (s.threads[t].ClearWriteLock? || s.threads[t].ClearWrite? || s.threads[t].ClearWriteUnlock?)
    ensures Good(Step(s, t))
  {
    var q := s.q;
    match s.threads[t]
    case ClearWriteLock => if s.writeLock == None { WriteLockMove(s, t, ClearWrite); }
    case ClearWrite =>
      if q.Writing() == [] {
        LocalMove(s, t, ClearWriteUnlock);
      } else {
        ClearWriteSound(q);
        BufferMove(s, t, ClearWrite, ClearedWrite(q));
        assert At(s, t, ClearWrite).(q := ClearedWrite(q)) == s.(q := ClearedWrite(q));
      }
    case ClearWriteUnlock => WriteLockMove(s, t, Idle);
  }

  lemma MoveKeepsGood<T(!new)>(s: State<T>, t: nat, s': State<T>)
    requires Good(s) && Moves(s, t, s')
    ensures Good(s')
  {
    var pc := s.threads[t];
    if pc.Idle? {
      var c: Call<T> :| s' == At(s, t, Begin(c));
      LocalMove(s, t, Begin(c));
    } else if pc.PushLock? || pc.PushBody? || pc.PushUnlock? {
      PushStep(s, t);
    } else if pc.SwapLock? || pc.SwapWritePointer? || pc.SwapReadPointer? || pc.SwapUnlock? {
      SwapStep(s, t);
    } else if pc.ReadLock? || pc.FirstCheck? || pc.SecondCheck? {
      CheckStep(s, t);
    } else if pc.ReadFront? || pc.PopFront? || pc.ReadUnlock? {
      TakeStep(s, t);
    } else if pc.ClearReadLock? || pc.ClearRead? || pc.ClearReadUnlock? {
      ClearReadStep(s, t);
    } else {
      ClearWriteStep(s, t);
    }
  }

  /** Every step is one of a single first-in first-out queue: push appends, pop and poll take the
      head, clear drops from one part's head, and all others, swap included, change nothing. */
  lemma StepRefinesQueue<T(!new)>(s: State<T>, t: nat, s': State<T>)
    requires Good(s) && Moves(s, t, s')
    ensures var before, after := s.q.Queue(), s'.q.Queue();
      match s.threads[t]
      case PushBody(v) => after == before + [Item(v, |s.q.pushed|)]
      case PopFront(_, _) => before != [] && after == before[1..]
      case ClearRead => after == if s.q.Reading() == [] then before else before[1..]
      case ClearWrite => after == if s.q.Other() == [] then before else s.q.Reading() + s.q.Other()[1..]
      case _ => after == before
  {
    assert Local(s.q, s.threads[t]);
    match s.threads[t]
    case PushBody(v) => PushSound(s.q, v);
    case PopFront(_, _) => RemoveSound(s.q);
    case SwapReadPointer(_) => SwapSound(s.q);
    case _ =>
  }

  // ---------------------------------------------------------------- whole runs

  lemma {:induction false} RunIsGood<T(!new)>(run: seq<State<T>>, i: nat)
    requires IsRun(run) && i < |run|
    ensures Good(run[i])
  {
    if i > 0 {
      assert NextAt(run, i - 1);
      var t :| Moves(run[i - 1], t, run[i]);
      RunIsGood(run, i - 1);
      MoveKeepsGood(run[i - 1], t, run[i]);
    } else {
      InitIsSound<T>(run[0].q);
    }
  }

  lemma InitIsSound<T>(q: Buffers<T>)
    requires q == Buffers([], [], true, false, [], [], [])
    ensures Sound(q)
  {
    assert Line(q) == [];
  }

  lemma {:induction false} AtLeastPlace<T>(line: seq<Item<T>>, k: nat)
    requires Increasing(line) && k < |line|
    ensures line[k].no >= k
  {
    if k > 0 {
      AtLeastPlace(line, k - 1);
    }
  }

  lemma {:induction false} AtMostPlace<T>(line: seq<Item<T>>, k: nat, bound: nat)
    requires Increasing(line) && k < |line| && line[|line| - 1].no < bound
    ensures line[k].no < bound - (|line| - 1 - k)
    decreases |line| - k
  {
    if k < |line| - 1 {
      AtMostPlace(line, k + 1, bound);
    }
  }

  /** Without clear the queue is first-in first-out: what pop and poll removed, followed by what
      is queued, is what was pushed, in order and without a gap. */
  lemma FirstInFirstOut<T(!new)>(run: seq<State<T>>, i: nat)
    requires IsRun(run) && i < |run| && run[i].q.cleared == []
    ensures var q := run[i].q; var line := q.removed + q.Queue();
      |line| == |q.pushed| && forall k :: 0 <= k < |line| ==> line[k] == Item(q.pushed[k], k)
  {
    RunIsGood(run, i);
    var line := Line(run[i].q);
    forall k | 0 <= k < |line|
      ensures line[k].no == k
    {
      AtLeastPlace(line, k);
      AtMostPlace(line, k, |line|);
    }
  }

  /** With clear interleaved anywhere: what is removed is genuine and in push order, never twice,
      and older than everything still queued; and every push is exactly once removed, cleared or
      still queued. */
  lemma ClearLosesNothing<T(!new)>(run: seq<State<T>>, i: nat)
    requires IsRun(run) && i < |run|
    ensures var q := run[i].q;
      && Increasing(q.removed + q.Queue()) && Genuine(q.removed + q.Queue(), q.pushed) && Genuine(q.cleared, q.pushed)
      && forall n: nat :: Times(q.removed, n) + Times(q.Queue(), n) + Times(q.cleared, n) == if n < |q.pushed| then 1 else 0
  {
    RunIsGood(run, i);
    var q := run[i].q;
    forall n: nat
      ensures Times(q.removed, n) + Times(q.Queue(), n) + Times(q.cleared, n) == if n < |q.pushed| then 1 else 0
    {
      TimesConcat(q.removed, q.Queue(), n);
      assert Times(Line(q), n) + Times(q.cleared, n) == if n < |q.pushed| then 1 else 0;
    }
  }

  /** A successful front returns the oldest queued value; a successful poll the one it removed. */
  lemma ReturnedValue<T(!new)>(run: seq<State<T>>, i: nat, t: nat)
    requires IsRun(run) && i < |run| && t in run[i].threads
    requires run[i].threads[t].ReadUnlock? && run[i].threads[t].err == Success
    ensures var q, pc := run[i].q, run[i].threads[t];
      && (pc.op == Front ==> q.Queue() != [] && pc.value == Some(q.Queue()[0].value))
      && (pc.op == Poll ==> q.removed != [] && pc.value == Some(q.removed[|q.removed| - 1].value))
  {
    RunIsGood(run, i);
    assert Local(run[i].q, run[i].threads[t]);
  }

  // ---------------------------------------------------------------- refusals and progress

  lemma CameFrom<T(!new)>(s: State<T>, t: nat, s': State<T>)
    requires Moves(s, t, s')
    ensures var a, b := s.threads[t], s'.threads[t];
      && (b.SwapUnlock? ==> a.SwapReadPointer? && s'.q == s.q.(readsA := !s.q.readsA))
      && (b.SecondCheck? ==> s'.q == s.q && (a.SwapUnlock? || (a.FirstCheck? && s.q.Reading() != [])))
      && (b.ReadUnlock? && b.err == NoElement ==> a.SecondCheck? && s.q.Reading() == [])
  {
  }

  /** While a thread holds the read lock, no other one changes the read queue. */
  lemma OthersKeepReading<T(!new)>(s: State<T>, u: nat, s': State<T>, t: nat)
    requires Good(s) && Moves(s, u, s') && u != t && t in s.threads && InRead(s.threads[t])
    ensures s'.q.Reading() == s.q.Reading() && t in s'.threads && s'.threads[t] == s.threads[t]
  {
    assert !InRead(s.threads[u]);
  }

  lemma MoveFrame<T(!new)>(s: State<T>, u: nat, s': State<T>)
    requires Moves(s, u, s')
    ensures s'.threads.Keys == s.threads.Keys
    ensures forall t :: t in s.threads && t != u ==> s'.threads[t] == s.threads[t]
  {
  }

  lemma LastMove<T(!new)>(run: seq<State<T>>, i: nat, t: nat) returns (u: nat)
    requires IsRun(run) && i < |run| && t in run[i].threads && !run[i].threads[t].Idle?
    ensures i > 0 && Moves(run[i - 1], u, run[i]) && t in run[i - 1].threads
    ensures u != t && InRead(run[i].threads[t]) ==>
      run[i].q.Reading() == run[i - 1].q.Reading() && run[i].threads[t] == run[i - 1].threads[t]
  {
    if i > 0 {
      assert NextAt(run, i - 1);
      u :| Moves(run[i - 1], u, run[i]);
      MoveFrame(run[i - 1], u, run[i]);
      if u != t && InRead(run[i].threads[t]) {
        RunIsGood(run, i - 1);
        OthersKeepReading(run[i - 1], u, run[i], t);
      }
    }
  }

  ghost predicate Throughout<T>(run: seq<State<T>>, j: nat, i: nat, t: nat, part: Pc<T> -> bool) {
    j <= i < |run| && forall k :: j <= k <= i ==> t in run[k].threads && part(run[k].threads[t])
  }

  /** If the read queue is empty after a swap, both were empty when the pointers changed. */
  lemma {:induction false} SwapMoment<T(!new)>(run: seq<State<T>>, i: nat, t: nat) returns (j: nat)
    requires IsRun(run) && i < |run| && t in run[i].threads && run[i].q.Reading() == []
    requires run[i].threads[t].SwapUnlock? || run[i].threads[t].SecondCheck?
    ensures Throughout(run, j, i, t, InRead) && run[j].threads[t].SwapUnlock? && run[j].q.Queue() == []
  {
    var u := LastMove(run, i, t);
    if u == t {
      CameFrom(run[i - 1], t, run[i]);
      if run[i - 1].threads[t].SwapReadPointer? {
        RunIsGood(run, i - 1);
        assert Local(run[i - 1].q, run[i - 1].threads[t]);
        return i;
      }
    }
    j := SwapMoment(run, i - 1, t);
  }

  /** NO_ELEMENT is returned only if the whole queue was empty at the instant of that call's swap. */
  lemma {:induction false} RefusedRemoval<T(!new)>(run: seq<State<T>>, i: nat, t: nat) returns (j: nat)
    requires IsRun(run) && i < |run| && t in run[i].threads
    requires run[i].threads[t].ReadUnlock? && run[i].threads[t].err == NoElement
    ensures Throughout(run, j, i, t, InRead) && run[j].threads[t].SwapUnlock? && run[j].q.Queue() == []
  {
    var u := LastMove(run, i, t);
    if u == t {
      CameFrom(run[i - 1], t, run[i]);
      j := SwapMoment(run, i - 1, t);
    } else {
      j := RefusedRemoval(run, i - 1, t);
    }
  }

  /** A thread that does not wait for a lock can take its next step, and the step gets it on. */
  lemma FreeThreadMoves<T(!new)>(s: State<T>, u: nat)
    requires Good(s) && u in s.threads && !s.threads[u].Idle? && !Waits(s, s.threads[u])
    ensures (s.threads[u].ReadFront? || s.threads[u].PopFront?) ==> s.q.Reading() != []
    ensures Moves(s, u, Step(s, u)) && Step(s, u) != s
  {
    assert Local(s.q, s.threads[u]);
    assert Step(s, u).threads == s.threads ==> |Step(s, u).q.cleared| == |s.q.cleared| + 1;
  }

  /** No reachable state is deadlocked: while some call is under way, some call can move on. */
  lemma NoDeadlock<T(!new)>(run: seq<State<T>>, i: nat, t: nat) returns (u: nat, next: State<T>)
    requires IsRun(run) && i < |run| && t in run[i].threads && !run[i].threads[t].Idle?
    ensures u in run[i].threads && !run[i].threads[u].Idle?
    ensures Moves(run[i], u, next) && next != run[i]
  {
    RunIsGood(run, i);
    var s := run[i];
    u := if s.writeLock.Some? then s.writeLock.value else if s.readLock.Some? then s.readLock.value else t;
    FreeThreadMoves(s, u);
    next := Step(s, u);
  }
}
