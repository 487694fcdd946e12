/** What single calls on a DoubleBufferQueue do in the course of any run: which of their own steps
    change the queue, how, and what they answer; and what a clear leaves behind. */
module DoubleBufferCalls {
  import opened ClockErrors
  import opened DoubleBufferQueue

  // ---------------------------------------------------------------- calls in a run

  /** Step m of the run is one of thread t. */
  ghost predicate Acts<T(!new)>(run: seq<State<T>>, m: nat, t: nat) {
    m + 1 < |run| && Moves(run[m], t, run[m + 1])
  }

  ghost predicate Unchanged<T>(q: Buffers<T>, q': Buffers<T>) {
    q'.Queue() == q.Queue() && q'.pushed == q.pushed && q'.removed == q.removed && q'.cleared == q.cleared
  }

  /** If step m is one of thread t, it leaves the abstract queue as it is. */
  ghost predicate Quiet<T(!new)>(run: seq<State<T>>, m: nat, t: nat) {
    Acts(run, m, t) ==> Unchanged(run[m].q, run[m + 1].q)
  }

  /** If step m is one of thread t, it drops at most values of the queue: nothing is pushed, and
      nothing counts as removed. */
  ghost predicate Drops<T(!new)>(run: seq<State<T>>, m: nat, t: nat) {
    Acts(run, m, t) ==>
      && run[m + 1].q.pushed == run[m].q.pushed && run[m + 1].q.removed == run[m].q.removed
      && run[m].q.cleared <= run[m + 1].q.cleared
  }

  /** A step of call c that has no effect, or of a clear. */
  ghost predicate Harmless<T(!new)>(run: seq<State<T>>, m: nat, t: nat, c: Call<T>) {
    if c.Clear? then Drops(run, m, t) else Quiet(run, m, t)
  }

  ghost predicate Silent<T(!new)>(run: seq<State<T>>, b: nat, e: nat, t: nat, c: Call<T>) {
    forall m :: b <= m < e ==> Harmless(run, m, t, c)
  }

  /** The effect that a successful call is to have on the queue. */
  ghost predicate Effect<T>(c: Call<T>, q: Buffers<T>, q': Buffers<T>) {
    match c
    case Push(v) =>
      && q'.pushed == q.pushed + [v] && q'.Queue() == q.Queue() + [Item(v, |q.pushed|)]
      && q'.removed == q.removed && q'.cleared == q.cleared
    case Remove(op) =>
      && op != Front && q.Queue() != [] && q'.Queue() == q.Queue()[1..] && q'.removed == q.removed + [q.Queue()[0]]
      && q'.pushed == q.pushed && q'.cleared == q.cleared
    case Clear => false
  }

  /** From step b on, exactly step k among those of thread t changes the queue, as call c should. */
  ghost predicate Once<T(!new)>(run: seq<State<T>>, b: nat, e: nat, t: nat, c: Call<T>, k: nat) {
    && b < k < e && Acts(run, k, t) && Effect(c, run[k].q, run[k + 1].q)
    && Silent(run, b, k, t, c) && Silent(run, k + 1, e, t, c)
  }

  /** Thread t started call c with step b and is still in it at moment i. */
  ghost predicate InCall<T(!new)>(run: seq<State<T>>, b: nat, i: nat, t: nat, c: Call<T>) {
    && b < i < |run| && t in run[b].threads && run[b].threads[t].Idle? && run[b + 1] == At(run[b], t, Begin(c))
    && forall m :: b < m <= i ==> t in run[m].threads && !run[m].threads[t].Idle?
  }

  // ---------------------------------------------------------------- one step of a call

  /** The places that belong to a call. */
  ghost predicate Serves<T>(pc: Pc<T>, c: Call<T>) {
    match pc
    case Idle => false
    case PushLock(v) => c == Push(v)
    case PushBody(v) => c == Push(v)
    case PushUnlock => c.Push?
    case ReadLock(op) => c == Remove(op)
    case FirstCheck(op) => c == Remove(op)
    case SwapLock(op) => c == Remove(op)
    case SwapWritePointer(op) => c == Remove(op)
    case SwapReadPointer(op) => c == Remove(op)
    case SwapUnlock(op) => c == Remove(op)
    case SecondCheck(op) => c == Remove(op)
    case ReadFront(op) => c == Remove(op)
    case PopFront(op, _) => c == Remove(op) && op != Front
    case ReadUnlock(op, err, _) => c == Remove(op) && (err == Success || err == NoElement)
    case _ => c.Clear?
  }

  /** The last place of a call. */
  predicate Final<T>(pc: Pc<T>) {
    pc.PushUnlock? || pc.ReadUnlock? || pc.ClearWriteUnlock?
  }

  /** The call has had its effect. */
  predicate HasActed<T>(pc: Pc<T>) {
    pc.PushUnlock? || (pc.ReadUnlock? && pc.err == Success && pc.op != Front)
  }

  /** What a poll is about to return is what it removed. */
  ghost predicate Returns<T>(pc: Pc<T>, q: Buffers<T>) {
    pc.ReadUnlock? && pc.op == Poll && q.removed != [] ==> pc.value == Some(q.removed[|q.removed| - 1].value)
  }

  lemma PushCallStep<T(!new)>(s: State<T>, t: nat, s': State<T>, c: Call<T>)
    requires Good(s) && Moves(s, t, s') && Serves(s.threads[t], c) && c.Push?
    ensures t in s'.threads
    ensures var a, b, q, q' := s.threads[t], s'.threads[t], s.q, s'.q;
      && (b.Idle? <==> Final(a)) && (!b.Idle? ==> Serves(b, c))
      && if HasActed(b) then Effect(c, q, q') else Unchanged(q, q')
  {
    StepRefinesQueue(s, t, s');
  }

  lemma RemoveCallStep<T(!new)>(s: State<T>, t: nat, s': State<T>, c: Call<T>)
    requires Good(s) && Moves(s, t, s') && Serves(s.threads[t], c) && c.Remove?
    ensures t in s'.threads
    ensures var a, b, q, q' := s.threads[t], s'.threads[t], s.q, s'.q;
      && (b.Idle? <==> Final(a)) && (!b.Idle? ==> Serves(b, c))
      && if HasActed(b) then Effect(c, q, q') && Returns(b, q') else Unchanged(q, q')
  {
    StepRefinesQueue(s, t, s');
    assert Local(s.q, s.threads[t]);
  }

  lemma ClearCallStep<T(!new)>(s: State<T>, t: nat, s': State<T>, c: Call<T>)
    requires Moves(s, t, s') && Serves(s.threads[t], c) && c.Clear?
    ensures t in s'.threads
    ensures var a, b, q, q' := s.threads[t], s'.threads[t], s.q, s'.q;
      && (b.Idle? <==> Final(a)) && (!b.Idle? ==> Serves(b, c)) && !HasActed(b)
      && q'.pushed == q.pushed && q'.removed == q.removed && q.cleared <= q'.cleared
  {
  }

  /** A step of a call goes on with the call or returns from its last place; it has the call's
      effect exactly if it then has acted. */
  lemma CallStep<T(!new)>(s: State<T>, t: nat, s': State<T>, c: Call<T>)
    requires Good(s) && Moves(s, t, s') && Serves(s.threads[t], c)
    ensures t in s'.threads
    ensures var a, b, q, q' := s.threads[t], s'.threads[t], s.q, s'.q;
      && (b.Idle? <==> Final(a)) && (!b.Idle? ==> Serves(b, c))
      && (HasActed(b) ==> Effect(c, q, q') && Returns(b, q'))
      && (!HasActed(b) && !c.Clear? ==> Unchanged(q, q'))
      && (c.Clear? ==> !HasActed(b) && q'.pushed == q.pushed && q'.removed == q.removed && q.cleared <= q'.cleared)
  {
    match c
    case Push(_) => PushCallStep(s, t, s', c);
    case Remove(_) => RemoveCallStep(s, t, s', c);
    case Clear => ClearCallStep(s, t, s', c);
  }

  lemma SamePlace<T(!new)>(s: State<T>, t: nat, s': State<T>)
    requires Moves(s, t, s') && t in s'.threads && s'.threads[t] == s.threads[t]
    requires !s.threads[t].ClearRead? && !s.threads[t].ClearWrite?
    ensures s'.q == s.q
  {
  }

  lemma SameClear<T(!new)>(s: State<T>, t: nat, s': State<T>)
    requires Moves(s, t, s') && (s.threads[t].ClearRead? || s.threads[t].ClearWrite?)
    ensures s'.q.pushed == s.q.pushed && s'.q.removed == s.q.removed && s.q.cleared <= s'.q.cleared
  {
  }

  /** A step of another thread does not disturb what is known of t's call. */
  lemma OtherStep<T(!new)>(run: seq<State<T>>, i: nat, u: nat, t: nat, c: Call<T>)
    requires i + 1 < |run| && Moves(run[i], u, run[i + 1]) && t != u && t in run[i].threads && Serves(run[i].threads[t], c)
    ensures t in run[i + 1].threads && run[i + 1].threads[t] == run[i].threads[t]
    ensures Harmless(run, i, t, c)
  {
    MoveFrame(run[i], u, run[i + 1]);
    if Acts(run, i, t) {
      if run[i].threads[t].ClearRead? || run[i].threads[t].ClearWrite? {
        SameClear(run[i], t, run[i + 1]);
      } else {
        SamePlace(run[i], t, run[i + 1]);
      }
    }
  }

  // ---------------------------------------------------------------- whole calls

  ghost predicate SoFar<T(!new)>(run: seq<State<T>>, b: nat, i: nat, t: nat, c: Call<T>, k: nat) {
    && InCall(run, b, i, t, c) && Serves(run[i].threads[t], c)
    && (if HasActed(run[i].threads[t]) then Once(run, b, i, t, c, k) && Returns(run[i].threads[t], run[k + 1].q)
        else Silent(run, b, i, t, c))
  }

  lemma SilentStep<T(!new)>(run: seq<State<T>>, b: nat, i: nat, t: nat, c: Call<T>)
    requires Silent(run, b, i, t, c) && Harmless(run, i, t, c)
    ensures Silent(run, b, i + 1, t, c)
  {
  }

  /** A quiet step extends what is known of the steps before it. */
  lemma QuietStep<T(!new)>(run: seq<State<T>>, b: nat, i: nat, t: nat, c: Call<T>, k: nat)
    requires Harmless(run, i, t, c) && b <= i
    ensures Silent(run, b, i, t, c) ==> Silent(run, b, i + 1, t, c)
    ensures Once(run, b, i, t, c, k) ==> Once(run, b, i + 1, t, c, k)
  {
    if Silent(run, b, i, t, c) {
      SilentStep(run, b, i, t, c);
    }
    if Once(run, b, i, t, c, k) {
      SilentStep(run, k + 1, i, t, c);
    }
  }

  lemma InCallStep<T(!new)>(run: seq<State<T>>, b: nat, i: nat, t: nat, c: Call<T>)
    requires i + 1 < |run| && InCall(run, b, i, t, c) && t in run[i + 1].threads && !run[i + 1].threads[t].Idle?
    ensures InCall(run, b, i + 1, t, c)
  {
  }

  lemma StartIsHarmless<T(!new)>(run: seq<State<T>>, b: nat, t: nat, c: Call<T>)
    requires b + 1 < |run| && run[b + 1].q == run[b].q
    ensures Harmless(run, b, t, c)
  {
  }

  lemma CallStarts<T(!new)>(run: seq<State<T>>, i: nat, t: nat) returns (c: Call<T>)
    requires 0 < i < |run| && Moves(run[i - 1], t, run[i]) && run[i - 1].threads[t].Idle?
    ensures SoFar(run, i - 1, i, t, c, 0)
  {
    c :| run[i] == At(run[i - 1], t, Begin(c));
    StartIsHarmless(run, i - 1, t, c);
    SilentStep(run, i - 1, i - 1, t, c);
  }

  lemma CallGoesOn<T(!new)>(run: seq<State<T>>, b: nat, i: nat, t: nat, c: Call<T>, k: nat) returns (k': nat)
    requires i + 1 < |run| && SoFar(run, b, i, t, c, k) && Moves(run[i], t, run[i + 1])
    requires Good(run[i]) && t in run[i + 1].threads && !run[i + 1].threads[t].Idle?
    ensures SoFar(run, b, i + 1, t, c, k')
  {
    CallStep(run[i], t, run[i + 1], c);
    InCallStep(run, b, i, t, c);
    assert !HasActed(run[i].threads[t]);
    if HasActed(run[i + 1].threads[t]) {
      k' := i;
    } else {
      k' := k;
      QuietStep(run, b, i, t, c, k);
    }
  }

  lemma CallWaits<T(!new)>(run: seq<State<T>>, b: nat, i: nat, t: nat, c: Call<T>, k: nat, u: nat)
    requires i + 1 < |run| && SoFar(run, b, i, t, c, k) && Moves(run[i], u, run[i + 1]) && u != t
    ensures SoFar(run, b, i + 1, t, c, k)
  {
    OtherStep(run, i, u, t, c);
    InCallStep(run, b, i, t, c);
    QuietStep(run, b, i, t, c, k);
  }

  /** The mover of step i - 1. */
  lemma Mover<T(!new)>(run: seq<State<T>>, i: nat, t: nat) returns (u: nat)
    requires IsRun(run) && i < |run| && t in run[i].threads && !run[i].threads[t].Idle?
    ensures i > 0 && Moves(run[i - 1], u, run[i]) && t in run[i - 1].threads && Good(run[i - 1])
    ensures u != t ==> run[i - 1].threads[t] == run[i].threads[t]
  {
    u := LastMove(run, i, t);
    RunIsGood(run, i - 1);
    MoveFrame(run[i - 1], u, run[i]);
  }

  lemma {:induction false} CallSoFar<T(!new)>(run: seq<State<T>>, i: nat, t: nat) returns (b: nat, c: Call<T>, k: nat)
    requires IsRun(run) && i < |run| && t in run[i].threads && !run[i].threads[t].Idle?
    ensures SoFar(run, b, i, t, c, k)
  {
    var u := Mover(run, i, t);
    if u == t && run[i - 1].threads[t].Idle? {
      c := CallStarts(run, i, t);
      b, k := i - 1, 0;
    } else {
      b, c, k := CallSoFar(run, i - 1, t);
      if u == t {
        k := CallGoesOn(run, b, i - 1, t, c, k);
      } else {
        CallWaits(run, b, i - 1, t, c, k, u);
      }
    }
  }

  /** The answer of a call, at its last place. */
  ghost predicate Answers<T>(pc: Pc<T>, c: Call<T>) {
    match c
    case Push(_) => pc.PushUnlock?
    case Remove(op) => pc.ReadUnlock? && pc.op == op && (pc.err == Success || pc.err == NoElement)
    case Clear => pc.ClearWriteUnlock?
  }

  /** Every call that returns, in every run: a push appended the value it was called with, by exactly
      one of its steps; a pop or poll that answers SUCCESS removed the oldest value, by exactly one
      of its steps, and a poll returns that value; a front and a refused call changed nothing; a
      clear only dropped values. */
  lemma CompletedCall<T(!new)>(run: seq<State<T>>, i: nat, t: nat) returns (b: nat, c: Call<T>, k: nat)
    requires IsRun(run) && i + 1 < |run| && t in run[i].threads && t in run[i + 1].threads
    requires !run[i].threads[t].Idle? && run[i + 1].threads[t].Idle?
    ensures InCall(run, b, i, t, c) && Answers(run[i].threads[t], c)
    ensures var pc := run[i].threads[t];
      if c.Push? || (c.Remove? && pc.err == Success && c.op != Front)
      then Once(run, b, i + 1, t, c, k) && (c == Remove(Poll) ==> pc.value == Some(run[k].q.Queue()[0].value))
      else Silent(run, b, i + 1, t, c)
  {
    b, c, k := CallSoFar(run, i, t);
    Returned(run, i, t, c);
    QuietStep(run, b, i, t, c, k);
  }

  lemma Returned<T(!new)>(run: seq<State<T>>, i: nat, t: nat, c: Call<T>)
    requires IsRun(run) && i + 1 < |run| && t in run[i].threads && t in run[i + 1].threads
    requires run[i + 1].threads[t].Idle? && Serves(run[i].threads[t], c)
    ensures Final(run[i].threads[t]) && Harmless(run, i, t, c)
  {
    assert NextAt(run, i);
    var u :| Moves(run[i], u, run[i + 1]);
    MoveFrame(run[i], u, run[i + 1]);
    RunIsGood(run, i);
    CallStep(run[i], t, run[i + 1], c);
  }

  // ---------------------------------------------------------------- what clear leaves behind

  predicate InSecondPhase<T>(pc: Pc<T>) {
    pc.ClearReadUnlock? || pc.ClearWriteLock? || pc.ClearWrite? || pc.ClearWriteUnlock?
  }

  /** Step n exchanges the two queues. */
  ghost predicate SwapsAt<T>(run: seq<State<T>>, n: nat) {
    n + 1 < |run| && run[n].q.readsA != run[n + 1].q.readsA
  }

  /** Some exchange from moment j on moved x from the write queue to the read queue. */
  ghost predicate Moved<T>(run: seq<State<T>>, j: nat, i: nat, x: Item<T>) {
    exists n :: j <= n < i && SwapsAt(run, n) && x in run[n].q.Other()
  }

  /** Only an exchange brings anything into the read queue. */
  lemma ReadingStep<T(!new)>(s: State<T>, u: nat, s': State<T>)
    requires Good(s) && Moves(s, u, s')
    ensures if s'.q.readsA == s.q.readsA then forall x :: x in s'.q.Reading() ==> x in s.q.Reading()
            else s'.q.Reading() == s.q.Other()
  {
  }

  /** While a thread holds the write lock outside a swap, no other one changes the write queue. */
  lemma OthersKeepWriting<T(!new)>(s: State<T>, u: nat, s': State<T>, t: nat)
    requires Good(s) && Moves(s, u, s') && u != t && t in s.threads && s.threads[t].ClearWriteUnlock?
    ensures s'.q.Writing() == s.q.Writing()
  {
    assert s.writeLock == Some(t) && !InWrite(s.threads[u]);
  }

  lemma ReachedEnd<T(!new)>(s: State<T>, t: nat, s': State<T>)
    requires Moves(s, t, s') && t in s'.threads && InSecondPhase(s'.threads[t])
    ensures s'.threads[t].ClearWriteUnlock? ==> s.threads[t].ClearWrite? && s.q.Writing() == [] && s'.q == s.q
    ensures s'.threads[t].ClearReadUnlock? ==> s.threads[t].ClearRead? && s.q.Reading() == [] && s'.q == s.q
    ensures !s'.threads[t].ClearReadUnlock? ==> InSecondPhase(s.threads[t])
  {
  }

  lemma {:induction false} WriteQueueIsEmpty<T(!new)>(run: seq<State<T>>, i: nat, t: nat)
    requires IsRun(run) && i < |run| && t in run[i].threads && run[i].threads[t].ClearWriteUnlock?
    ensures run[i].q.Writing() == []
  {
    var u := Mover(run, i, t);
    if u == t {
      ReachedEnd(run[i - 1], t, run[i]);
    } else {
      WriteQueueIsEmpty(run, i - 1, t);
      OthersKeepWriting(run[i - 1], u, run[i], t);
    }
  }

  /** The moment at which this clear had found the read queue empty. */
  ghost predicate FoundEmpty<T>(run: seq<State<T>>, j: nat, i: nat, t: nat) {
    && 0 < j <= i < |run| && t in run[j - 1].threads && run[j - 1].threads[t].ClearRead?
    && run[j - 1].q.Reading() == [] && run[j].q.Reading() == []
    && forall m :: j <= m <= i ==> t in run[m].threads && InSecondPhase(run[m].threads[t])
  }

  ghost predicate ReadingWasMoved<T>(run: seq<State<T>>, j: nat, i: nat) {
    i < |run| && forall x :: x in run[i].q.Reading() ==> Moved(run, j, i, x)
  }

  lemma MovedLater<T>(run: seq<State<T>>, j: nat, i: nat, x: Item<T>)
    ensures Moved(run, j, i, x) ==> Moved(run, j, i + 1, x)
  {
  }

  lemma StillMoved<T(!new)>(run: seq<State<T>>, j: nat, i: nat, u: nat)
    requires j <= i && i + 1 < |run| && Good(run[i]) && Moves(run[i], u, run[i + 1])
    requires ReadingWasMoved(run, j, i)
    ensures ReadingWasMoved(run, j, i + 1)
  {
    ReadingStep(run[i], u, run[i + 1]);
    var reading := run[i + 1].q.Reading();
    forall x | x in reading
      ensures Moved(run, j, i + 1, x)
    {
      if SwapsAt(run, i) {
        assert x in run[i].q.Other();
      } else {
        MovedLater(run, j, i, x);
      }
    }
  }

  lemma {:induction false} ReadQueueWasMoved<T(!new)>(run: seq<State<T>>, i: nat, t: nat) returns (j: nat)
    requires IsRun(run) && i < |run| && t in run[i].threads && InSecondPhase(run[i].threads[t])
    ensures FoundEmpty(run, j, i, t) && ReadingWasMoved(run, j, i)
  {
    var u := Mover(run, i, t);
    if u == t {
      ReachedEnd(run[i - 1], t, run[i]);
      if run[i].threads[t].ClearReadUnlock? {
        return i;
      }
    }
    j := ReadQueueWasMoved(run, i - 1, t);
    StillMoved(run, j, i - 1, u);
  }

  /** When a clear is about to return, concurrent pushes notwithstanding: whatever is queued was
      moved from the write queue to the read queue by an exchange after this call had found the
      read queue empty. So the queue is empty if and only if nothing that was moved like that is
      still queued; in particular if there was no exchange, or only one of empty queues. */
  lemma ClearedExactly<T(!new)>(run: seq<State<T>>, i: nat, t: nat) returns (b: nat, j: nat)
    requires IsRun(run) && i < |run| && t in run[i].threads && run[i].threads[t].ClearWriteUnlock?
    ensures InCall(run, b, i, t, Clear) && FoundEmpty(run, j, i, t)
    ensures forall x :: x in run[i].q.Queue() ==> Moved(run, j, i, x)
    ensures run[i].q.Queue() == [] <==> forall x :: Moved(run, j, i, x) ==> x !in run[i].q.Queue()
    ensures (forall n :: j <= n < i && SwapsAt(run, n) ==> run[n].q.Other() == []) ==> run[i].q.Queue() == []
  {
    var c, k;
    b, c, k := CallSoFar(run, i, t);
    j := ReadQueueWasMoved(run, i, t);
    WriteQueueIsEmpty(run, i, t);
    RunIsGood(run, i);
    QueueIsReading(run[i], t);
    var queue := run[i].q.Queue();
    assert queue != [] ==> queue[0] in queue;
  }

  lemma QueueIsReading<T>(s: State<T>, t: nat)
    requires Good(s) && t in s.threads && s.threads[t].ClearWriteUnlock? && s.q.Writing() == []
    ensures s.q.Queue() == s.q.Reading()
  {
    assert s.writeLock == Some(t) && s.q.readsA != s.q.writesA;
    assert s.q.Reading() + [] == s.q.Reading();
  }

  // ---------------------------------------------------------------- a value that survives

  ghost function Two<T>(q: Buffers<T>, read: Option<nat>, write: Option<nat>, p: Pc<T>, r: Pc<T>): State<T> {
    State(q, read, write, map[0 := p, 1 := r])
  }

  /** Thread 0 at p and thread 1 at r of a run that ends with these buffers and locks. */
  ghost predicate EndsWith<T(!new)>(run: seq<State<T>>, s: State<T>) {
    IsRun(run) && run[|run| - 1] == s
  }

  lemma Extend<T(!new)>(run: seq<State<T>>, s: State<T>, t: nat, s': State<T>) returns (longer: seq<State<T>>)
    requires EndsWith(run, s) && Moves(s, t, s')
    ensures longer == run + [s'] && EndsWith(longer, s')
  {
    longer := run + [s'];
    forall i | 0 <= i < |longer| - 1
      ensures NextAt(longer, i)
    {
      if i < |run| - 1 {
        assert NextAt(run, i);
      }
    }
  }

  lemma StepOf<T(!new)>(run: seq<State<T>>, s: State<T>, t: nat, s': State<T>) returns (longer: seq<State<T>>)
    requires EndsWith(run, s) && t in s.threads && !s.threads[t].Idle? && !s.threads[t].ReadFront? && !s.threads[t].PopFront?
    requires s' == Step(s, t)
    ensures longer == run + [s'] && EndsWith(longer, s')
  {
    longer := Extend(run, s, t, s');
  }

  lemma StartOf<T(!new)>(run: seq<State<T>>, s: State<T>, t: nat, c: Call<T>, s': State<T>) returns (longer: seq<State<T>>)
    requires EndsWith(run, s) && t in s.threads && s.threads[t].Idle? && s' == At(s, t, Begin(c))
    ensures longer == run + [s'] && EndsWith(longer, s')
  {
    longer := Extend(run, s, t, s');
  }

  ghost function Holding<T>(v: T, readsA: bool, writesA: bool): Buffers<T> {
    Buffers([], [Item(v, 0)], readsA, writesA, [v], [], [])
  }

  /** The longer run goes on with thread 0 in a call. */
  ghost predicate GoesOn<T>(before: seq<State<T>>, run: seq<State<T>>, n: nat) {
    && |run| == |before| + n && before == run[..|before|]
    && forall m :: |before| <= m < |run| ==> 0 in run[m].threads && !run[m].threads[0].Idle?
  }

  lemma GoesOnFurther<T>(first: seq<State<T>>, second: seq<State<T>>, third: seq<State<T>>, m: nat, n: nat)
    requires GoesOn(first, second, m) && GoesOn(second, third, n)
    ensures GoesOn(first, third, m + n)
  {
    assert third[..|first|] == third[..|second|][..|first|];
    assert forall k :: 0 <= k < |second| ==> third[k] == third[..|second|][k];
  }

  lemma TwoSteps<T(!new)>(run: seq<State<T>>, s: State<T>, t: nat, s': State<T>, s'': State<T>) returns (longer: seq<State<T>>)
    requires EndsWith(run, s) && t in s.threads && !s.threads[t].Idle? && !s.threads[t].ReadFront? && !s.threads[t].PopFront?
    requires s' == Step(s, t) && t in s'.threads && !s'.threads[t].Idle? && !s'.threads[t].ReadFront? && !s'.threads[t].PopFront?
    requires s'' == Step(s', t) && 0 in s'.threads && 0 in s''.threads && !s'.threads[0].Idle? && !s''.threads[0].Idle?
    ensures GoesOn(run, longer, 2) && EndsWith(longer, s'')
  {
    longer := StepOf(run, s, t, s');
    longer := StepOf(longer, s', t, s'');
  }

  /** Thread 0 pushes a value. */
  lemma RunPush<T(!new)>(v: T) returns (run: seq<State<T>>)
    ensures |run| == 5 && EndsWith(run, Two(Holding(v, true, false), None, None, Idle, Idle))
  {
    var q: Buffers<T> := Buffers([], [], true, false, [], [], []);
    var s0, s1 := Two(q, None, None, Idle, Idle), Two(q, None, None, PushLock(v), Idle);
    var s3 := Two(Holding(v, true, false), None, Some(0), PushUnlock, Idle);
    assert IsRun([s0]);
    var first := StartOf([s0], s0, 0, Push(v), s1);
    var second := TwoSteps(first, s1, 0, Two(q, None, Some(0), PushBody(v), Idle), s3);
    run := StepOf(second, s3, 0, Two(Holding(v, true, false), None, None, Idle, Idle));
  }

  /** Thread 0 starts to clear. */
  lemma RunStart<T(!new)>(v: T) returns (before: seq<State<T>>, run: seq<State<T>>)
    ensures |before| == 5 && before[4] == Two(Holding(v, true, false), None, None, Idle, Idle)
    ensures GoesOn(before, run, 1) && run[5] == At(before[4], 0, ClearReadLock)
    ensures EndsWith(run, Two(Holding(v, true, false), None, None, ClearReadLock, Idle))
  {
    var q := Holding(v, true, false);
    before := RunPush(v);
    run := StartOf(before, Two(q, None, None, Idle, Idle), 0, Clear, Two(q, None, None, ClearReadLock, Idle));
  }

  /** It finishes the first phase. */
  lemma RunFirstPhase<T(!new)>(v: T, before: seq<State<T>>) returns (run: seq<State<T>>)
    requires EndsWith(before, Two(Holding(v, true, false), None, None, ClearReadLock, Idle))
    ensures GoesOn(before, run, 3) && EndsWith(run, Two(Holding(v, true, false), None, None, ClearWriteLock, Idle))
  {
    var q := Holding(v, true, false);
    var s3 := Two(q, Some(0), None, ClearReadUnlock, Idle);
    var first := TwoSteps(before, Two(q, None, None, ClearReadLock, Idle), 0, Two(q, Some(0), None, ClearRead, Idle), s3);
    run := StepOf(first, s3, 0, Two(q, None, None, ClearWriteLock, Idle));
    GoesOnFurther(before, first, run, 2, 1);
  }

  /** Thread 1 looks for the front, finds the read queue empty and takes the write lock. */
  lemma RunToSwap<T(!new)>(v: T, before: seq<State<T>>) returns (run: seq<State<T>>)
    requires EndsWith(before, Two(Holding(v, true, false), None, None, ClearWriteLock, Idle))
    ensures GoesOn(before, run, 3)
    ensures EndsWith(run, Two(Holding(v, true, false), Some(1), None, ClearWriteLock, SwapLock(Front)))
  {
    var q := Holding(v, true, false);
    var s1 := Two(q, None, None, ClearWriteLock, ReadLock(Front));
    var first := StartOf(before, Two(q, None, None, ClearWriteLock, Idle), 1, Remove(Front), s1);
    run := TwoSteps(first, s1, 1, Two(q, Some(1), None, ClearWriteLock, FirstCheck(Front)),
                    Two(q, Some(1), None, ClearWriteLock, SwapLock(Front)));
    GoesOnFurther(before, first, run, 1, 2);
  }

  /** It exchanges the queues. */
  lemma RunSwap<T(!new)>(v: T, before: seq<State<T>>) returns (run: seq<State<T>>)
    requires EndsWith(before, Two(Holding(v, true, false), Some(1), None, ClearWriteLock, SwapLock(Front)))
    ensures GoesOn(before, run, 4)
    ensures EndsWith(run, Two(Holding(v, false, true), Some(1), None, ClearWriteLock, SecondCheck(Front)))
  {
    var p: Pc<T> := ClearWriteLock;
    var s2 := Two(Holding(v, true, true), Some(1), Some(1), p, SwapReadPointer(Front));
    var first := TwoSteps(before, Two(Holding(v, true, false), Some(1), None, p, SwapLock(Front)), 1,
                          Two(Holding(v, true, false), Some(1), Some(1), p, SwapWritePointer(Front)), s2);
    run := TwoSteps(first, s2, 1, Two(Holding(v, false, true), Some(1), Some(1), p, SwapUnlock(Front)),
                    Two(Holding(v, false, true), Some(1), None, p, SecondCheck(Front)));
    GoesOnFurther(before, first, run, 2, 2);
  }

  /** A clear can miss a value that was queued before it began: here a front of another thread
      exchanges the queues between its two phases. */
  lemma ClearCanMiss<T(!new)>(v: T) returns (run: seq<State<T>>, b: nat, i: nat)
    ensures IsRun(run) && InCall(run, b, i, 0, Clear) && run[i].threads[0] == ClearWriteUnlock
    ensures run[b].q.Queue() == [Item(v, 0)] && run[i].q.Queue() == [Item(v, 0)]
  {
    var before, start := RunStart(v);
    var first := RunFirstPhase(v, start);
    var second := RunToSwap(v, first);
    var third := RunSwap(v, second);
    var q, r := Holding(v, false, true), SecondCheck(Front);
    run := TwoSteps(third, Two(q, Some(1), None, ClearWriteLock, r), 0, Two(q, Some(1), Some(0), ClearWrite, r),
                    Two(q, Some(1), Some(0), ClearWriteUnlock, r));
    GoesOnFurther(start, first, second, 3, 3);
    GoesOnFurther(start, second, third, 6, 4);
    GoesOnFurther(start, third, run, 10, 2);
    b, i := 4, 17;
    Miss(v, before, start, run);
  }

  lemma Miss<T(!new)>(v: T, before: seq<State<T>>, start: seq<State<T>>, run: seq<State<T>>)
    requires |before| == 5 && before[4] == Two(Holding(v, true, false), None, None, Idle, Idle)
    requires GoesOn(before, start, 1) && start[5] == At(before[4], 0, ClearReadLock) && GoesOn(start, run, 12)
    requires run[17] == Two(Holding(v, false, true), Some(1), Some(0), ClearWriteUnlock, SecondCheck(Front))
    ensures InCall(run, 4, 17, 0, Clear) && run[4].q.Queue() == [Item(v, 0)] && run[17].q.Queue() == [Item(v, 0)]
  {
    GoesOnFurther(before, start, run, 1, 12);
    assert run[4] == run[..5][4] && run[5] == run[..6][5];
    assert [] + [Item(v, 0)] == [Item(v, 0)] == [Item(v, 0)] + [];
  }
}
