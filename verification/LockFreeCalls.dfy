/** What single calls on a LockFreeQueue do in the course of any run: which of their own steps
    change the queue, how, and what they answer. */
module LockFreeCalls {
  import opened ClockErrors
  import opened LockFreeQueue

  // ---------------------------------------------------------------- calls in a run

  /** Step m of the run is one of thread t. */
  ghost predicate Acts<T(!new)>(run: seq<State<T>>, m: nat, t: nat) {
    m + 1 < |run| && Moves(run[m], t, run[m + 1])
  }

  /** If step m is one of thread t, it neither pushes nor removes anything. */
  ghost predicate Quiet<T(!new)>(run: seq<State<T>>, m: nat, t: nat) {
    Acts(run, m, t) ==> run[m + 1].q.pushed == run[m].q.pushed && run[m + 1].q.taken == run[m].q.taken
  }

  ghost predicate Silent<T(!new)>(run: seq<State<T>>, b: nat, e: nat, t: nat) {
    forall m :: b <= m < e ==> Quiet(run, m, t)
  }

  /** The effect that a successful call is to have on the queue. */
  ghost predicate Effect<T>(c: Call<T>, q: Ring<T>, q': Ring<T>) {
    match c
    case Push(v) => q'.pushed == q.pushed + [v] && q'.taken == q.taken
    case Remove(op) =>
      && op != Front && |q.taken| < |q.pushed| && q'.pushed == q.pushed
      && q'.taken == q.taken + [LockFreeQueue.Holds(q.pushed[|q.taken|])]
    case Observe(_) => false
  }

  /** From step b on, exactly step k among those of thread t changes the queue, as call c should. */
  ghost predicate Once<T(!new)>(run: seq<State<T>>, b: nat, e: nat, t: nat, c: Call<T>, k: nat) {
    && b < k < e && Acts(run, k, t) && Effect(c, run[k].q, run[k + 1].q)
    && Silent(run, b, k, t) && Silent(run, k + 1, e, t)
  }

  /** Thread t started call c with step b and is still in it at moment i. */
  ghost predicate InCall<T(!new)>(run: seq<State<T>>, b: nat, i: nat, t: nat, c: Call<T>) {
    && b < i < |run| && t in run[b].threads && run[b].threads[t].Idle? && run[b + 1] == At(run[b], t, Begin(c))
    && forall m :: b < m <= i ==> t in run[m].threads && !run[m].threads[t].Idle?
  }

  // ---------------------------------------------------------------- one step of a call

  /** The places that belong to a call. */
  ghost predicate Serves<T>(pc: Pc<T>, c: Call<T>) {
    match pc
    case Idle => false
    case EnqSpin(v) => c == Push(v)
    case EnqReadR(v) => c == Push(v)
    case EnqReadW(v, _) => c == Push(v)
    case EnqTest(v, _, _) => c == Push(v)
    case EnqBeginWrite(v, _, _) => c == Push(v)
    case EnqEndWrite(v, _, _) => c == Push(v)
    case EnqAdd(v, _, _) => c == Push(v)
    case EnqRelease(err) => c.Push? && (err == Success || err == NoSpaceAvailable)
    case DeqSpin(op) => c == Remove(op)
    case DeqReadW(op) => c == Remove(op)
    case DeqReadR(op, _) => c == Remove(op)
    case DeqCopy(op, _, _) => c == Remove(op)
    case DeqAdd(op, _, _, _) => c == Remove(op) && op != Front
    case DeqRelease(op, err, _) => c == Remove(op) && (err == Success || err == NoElement)
    case SeeR(kind) => c == Observe(kind)
    case SeeW(kind, _) => c == Observe(kind)
    case SeeDone(kind, _, _) => c == Observe(kind)
  }

  /** The call has had its effect. */
  predicate HasActed<T>(pc: Pc<T>) {
    pc == EnqRelease(Success) || (pc.DeqRelease? && pc.err == Success && pc.op != Front)
  }

  /** What a poll is about to return is what it took. */
  ghost predicate Returns<T>(pc: Pc<T>, q: Ring<T>) {
    pc.DeqRelease? && pc.op == Poll && q.taken != [] ==> pc.value == q.taken[|q.taken| - 1]
  }

  lemma EnqCallStep<T>(s: State<T>, t: nat, c: Call<T>)
    requires Good(s) && t in s.threads && Serves(s.threads[t], c) && c.Push?
    ensures t in Step(s, t).threads
    ensures var a, b, q, q' := s.threads[t], Step(s, t).threads[t], s.q, Step(s, t).q;
      && (b.Idle? <==> a.EnqRelease?) && (!b.Idle? ==> Serves(b, c))
      && if HasActed(b) then Effect(c, q, q') else q'.pushed == q.pushed && q'.taken == q.taken
  {
  }

  lemma DeqCallStep<T>(s: State<T>, t: nat, c: Call<T>)
    requires Good(s) && Bounded(s) && t in s.threads && Serves(s.threads[t], c) && c.Remove?
    ensures t in Step(s, t).threads
    ensures var a, b, q, q' := s.threads[t], Step(s, t).threads[t], s.q, Step(s, t).q;
      && (b.Idle? <==> a.DeqRelease?) && (!b.Idle? ==> Serves(b, c))
      && if HasActed(b) then Effect(c, q, q') && Returns(b, q') else q'.pushed == q.pushed && q'.taken == q.taken
  {
    assert Local(s.q, s.threads[t]);
  }

  lemma SeeCallStep<T>(s: State<T>, t: nat, c: Call<T>)
    requires Good(s) && t in s.threads && Serves(s.threads[t], c) && c.Observe?
    ensures t in Step(s, t).threads && Step(s, t).q == s.q
    ensures var a, b := s.threads[t], Step(s, t).threads[t]; (b.Idle? <==> a.SeeDone?) && (!b.Idle? ==> Serves(b, c) && !HasActed(b))
  {
  }

  /** A step of a call goes on with the call or returns from its last place; it has the call's
      effect exactly if it then has acted. */
  lemma CallStep<T(!new)>(s: State<T>, t: nat, s': State<T>, c: Call<T>)
    requires Good(s) && Bounded(s) && Moves(s, t, s') && Serves(s.threads[t], c)
    ensures t in s'.threads
    ensures var a, b, q, q' := s.threads[t], s'.threads[t], s.q, s'.q;
      && (b.Idle? <==> a.EnqRelease? || a.DeqRelease? || a.SeeDone?) && (!b.Idle? ==> Serves(b, c))
      && if HasActed(b) then Effect(c, q, q') && Returns(b, q') else q'.pushed == q.pushed && q'.taken == q.taken
  {
    match c
    case Push(_) => EnqCallStep(s, t, c);
    case Remove(_) => DeqCallStep(s, t, c);
    case Observe(_) => SeeCallStep(s, t, c);
  }

  /** A step of another thread is no step of t, or changes nothing. */
  lemma OtherStep<T(!new)>(s: State<T>, u: nat, s': State<T>, t: nat)
    requires Moves(s, u, s') && t != u && t in s.threads
    ensures t in s'.threads && s'.threads[t] == s.threads[t]
    ensures Moves(s, t, s') ==> s'.q == s.q
  {
    MoveGrows(s, u, s');
    if Moves(s, t, s') {
      SamePlace(s, t, s');
    }
  }

  lemma SamePlace<T(!new)>(s: State<T>, t: nat, s': State<T>)
    requires Moves(s, t, s') && t in s'.threads && s'.threads[t] == s.threads[t]
    ensures s'.q == s.q
  {
  }

  // ---------------------------------------------------------------- whole calls

  /** Whatever is known of a call before its step i - 1 is known after it. */
  ghost predicate SoFar<T(!new)>(run: seq<State<T>>, b: nat, i: nat, t: nat, c: Call<T>, k: nat) {
    && InCall(run, b, i, t, c) && Serves(run[i].threads[t], c)
    && (if HasActed(run[i].threads[t]) then Once(run, b, i, t, c, k) && Returns(run[i].threads[t], run[k + 1].q)
        else Silent(run, b, i, t))
  }

  lemma SilentStep<T(!new)>(run: seq<State<T>>, b: nat, i: nat, t: nat)
    requires Silent(run, b, i, t) && Quiet(run, i, t)
    ensures Silent(run, b, i + 1, t)
  {
  }

  /** A quiet step extends what is known of the steps before it. */
  lemma QuietStep<T(!new)>(run: seq<State<T>>, b: nat, i: nat, t: nat, c: Call<T>, k: nat)
    requires Quiet(run, i, t) && b <= i
    ensures Silent(run, b, i, t) ==> Silent(run, b, i + 1, t)
    ensures Once(run, b, i, t, c, k) ==> Once(run, b, i + 1, t, c, k)
  {
    if Silent(run, b, i, t) {
      SilentStep(run, b, i, t);
    }
    if Once(run, b, i, t, c, k) {
      SilentStep(run, k + 1, i, t);
    }
  }

  lemma InCallStep<T(!new)>(run: seq<State<T>>, b: nat, i: nat, t: nat, c: Call<T>)
    requires i + 1 < |run| && InCall(run, b, i, t, c) && t in run[i + 1].threads && !run[i + 1].threads[t].Idle?
    ensures InCall(run, b, i + 1, t, c)
  {
  }

  lemma CallStarts<T(!new)>(run: seq<State<T>>, i: nat, t: nat) returns (c: Call<T>)
    requires 0 < i < |run| && Moves(run[i - 1], t, run[i]) && run[i - 1].threads[t].Idle?
    ensures SoFar(run, i - 1, i, t, c, 0)
  {
    c :| run[i] == At(run[i - 1], t, Begin(c));
    assert Quiet(run, i - 1, t);
  }

  lemma CallGoesOn<T(!new)>(run: seq<State<T>>, b: nat, i: nat, t: nat, c: Call<T>, k: nat) returns (k': nat)
    requires i + 1 < |run| && SoFar(run, b, i, t, c, k) && Moves(run[i], t, run[i + 1])
    requires Good(run[i]) && Bounded(run[i]) && t in run[i + 1].threads && !run[i + 1].threads[t].Idle?
    ensures SoFar(run, b, i + 1, t, c, k')
  {
    CallStep(run[i], t, run[i + 1], c);
    InCallStep(run, b, i, t, c);
    assert !HasActed(run[i].threads[t]);
    if HasActed(run[i + 1].threads[t]) {
      k' := i;
    } else {
      k' := k;
      QuietStep(run, b, i, t, c, k);
    }
  }

  lemma CallWaits<T(!new)>(run: seq<State<T>>, b: nat, i: nat, t: nat, c: Call<T>, k: nat, u: nat)
    requires i + 1 < |run| && SoFar(run, b, i, t, c, k) && Moves(run[i], u, run[i + 1]) && u != t
    ensures SoFar(run, b, i + 1, t, c, k)
  {
    OtherStep(run[i], u, run[i + 1], t);
    InCallStep(run, b, i, t, c);
    QuietStep(run, b, i, t, c, k);
  }

  lemma {:induction false} CallSoFar<T(!new)>(run: seq<State<T>>, i: nat, t: nat) returns (b: nat, c: Call<T>, k: nat)
    requires IsRun(run) && i < |run| && Bounded(run[i]) && t in run[i].threads && !run[i].threads[t].Idle?
    ensures SoFar(run, b, i, t, c, k)
  {
    var u := LastMove(run, i);
    if u == t && run[i - 1].threads[t].Idle? {
      c := CallStarts(run, i, t);
      b, k := i - 1, 0;
    } else {
      b, c, k := CallSoFar(run, i - 1, t);
      if u == t {
        k := CallGoesOn(run, b, i - 1, t, c, k);
      } else {
        CallWaits(run, b, i - 1, t, c, k, u);
      }
    }
  }

  /** The answer of a call, at its last place. */
  ghost predicate Answers<T>(pc: Pc<T>, c: Call<T>) {
    match c
    case Push(_) => pc == EnqRelease(Success) || pc == EnqRelease(NoSpaceAvailable)
    case Remove(op) => pc.DeqRelease? && pc.op == op && (pc.err == Success || pc.err == NoElement)
    case Observe(kind) => pc.SeeDone? && pc.kind == kind
  }

  /** Every call that returns, in every run: a push that answers SUCCESS appended the value it was
      called with, by exactly one of its steps; a pop or poll that answers SUCCESS removed the
      oldest value, by exactly one of its steps, and a poll returns that value; a refused call, a
      front and an observer changed nothing. */
  lemma CompletedCall<T(!new)>(run: seq<State<T>>, i: nat, t: nat) returns (b: nat, c: Call<T>, k: nat)
    requires IsRun(run) && i + 1 < |run| && Bounded(run[i + 1]) && t in run[i].threads && t in run[i + 1].threads
    requires !run[i].threads[t].Idle? && run[i + 1].threads[t].Idle?
    ensures InCall(run, b, i, t, c) && Answers(run[i].threads[t], c)
    ensures var pc := run[i].threads[t];
      if (c.Push? && pc.err == Success) || (c.Remove? && pc.err == Success && c.op != Front)
      then Once(run, b, i + 1, t, c, k)
        && (c == Remove(Poll) ==> pc.value == LockFreeQueue.Holds(run[k].q.pushed[|run[k].q.taken|]))
      else Silent(run, b, i + 1, t)
  {
    var u := LastMove(run, i + 1);
    b, c, k := CallSoFar(run, i, t);
    ReturnStep(run, i, t, c);
    QuietStep(run, b, i, t, c, k);
  }

  /** The step with which a call returns is its last one, and quiet. */
  lemma ReturnStep<T(!new)>(run: seq<State<T>>, i: nat, t: nat, c: Call<T>)
    requires IsRun(run) && i + 1 < |run| && Bounded(run[i + 1]) && t in run[i].threads && t in run[i + 1].threads
    requires run[i + 1].threads[t].Idle? && Serves(run[i].threads[t], c)
    ensures Answers(run[i].threads[t], c) && Quiet(run, i, t)
  {
    var u := LastMove(run, i + 1);
    CallStep(run[i], t, run[i + 1], c);
  }
}
