/**
 * The hand-made reentrant lock Safe_K (the branch without DFW_SAFE_RECURSIVE) as a
 * machine of interleaved atomic steps.
 *
 * Every read and every write of a shared field is one step; `count++` and `count--`
 * are a load and a store.  A thread is a positive number, as pthread_self is never 0;
 * a new lock has owner 0 and count 0.
 */
module SafeLock {

  type Tid = nat
  datatype LockId = Static | Own(obj: nat)

  /** The fields of Safe_K; `holder` is the thread that has the pthread mutex, or 0. */
  datatype K = K(owner: Tid, count: int, holder: Tid)

  const Fresh: K := K(0, 0, 0)

  /** Where a thread is inside Safe_K::lock or Safe_K::unlock. */
  datatype Pc =
    | Idle
    | LockRead(l: LockId)               // tempid == ___m_thread_id
    | LockLoad(l: LockId)               // ___m_count++, the load
    | LockStore(l: LockId, reg: int)    // ___m_count++, the store
    | Acquire(l: LockId)                // pthread_mutex_lock
    | SetOwner(l: LockId)
    | SetCount(l: LockId)
    | UnlockRead(l: LockId)             // tempid != ___m_thread_id
    | UnlockLoad(l: LockId)
    | UnlockStore(l: LockId, reg: int)
    | UnlockTest(l: LockId)             // ___m_count <= 0
    | ClearCount(l: LockId)
    | ClearOwner(l: LockId)
    | Release(l: LockId)                // pthread_mutex_unlock

  /**
   * Shared locks, the control of each thread, and for every thread and lock the number
   * of completed lock calls not yet undone by a completed unlock call.
   */
  datatype State = State(locks: map<LockId, K>, pc: map<Tid, Pc>, bal: map<(Tid, LockId), int>)

  predicate WellTyped(s: State) {
    && 0 !in s.pc
    && (forall t, l :: t in s.pc && l in s.locks ==> (t, l) in s.bal)
    && (forall t :: t in s.pc && s.pc[t] != Idle ==> s.pc[t].l in s.locks)
  }

  // -------------------------------------------------------------------- steps

  function Goto(s: State, t: Tid, pc: Pc): (s': State) {
    s.(pc := s.pc[t := pc])
  }

  function Write(s: State, t: Tid, l: LockId, k: K, pc: Pc): (s': State) {
    s.(locks := s.locks[l := k], pc := s.pc[t := pc])
  }

  /** Return from a call that changed the balance of `t` on `l` by `d`. */
  function Return(s: State, t: Tid, l: LockId, k: K, d: int): (s': State)
    requires (t, l) in s.bal
  {
    State(s.locks[l := k], s.pc[t := Idle], s.bal[(t, l) := s.bal[(t, l)] + d])
  }

  predicate Enabled(s: State, t: Tid)
    requires WellTyped(s)
  {
    t in s.pc && s.pc[t] != Idle && (s.pc[t].Acquire? ==> s.locks[s.pc[t].l].holder == 0)
  }

  /** One atomic step of a thread inside a call. */
  function Step(s: State, t: Tid): (s': State)
    requires WellTyped(s) && Enabled(s, t)
    ensures WellTyped(s')
  {
    var pc := s.pc[t];
    var l := pc.l;
    var k := s.locks[l];
    match pc
    case LockRead(_) => Goto(s, t, if k.owner == t then LockLoad(l) else Acquire(l))
    case LockLoad(_) => Goto(s, t, LockStore(l, k.count))
    case LockStore(_, reg) => Return(s, t, l, k.(count := reg + 1), 1)
    case Acquire(_) => Write(s, t, l, k.(holder := t), SetOwner(l))
    case SetOwner(_) => Write(s, t, l, k.(owner := t), SetCount(l))
    case SetCount(_) => Return(s, t, l, k.(count := 1), 1)
    case UnlockRead(_) => if k.owner != t then Goto(s, t, Idle) else Goto(s, t, UnlockLoad(l))
    case UnlockLoad(_) => Goto(s, t, UnlockStore(l, k.count))
    case UnlockStore(_, reg) => Write(s, t, l, k.(count := reg - 1), UnlockTest(l))
    case UnlockTest(_) => if k.count <= 0 then Goto(s, t, ClearCount(l)) else Return(s, t, l, k, -1)
    case ClearCount(_) => Write(s, t, l, k.(count := 0), ClearOwner(l))
    case ClearOwner(_) => Write(s, t, l, k.(owner := 0), Release(l))
    case Release(_) => Return(s, t, l, k.(holder := 0), -1)
  }

  /** A thread outside enters lock or unlock. */
  predicate IsCall(s: State, t: Tid, s': State) {
    && t in s.pc && s.pc[t] == Idle
    && exists l :: l in s.locks && (s' == Goto(s, t, LockRead(l)) || s' == Goto(s, t, UnlockRead(l)))
  }

  predicate Next(s: State, t: Tid, s': State)
    requires WellTyped(s)
  {
    IsCall(s, t, s') || (Enabled(s, t) && s' == Step(s, t))
  }

  // --------------------------------------------------------------- invariant

  /** The owner field never names a thread that does not have the mutex. */
  predicate LockOk(k: K) {
    && (k.owner != 0 ==> k.owner == k.holder)
    && (k.holder == 0 ==> k == Fresh)
  }

  /**
   * What thread `t` at `pc`, with balance `b`, can rely on about lock `l`.
   */
  predicate ThreadOk(k: K, t: Tid, pc: Pc, l: LockId, b: int) {
    if pc == Idle || pc.l != l || pc.LockRead? || pc.UnlockRead? then
      // outside: the mutex is held exactly as often as the calls balance
      if k.holder == t then k.owner == t && k.count == b && b >= 1 else b == 0
    else match pc
      case Acquire(_) => k.holder != t && b == 0
      case SetOwner(_) => k.holder == t && k.owner == 0 && b == 0
      case SetCount(_) => k.holder == t && k.owner == t && b == 0
      case LockLoad(_) => k.holder == t && k.owner == t && k.count == b && b >= 1
      case LockStore(_, reg) => k.holder == t && k.owner == t && k.count == b == reg && b >= 1
      case UnlockLoad(_) => k.holder == t && k.owner == t && k.count == b && b >= 1
      case UnlockStore(_, reg) => k.holder == t && k.owner == t && k.count == b == reg && b >= 1
      case UnlockTest(_) => k.holder == t && k.owner == t && k.count == b - 1 && b >= 1
      case ClearCount(_) => k.holder == t && k.owner == t && k.count == 0 && b == 1
      case ClearOwner(_) => k.holder == t && k.owner == t && k.count == 0 && b == 1
      case Release(_) => k.holder == t && k.owner == 0 && k.count == 0 && b == 1
  }

  predicate Inv(s: State) {
    && WellTyped(s)
    && (forall l :: l in s.locks ==> LockOk(s.locks[l]))
    && (forall t, l :: t in s.pc && l in s.locks ==> ThreadOk(s.locks[l], t, s.pc[t], l, s.bal[(t, l)]))
  }

  /** A fresh set of locks and threads that are all outside. */
  predicate Init(s: State) {
    && WellTyped(s)
    && (forall l :: l in s.locks ==> s.locks[l] == Fresh)
    && (forall t :: t in s.pc ==> s.pc[t] == Idle)
    && (forall t, l :: t in s.pc && l in s.locks ==> s.bal[(t, l)] == 0)
  }

  lemma {:induction false} InitInv(s: State)
    requires Init(s)
    ensures Inv(s)
  {}

  /** The effect of one step on the lock it works on and on the thread that takes it. */
  lemma {:induction false} StepLocal(s: State, t: Tid)
    requires Inv(s) && Enabled(s, t)
    ensures var l := s.pc[t].l;
            var s' := Step(s, t);
            && s'.locks.Keys == s.locks.Keys && s'.pc.Keys == s.pc.Keys && (t, l) in s'.bal
            && s' == State(s.locks[l := s'.locks[l]], s.pc[t := s'.pc[t]], s.bal[(t, l) := s'.bal[(t, l)]])
            && (s'.pc[t] == Idle || s'.pc[t].l == l)
            && LockOk(s'.locks[l])
            && ThreadOk(s'.locks[l], t, s'.pc[t], l, s'.bal[(t, l)])
            && (s'.locks[l] == s.locks[l] || s.locks[l].holder == t || s.locks[l].holder == 0)
            && (s'.locks[l] == s.locks[l] || s'.locks[l].holder == t || s'.locks[l].holder == 0)
  {
    var l := s.pc[t].l;
    assert ThreadOk(s.locks[l], t, s.pc[t], l, s.bal[(t, l)]);
    assert LockOk(s.locks[l]);
  }

  /** Another thread keeps its view: it was not holding the lock that changed. */
  lemma {:induction false} OtherThreadOk(k: K, k': K, t: Tid, u: Tid, pc: Pc, l: LockId, b: int)
    requires t != u && u != 0 && LockOk(k) && LockOk(k')
    requires k.holder == t || k.holder == 0
    requires k'.holder == t || k'.holder == 0
    requires ThreadOk(k, u, pc, l, b)
    ensures ThreadOk(k', u, pc, l, b)
  {}

  /** Every step of every thread keeps the invariant. */
  lemma {:induction false} StepInv(s: State, t: Tid)
    requires Inv(s) && Enabled(s, t)
    ensures Inv(Step(s, t))
  {
    StepLocal(s, t);
    var s' := Step(s, t);
    var l := s.pc[t].l;
    hide Step;
    forall u, m | u in s'.pc && m in s'.locks
      ensures (u, m) in s'.bal && ThreadOk(s'.locks[m], u, s'.pc[u], m, s'.bal[(u, m)])
    {
      assert ThreadOk(s.locks[m], u, s.pc[u], m, s.bal[(u, m)]);
      if m == l && u != t && s'.locks[l] != s.locks[l] {
        OtherThreadOk(s.locks[l], s'.locks[l], t, u, s.pc[u], l, s.bal[(u, l)]);
      }
    }
  }

  lemma {:induction false} NextInv(s: State, t: Tid, s': State)
    requires Inv(s) && Next(s, t, s')
    ensures Inv(s')
  {
    if Enabled(s, t) && s' == Step(s, t) {
      StepInv(s, t);
    } else {
      hide Step;
      forall u, m | u in s'.pc && m in s'.locks
        ensures ThreadOk(s'.locks[m], u, s'.pc[u], m, s'.bal[(u, m)])
      {
        assert ThreadOk(s.locks[m], u, s.pc[u], m, s.bal[(u, m)]);
      }
    }
  }

  // ------------------------------------------------------------ what it means

  /** `t` is between the return of a lock call and the matching unlock, or holds the mutex inside a call. */
  predicate Inside(s: State, t: Tid, l: LockId)
    requires t in s.pc && (t, l) in s.bal
  {
    s.bal[(t, l)] > 0
  }

  /** Two threads are never inside one lock, and the owner field tells the truth. */
  lemma {:induction false} MutualExclusion(s: State, t: Tid, u: Tid, l: LockId)
    requires Inv(s) && t in s.pc && u in s.pc && l in s.locks
    ensures Inside(s, t, l) && Inside(s, u, l) ==> t == u
    ensures s.locks[l].owner == t ==> s.locks[l].holder == t
    ensures s.pc[t] == Idle ==> (s.locks[l].holder == t <==> Inside(s, t, l))
    ensures s.pc[t] == Idle && Inside(s, t, l) ==> s.locks[l].count == s.bal[(t, l)]
  {
    assert ThreadOk(s.locks[l], t, s.pc[t], l, s.bal[(t, l)]);
    assert ThreadOk(s.locks[l], u, s.pc[u], l, s.bal[(u, l)]);
    assert LockOk(s.locks[l]);
  }

  // -------------------------------------------------------------- refinement

  /** A recursive mutex, as the other branch of Safe_K gets from pthread. */
  datatype Mutex = Mutex(holder: Tid, depth: int)

  predicate MutexLock(m: Mutex, t: Tid, m': Mutex) {
    (m.holder == 0 || m.holder == t) && m' == Mutex(t, m.depth + 1)
  }

  /** An unlock by a thread that does not hold the mutex changes nothing. */
  predicate MutexUnlock(m: Mutex, t: Tid, m': Mutex) {
    if m.holder != t then m' == m
    else m' == if m.depth <= 1 then Mutex(0, 0) else Mutex(t, m.depth - 1)
  }

  /** The recursive mutex a lock stands for: its holder's pending stores do not count yet. */
  function Abstract(s: State, l: LockId): (m: Mutex)
    requires WellTyped(s) && l in s.locks
  {
    var k := s.locks[l];
    if k.holder == 0 || k.holder !in s.pc then Mutex(0, 0)
    else Mutex(k.holder, AbstractDepth(k, s.pc[k.holder], l))
  }

  function AbstractDepth(k: K, pc: Pc, l: LockId): (d: int) {
    if pc != Idle && pc.l == l
      && (pc.SetOwner? || pc.SetCount? || pc.ClearCount? || pc.ClearOwner? || pc.Release?
          || (pc.UnlockTest? && k.count <= 0))
    then 1 else k.count
  }

  /** The operation on the recursive mutex of `l` that the step from `s` to `s'` stands for, if any. */
  predicate Effect(s: State, t: Tid, s': State, l: LockId, m: Mutex, m': Mutex)
    requires t in s.pc && t in s'.pc
  {
    match s.pc[t]
    case LockStore(j, _) => if j == l then MutexLock(m, t, m') else m' == m
    case Acquire(j) => if j == l then MutexLock(m, t, m') else m' == m
    case UnlockStore(j, reg) => if j == l && reg > 1 then MutexUnlock(m, t, m') else m' == m
    case UnlockRead(j) => if j == l && s'.pc[t] == Idle then MutexUnlock(m, t, m') else m' == m
    case Release(j) => if j == l then MutexUnlock(m, t, m') else m' == m
    case _ => m' == m
  }

  /**
   * Every step either leaves the recursive mutex alone or is one of its own operations:
   * a lock at the store of the count or at pthread_mutex_lock, an unlock at the store
   * of a positive count or at pthread_mutex_unlock.  Other locks are not touched.
   */
  lemma {:induction false} StepRefines(s: State, t: Tid, l: LockId)
    requires Inv(s) && Enabled(s, t) && l in s.locks
    ensures var s' := Step(s, t);
            l in s'.locks && Effect(s, t, s', l, Abstract(s, l), Abstract(s', l))
  {
    if s.pc[t].l == l {
      StepRefinesOwn(s, t);
    } else {
      StepRefinesOther(s, t, l);
    }
  }

  lemma {:induction false} StepRefinesOwn(s: State, t: Tid)
    requires Inv(s) && Enabled(s, t)
    ensures var l := s.pc[t].l;
            var s' := Step(s, t);
            l in s'.locks && Effect(s, t, s', l, Abstract(s, l), Abstract(s', l))
  {
    HoldsFor(s, t);
    hide Inv;
  }

  lemma {:induction false} HoldsFor(s: State, t: Tid)
    requires Inv(s) && Enabled(s, t)
    ensures var l := s.pc[t].l;
            (t, l) in s.bal && ThreadOk(s.locks[l], t, s.pc[t], l, s.bal[(t, l)]) && LockOk(s.locks[l])
  {}

  lemma {:induction false} StepRefinesOther(s: State, t: Tid, l: LockId)
    requires Inv(s) && Enabled(s, t) && l in s.locks && s.pc[t].l != l
    ensures var s' := Step(s, t);
            l in s'.locks && Effect(s, t, s', l, Abstract(s, l), Abstract(s', l))
  {
    hide Step;
    StepLocal(s, t);
  }

  // ------------------------------------------------------------- one thread

  /** Running `t` alone, its call returns after at most `n` steps, and leaves the state `s'`. */
  predicate Returns(s: State, t: Tid, n: nat, s': State)
    decreases n
  {
    && WellTyped(s) && t in s.pc
    && if s.pc[t] == Idle then s' == s else n > 0 && Enabled(s, t) && Returns(Step(s, t), t, n - 1, s')
  }

  /** The state with lock `l`, the place of `t` and its balance replaced. */
  function At(s: State, t: Tid, l: LockId, k: K, pc: Pc, b: int): (s': State) {
    State(s.locks[l := k], s.pc[t := pc], s.bal[(t, l) := b])
  }

  /** `t` is outside, and `l` is a lock. */
  predicate Known(s: State, t: Tid, l: LockId) {
    WellTyped(s) && t in s.pc && s.pc[t] == Idle && l in s.locks
  }

  lemma {:induction false} AtTyped(s: State, t: Tid, l: LockId, k: K, pc: Pc, b: int)
    requires Known(s, t, l) && (pc == Idle || pc.l == l)
    ensures WellTyped(At(s, t, l, k, pc, b))
  {}

  /** What a step writes is again the state with three things replaced. */
  lemma {:induction false} WritesAt(s: State, t: Tid, l: LockId, k: K, pc: Pc, b: int)
    requires Known(s, t, l)
    ensures var u := At(s, t, l, k, pc, b);
      && u.locks[l] == k && u.pc[t] == pc && (t, l) in u.bal
      && (forall p :: Goto(u, t, p) == At(s, t, l, k, p, b))
      && (forall k', p :: Write(u, t, l, k', p) == At(s, t, l, k', p, b))
      && (forall k', d :: Return(u, t, l, k', d) == At(s, t, l, k', Idle, b + d))
  {
    hide WellTyped;
  }

  /** One step of `t` changes only its lock, its place and its balance. */
  lemma {:induction false} StepAt(s: State, t: Tid, l: LockId, k: K, pc: Pc, b: int)
    requires Known(s, t, l) && pc != Idle && pc.l == l && (pc.Acquire? ==> k.holder == 0)
    ensures WellTyped(At(s, t, l, k, pc, b)) && Enabled(At(s, t, l, k, pc, b), t)
    ensures var r := Step(At(s, t, l, k, pc, b), t);
      && (pc.LockRead? && k.owner == t ==> r == At(s, t, l, k, LockLoad(l), b))
      && (pc.LockRead? && k.owner != t ==> r == At(s, t, l, k, Acquire(l), b))
      && (pc.LockLoad? ==> r == At(s, t, l, k, LockStore(l, k.count), b))
      && (pc.LockStore? ==> r == At(s, t, l, k.(count := pc.reg + 1), Idle, b + 1))
      && (pc.Acquire? ==> r == At(s, t, l, k.(holder := t), SetOwner(l), b))
      && (pc.SetOwner? ==> r == At(s, t, l, k.(owner := t), SetCount(l), b))
      && (pc.SetCount? ==> r == At(s, t, l, k.(count := 1), Idle, b + 1))
  {
    AtTyped(s, t, l, k, pc, b);
    WritesAt(s, t, l, k, pc, b);
    KnownThread(s, t, l, k, pc, b);
    hide WellTyped, At, Goto, Write, Return, Known;
  }

  lemma {:induction false} UnlockAt(s: State, t: Tid, l: LockId, k: K, pc: Pc, b: int)
    requires Known(s, t, l) && pc != Idle && pc.l == l && (pc.Acquire? ==> k.holder == 0)
    ensures WellTyped(At(s, t, l, k, pc, b)) && Enabled(At(s, t, l, k, pc, b), t)
    ensures var r := Step(At(s, t, l, k, pc, b), t);
      && (pc.UnlockRead? && k.owner != t ==> r == At(s, t, l, k, Idle, b))
      && (pc.UnlockRead? && k.owner == t ==> r == At(s, t, l, k, UnlockLoad(l), b))
      && (pc.UnlockLoad? ==> r == At(s, t, l, k, UnlockStore(l, k.count), b))
      && (pc.UnlockStore? ==> r == At(s, t, l, k.(count := pc.reg - 1), UnlockTest(l), b))
      && (pc.UnlockTest? && k.count > 0 ==> r == At(s, t, l, k, Idle, b - 1))
      && (pc.UnlockTest? && k.count <= 0 ==> r == At(s, t, l, k, ClearCount(l), b))
      && (pc.ClearCount? ==> r == At(s, t, l, k.(count := 0), ClearOwner(l), b))
      && (pc.ClearOwner? ==> r == At(s, t, l, k.(owner := 0), Release(l), b))
      && (pc.Release? ==> r == At(s, t, l, k.(holder := 0), Idle, b - 1))
  {
    AtTyped(s, t, l, k, pc, b);
    WritesAt(s, t, l, k, pc, b);
    KnownThread(s, t, l, k, pc, b);
    hide WellTyped, At, Goto, Write, Return, Known;
  }

  lemma {:induction false} KnownThread(s: State, t: Tid, l: LockId, k: K, pc: Pc, b: int)
    requires Known(s, t, l)
    ensures t in At(s, t, l, k, pc, b).pc
  {}

  /** The lock once `t` has it `depth` times. */
  function LockedBy(t: Tid, depth: int): (k: K) {
    if depth <= 0 then Fresh else K(t, depth, t)
  }

  /** What `t` outside knows of a lock. */
  lemma {:induction false} LoneView(s: State, t: Tid, l: LockId)
    requires Inv(s) && t in s.pc && s.pc[t] == Idle && l in s.locks
    ensures Known(s, t, l) && (t, l) in s.bal && t != 0
    ensures var k, b := s.locks[l], s.bal[(t, l)];
      && (k.holder == t ==> b >= 1 && k == K(t, b, t)) && (k.holder != t ==> k.owner != t && b == 0)
      && (k.holder == 0 ==> k == Fresh)
      && (forall pc :: Goto(s, t, pc) == At(s, t, l, k, pc, b)) && At(s, t, l, k, Idle, b) == s
  {
    assert ThreadOk(s.locks[l], t, s.pc[t], l, s.bal[(t, l)]) && LockOk(s.locks[l]);
    hide Inv, WellTyped;
  }

  /** A call of lock on a mutex that is free or its own returns in four steps, with the lock once more. */
  lemma {:induction false} LoneLock(s: State, t: Tid, l: LockId)
    requires Inv(s) && t in s.pc && s.pc[t] == Idle && l in s.locks && (s.locks[l].holder == 0 || s.locks[l].holder == t)
    ensures (t, l) in s.bal
    ensures var b := s.bal[(t, l)];
            Returns(Goto(s, t, LockRead(l)), t, 4, At(s, t, l, LockedBy(t, b + 1), Idle, b + 1))
  {
    hide Inv, Step, WellTyped, Enabled, Known, Goto;
    LoneView(s, t, l);
    var k, b := s.locks[l], s.bal[(t, l)];
    StepAt(s, t, l, k, LockRead(l), b);
    if k.owner == t { LockAgain(s, t, l, k, b); } else { LockFree(s, t, l, k); }
  }

  lemma {:induction false} LockAgain(s: State, t: Tid, l: LockId, k: K, b: int)
    requires Known(s, t, l) && b >= 1 && k == K(t, b, t)
    ensures Returns(At(s, t, l, k, LockLoad(l), b), t, 3, At(s, t, l, LockedBy(t, b + 1), Idle, b + 1))
  {
    hide Step, WellTyped, Enabled, Known;
    StepAt(s, t, l, k, LockLoad(l), b);
    StepAt(s, t, l, k, LockStore(l, k.count), b);
    AtTyped(s, t, l, K(t, b + 1, t), Idle, b + 1);
    KnownThread(s, t, l, K(t, b + 1, t), Idle, b + 1);
  }

  lemma {:induction false} LockFree(s: State, t: Tid, l: LockId, k: K)
    requires Known(s, t, l) && k == Fresh
    ensures Returns(At(s, t, l, k, Acquire(l), 0), t, 3, At(s, t, l, LockedBy(t, 1), Idle, 1))
  {
    hide Step, WellTyped, Enabled, Known;
    StepAt(s, t, l, k, Acquire(l), 0);
    StepAt(s, t, l, K(0, 0, t), SetOwner(l), 0);
    StepAt(s, t, l, K(t, 0, t), SetCount(l), 0);
    AtTyped(s, t, l, K(t, 1, t), Idle, 1);
    KnownThread(s, t, l, K(t, 1, t), Idle, 1);
  }

  /** A call of unlock returns in seven steps: with the lock once less, or unchanged without it. */
  lemma {:induction false} LoneUnlock(s: State, t: Tid, l: LockId)
    requires Inv(s) && t in s.pc && s.pc[t] == Idle && l in s.locks
    ensures (t, l) in s.bal
    ensures var b := s.bal[(t, l)];
            Returns(Goto(s, t, UnlockRead(l)), t, 7,
                    if s.locks[l].holder == t then At(s, t, l, LockedBy(t, b - 1), Idle, b - 1) else s)
  {
    hide Inv, Step, WellTyped, Enabled, Known, Goto;
    LoneView(s, t, l);
    var k, b := s.locks[l], s.bal[(t, l)];
    AtTyped(s, t, l, k, Idle, b);
    UnlockAt(s, t, l, k, UnlockRead(l), b);
    if k.owner == t { UnlockOwn(s, t, l, k, b); }
  }

  lemma {:induction false} UnlockOwn(s: State, t: Tid, l: LockId, k: K, b: int)
    requires Known(s, t, l) && b >= 1 && k == K(t, b, t)
    ensures Returns(At(s, t, l, k, UnlockLoad(l), b), t, 6, At(s, t, l, LockedBy(t, b - 1), Idle, b - 1))
  {
    var k' := K(t, b - 1, t);
    hide Step, WellTyped, Enabled, Known;
    UnlockAt(s, t, l, k, UnlockLoad(l), b);
    UnlockAt(s, t, l, k, UnlockStore(l, k.count), b);
    UnlockAt(s, t, l, k', UnlockTest(l), b);
    AtTyped(s, t, l, k', Idle, b - 1);
    KnownThread(s, t, l, k', Idle, b - 1);
    if b == 1 {
      UnlockLast(s, t, l, k');
    } else {
      IdleAt(s, t, l, k', b - 1);
    }
  }

  lemma {:induction false} UnlockLast(s: State, t: Tid, l: LockId, k: K)
    requires Known(s, t, l) && k == K(t, 0, t)
    ensures Returns(At(s, t, l, k, ClearCount(l), 1), t, 3, At(s, t, l, Fresh, Idle, 0))
  {
    hide Step, WellTyped, Enabled, Known;
    UnlockAt(s, t, l, k, ClearCount(l), 1);
    UnlockAt(s, t, l, k, ClearOwner(l), 1);
    UnlockAt(s, t, l, K(0, 0, t), Release(l), 1);
    AtTyped(s, t, l, Fresh, Idle, 0);
    IdleAt(s, t, l, Fresh, 0);
  }

  lemma {:induction false} IdleAt(s: State, t: Tid, l: LockId, k: K, b: int)
    requires Known(s, t, l)
    ensures t in At(s, t, l, k, Idle, b).pc && At(s, t, l, k, Idle, b).pc[t] == Idle
  {}

  // -------------------------------------------------------------------- runs

  ghost predicate SomeNext(s: State, s': State) {
    WellTyped(s) && exists t :: Next(s, t, s')
  }

  /** Any interleaving of the steps of any number of threads. */
  ghost predicate IsRun(run: seq<State>) {
    && run != [] && Init(run[0])
    && forall i :: 0 <= i < |run| - 1 ==> SomeNext(run[i], run[i + 1])
  }

  lemma {:induction false} RunInv(run: seq<State>, i: nat)
    requires IsRun(run) && i < |run|
    ensures Inv(run[i])
    ensures run[i].locks.Keys == run[0].locks.Keys
  {
    if i == 0 {
      InitInv(run[0]);
    } else {
      RunInv(run, i - 1);
      assert SomeNext(run[i - 1], run[i]);
      var t :| Next(run[i - 1], t, run[i]);
      NextInv(run[i - 1], t, run[i]);
      if Enabled(run[i - 1], t) && run[i] == Step(run[i - 1], t) {
        StepLocal(run[i - 1], t);
      }
    }
  }

  /** A step of the recursive mutex: nothing, a lock or an unlock by some thread. */
  ghost predicate MutexStep(m: Mutex, m': Mutex) {
    m' == m || exists t :: MutexLock(m, t, m') || MutexUnlock(m, t, m')
  }

  /** Seen through the abstraction, every run is a run of a recursive mutex that starts free. */
  lemma {:induction false} RunRefines(run: seq<State>, l: LockId, i: nat)
    requires IsRun(run) && i < |run| && l in run[0].locks
    ensures Inv(run[i]) && l in run[i].locks
    ensures i == 0 ==> Abstract(run[i], l) == Mutex(0, 0)
    ensures i > 0 ==> Inv(run[i - 1]) && l in run[i - 1].locks
                      && MutexStep(Abstract(run[i - 1], l), Abstract(run[i], l))
  {
    RunInv(run, i);
    if i > 0 {
      RunInv(run, i - 1);
      var s, s' := run[i - 1], run[i];
      assert SomeNext(s, s');
      var t :| Next(s, t, s');
      if Enabled(s, t) && s' == Step(s, t) {
        StepRefines(s, t, l);
        EffectIsStep(s, t, s', l, Abstract(s, l), Abstract(s', l));
      } else {
        CallKeepsMutex(s, t, s', l);
      }
    }
  }

  lemma {:induction false} EffectIsStep(s: State, t: Tid, s': State, l: LockId, m: Mutex, m': Mutex)
    requires t in s.pc && t in s'.pc && Effect(s, t, s', l, m, m')
    ensures MutexStep(m, m')
  {}

  lemma {:induction false} CallKeepsMutex(s: State, t: Tid, s': State, l: LockId)
    requires Inv(s) && Inv(s') && IsCall(s, t, s') && l in s.locks
    ensures l in s'.locks && Abstract(s', l) == Abstract(s, l)
  {}
}
