/**
 * Safe (a lock created on first use, under one static lock) and the reference count of
 * Object, on top of the Safe_K machine.  A thread outside the lock code may call lock,
 * unlock, incRefCount or decRefCount of any object, in any order and nesting.
 */
module SafeObject {
  import opened SafeLock

  type Obj = nat

  /** What a thread does once it has the object's lock. */
  datatype Cont = User | Adjust(d: int)

  /** Where a thread is above Safe_K.  The Wait states last until the Safe_K call returns. */
  datatype Up =
    | Out
    | WaitStatic(o: Obj, k: Cont)     // ___static_safe_k.lock()
    | Create(o: Obj, k: Cont)         // ___safe_k = new Safe_K()
    | Unstatic(o: Obj, k: Cont)
    | WaitUnstatic(o: Obj, k: Cont)   // ___static_safe_k.unlock()
    | WaitInner(o: Obj, k: Cont)      // ___safe_k->lock()
    | RefLoad(o: Obj, d: int)         // ___m_ref_count++ or --, the load
    | RefStore(o: Obj, d: int, reg: int)
    | SafeUnlock(o: Obj)              // Safe::unlock
    | WaitOut(o: Obj)                 // ___safe_k->unlock()

  /**
   * `made` counts the Safe_K objects created for an object, `ref` is ___m_ref_count.
   */
  datatype World = World(k: State, up: map<Tid, Up>, made: map<Obj, nat>, ref: map<Obj, int>)

  ghost predicate WorldTyped(w: World) {
    && WellTyped(w.k)
    && w.up.Keys == w.k.pc.Keys
    && w.made.Keys == w.ref.Keys
    && Static in w.k.locks
    && (forall o :: o in w.made <==> Own(o) in w.k.locks)
    && (forall t :: t in w.up && w.up[t] != Out ==> w.up[t].o in w.made)
  }

  // -------------------------------------------------------------------- steps

  datatype Op = Lock | Unlock | Inc | Dec

  /** What one step writes: the thread's place, the Safe_K call it enters (Idle for none), the object's fields. */
  datatype Local = Local(up: Up, pc: Pc, made: nat, ref: int)

  /** A thread outside starts an operation on an object. */
  function Begin(op: Op, o: Obj, made: nat, ref: int): (n: Local) {
    match op
    case Lock => Local(WaitStatic(o, User), LockRead(Static), made, ref)
    case Inc => Local(WaitStatic(o, Adjust(1)), LockRead(Static), made, ref)
    case Dec => Local(WaitStatic(o, Adjust(-1)), LockRead(Static), made, ref)
    case Unlock => Local(SafeUnlock(o), Idle, made, ref)
  }

  /** The next step of a thread that is between Safe_K calls. */
  function Continue(u: Up, made: nat, ref: int): (n: Local)
    requires u != Out
  {
    match u
    case WaitStatic(o, k) => Local(if made == 0 then Create(o, k) else Unstatic(o, k), Idle, made, ref)
    case Create(o, k) => Local(Unstatic(o, k), Idle, made + 1, ref)
    case Unstatic(o, k) => Local(WaitUnstatic(o, k), UnlockRead(Static), made, ref)
    case WaitUnstatic(o, k) => Local(WaitInner(o, k), LockRead(Own(o)), made, ref)
    case WaitInner(o, k) => Local(if k == User then Out else RefLoad(o, k.d), Idle, made, ref)
    case RefLoad(o, d) => Local(RefStore(o, d, ref), Idle, made, ref)
    case RefStore(o, d, reg) => Local(SafeUnlock(o), Idle, made, reg + d)
    case SafeUnlock(o) =>
      if made == 0 then Local(Out, Idle, made, ref) else Local(WaitOut(o), UnlockRead(Own(o)), made, ref)
    case WaitOut(_) => Local(Out, Idle, made, ref)
  }

  /** Writes back; a Safe_K that has just been created is fresh. */
  ghost function Apply(w: World, t: Tid, o: Obj, n: Local): (w': World)
    requires WorldTyped(w) && t in w.up && o in w.made
  {
    World(State(if n.made == w.made[o] then w.k.locks else w.k.locks[Own(o) := Fresh], w.k.pc[t := n.pc], w.k.bal),
          w.up[t := n.up], w.made[o := n.made], w.ref[o := n.ref])
  }

  ghost function Advance(w: World, t: Tid): (w': World)
    requires WorldTyped(w) && t in w.up && w.up[t] != Out
  {
    var o := w.up[t].o;
    Apply(w, t, o, Continue(w.up[t], w.made[o], w.ref[o]))
  }

  ghost function Start(w: World, t: Tid, op: Op, o: Obj): (w': World)
    requires WorldTyped(w) && t in w.up && o in w.made
  {
    Apply(w, t, o, Begin(op, o, w.made[o], w.ref[o]))
  }

  ghost predicate WorldNext(w: World, t: Tid, w': World)
    requires WorldTyped(w)
  {
    t in w.up
    && if w.k.pc[t] != Idle then Enabled(w.k, t) && w' == w.(k := Step(w.k, t))
       else if w.up[t] != Out then w' == Advance(w, t)
       else exists op, o :: o in w.made && w' == Start(w, t, op, o)
  }

  // --------------------------------------------------------------- invariant

  predicate IsLockPc(pc: Pc) {
    pc.LockRead? || pc.LockLoad? || pc.LockStore? || pc.Acquire? || pc.SetOwner? || pc.SetCount?
  }

  /** Inside a Safe_K::lock of `l`. */
  predicate Locking(pc: Pc, l: LockId) {
    pc != Idle && pc.l == l && IsLockPc(pc)
  }

  /** Inside a Safe_K::unlock of `l`. */
  predicate Unlocking(pc: Pc, l: LockId) {
    pc != Idle && pc.l == l && !IsLockPc(pc)
  }

  /** Thread `t`: which locks it has at each place.  `stat` and `own` are its balances. */
  predicate UpOk(u: Up, pc: Pc, stat: int, own: int, made: nat, ref: int) {
    match u
    case Out => pc == Idle && stat == 0
    case WaitStatic(o, k) => GoodCont(k) && if pc == Idle then stat == 1 else Locking(pc, Static) && stat == 0
    case Create(o, k) => GoodCont(k) && pc == Idle && stat == 1 && made == 0
    case Unstatic(o, k) => GoodCont(k) && pc == Idle && stat == 1 && made == 1
    case WaitUnstatic(o, k) =>
      GoodCont(k) && made == 1 && if pc == Idle then stat == 0 else Unlocking(pc, Static) && stat == 1
    case WaitInner(o, k) => GoodCont(k) && made == 1 && stat == 0 && if pc == Idle then own >= 1 else Locking(pc, Own(o))
    case RefLoad(o, d) => (d == 1 || d == -1) && made == 1 && stat == 0 && pc == Idle && own >= 1
    case RefStore(o, d, reg) => (d == 1 || d == -1) && made == 1 && stat == 0 && pc == Idle && own >= 1 && reg == ref
    case SafeUnlock(o) => stat == 0 && pc == Idle
    case WaitOut(o) => made == 1 && stat == 0 && (pc == Idle || Unlocking(pc, Own(o)))
  }

  predicate GoodCont(k: Cont) {
    k == User || k.d == 1 || k.d == -1
  }

  ghost predicate ThreadGood(w: World, t: Tid)
    requires WorldTyped(w) && t in w.up
  {
    if w.up[t] == Out then UpOk(Out, w.k.pc[t], w.k.bal[(t, Static)], 0, 0, 0)
    else
      var o := w.up[t].o;
      UpOk(w.up[t], w.k.pc[t], w.k.bal[(t, Static)], w.k.bal[(t, Own(o))], w.made[o], w.ref[o])
  }

  /** At most one Safe_K, untouched before it exists. */
  ghost predicate ObjectGood(w: World, o: Obj)
    requires WorldTyped(w) && o in w.made
  {
    && w.made[o] <= 1
    && (w.made[o] == 0 ==> w.k.locks[Own(o)] == Fresh)
  }

  ghost predicate WorldInv(w: World) {
    && WorldTyped(w) && Inv(w.k)
    && (forall t :: t in w.up ==> ThreadGood(w, t))
    && (forall o :: o in w.made ==> ObjectGood(w, o))
  }

  ghost predicate WorldInit(w: World) {
    && WorldTyped(w) && Init(w.k)
    && (forall t :: t in w.up ==> w.up[t] == Out)
    && (forall o :: o in w.made ==> w.made[o] == 0 && w.ref[o] == 0)
  }

  lemma {:induction false} WorldInitInv(w: World)
    requires WorldInit(w)
    ensures WorldInv(w)
  {
    InitInv(w.k);
  }

  /** What a Safe_K step does to the balance and the control of its thread. */
  lemma {:induction false} StepBalance(s: State, t: Tid)
    requires Inv(s) && Enabled(s, t)
    ensures var l := s.pc[t].l;
            var s' := Step(s, t);
            && (t, l) in s.bal && (t, l) in s'.bal
            && (s'.pc[t] != Idle ==> s'.pc[t].l == l && (IsLockPc(s'.pc[t]) <==> IsLockPc(s.pc[t]))
                                     && s'.bal[(t, l)] == s.bal[(t, l)])
            && (s'.pc[t] == Idle && IsLockPc(s.pc[t]) ==> s'.bal[(t, l)] == s.bal[(t, l)] + 1 && s'.bal[(t, l)] >= 1)
            && (s'.pc[t] == Idle && !IsLockPc(s.pc[t]) && s.bal[(t, l)] >= 1 ==> s'.bal[(t, l)] == s.bal[(t, l)] - 1)
  {
    HoldsFor(s, t);
    hide Inv;
  }

  /** A thread inside Safe_K stays consistent with its place above it. */
  lemma {:induction false} UpOkInner(u: Up, pc: Pc, pc': Pc, stat: int, stat': int, own: int, own': int, made: nat, ref: int)
    requires u != Out && pc != Idle && UpOk(u, pc, stat, own, made, ref)
    requires pc.l != Static ==> stat' == stat
    requires pc.l != Own(u.o) ==> own' == own
    requires pc' != Idle ==> pc'.l == pc.l && (IsLockPc(pc') <==> IsLockPc(pc))
                             && (pc.l == Static ==> stat' == stat) && (pc.l == Own(u.o) ==> own' == own)
    requires pc' == Idle && IsLockPc(pc) ==> (pc.l == Static ==> stat' == stat + 1) && (pc.l == Own(u.o) ==> own' >= 1)
    requires pc' == Idle && !IsLockPc(pc) && pc.l == Static && stat >= 1 ==> stat' == stat - 1
    ensures UpOk(u, pc', stat', own', made, ref)
  {}

  lemma {:induction false} InnerSelf(w: World, t: Tid)
    requires WorldInv(w) && Enabled(w.k, t)
    ensures var w' := w.(k := Step(w.k, t));
            WorldTyped(w') && t in w'.up && ThreadGood(w', t)
  {
    StepLocal(w.k, t);
    StepBalance(w.k, t);
    hide Step, Inv, UpOk, IsLockPc;
    assert ThreadGood(w, t);
    var w' := w.(k := Step(w.k, t));
    OutIsIdle(w, t);
    var o := w.up[t].o;
    UpOkInner(w.up[t], w.k.pc[t], w'.k.pc[t], w.k.bal[(t, Static)], w'.k.bal[(t, Static)],
              w.k.bal[(t, Own(o))], w'.k.bal[(t, Own(o))], w.made[o], w.ref[o]);
  }

  lemma {:induction false} OutIsIdle(w: World, t: Tid)
    requires WorldTyped(w) && t in w.up && ThreadGood(w, t)
    ensures w.k.pc[t] != Idle ==> w.up[t] != Out
    ensures w.k.pc[t] != Idle ==> w.k.pc[t].l == Static || (w.k.pc[t].l == Own(w.up[t].o) && w.made[w.up[t].o] == 1)
  {}

  lemma {:induction false} InnerOther(w: World, t: Tid, u: Tid)
    requires WorldInv(w) && Enabled(w.k, t) && u in w.up && u != t
    ensures var w' := w.(k := Step(w.k, t));
            WorldTyped(w') && u in w'.up && ThreadGood(w', u)
  {
    StepLocal(w.k, t);
    hide Step, Inv, UpOk;
    assert ThreadGood(w, u);
  }

  lemma {:induction false} InnerObject(w: World, t: Tid, o: Obj)
    requires WorldInv(w) && Enabled(w.k, t) && o in w.made
    ensures var w' := w.(k := Step(w.k, t));
            WorldTyped(w') && ObjectGood(w', o)
  {
    StepLocal(w.k, t);
    hide Step, Inv, UpOk;
    assert ThreadGood(w, t) && ObjectGood(w, o);
    OutIsIdle(w, t);
  }

  lemma {:induction false} InnerStepInv(w: World, t: Tid)
    requires WorldInv(w) && Enabled(w.k, t)
    ensures WorldInv(w.(k := Step(w.k, t)))
  {
    var w' := w.(k := Step(w.k, t));
    StepInv(w.k, t);
    hide Step, Inv, ThreadGood, ObjectGood;
    InnerSelf(w, t);
    forall o | o in w'.made ensures ObjectGood(w', o) {
      InnerObject(w, t, o);
    }
    forall u | u in w'.up ensures ThreadGood(w', u) {
      if u != t { InnerOther(w, t, u); }
    }
  }

  /** What makes a write-back good, apart from the threads other than `t`. */
  ghost predicate GoodWrite(w: World, t: Tid, o: Obj, n: Local)
    requires WorldTyped(w) && t in w.up && o in w.made
  {
    && w.k.pc[t] == Idle
    && (n.up == Out || n.up.o == o)
    && (n.pc == Idle || ((n.pc.LockRead? || n.pc.UnlockRead?) && n.pc.l in {Static, Own(o)}))
    && UpOk(n.up, n.pc, w.k.bal[(t, Static)], w.k.bal[(t, Own(o))], n.made, n.ref)
    && (n.made == w.made[o] || (n.made == 1 && w.made[o] == 0 && w.k.locks[Own(o)] == Fresh))
    && (n.made != w.made[o] ==> w.k.bal[(t, Static)] >= 1)
    && (n.ref != w.ref[o] ==> w.k.bal[(t, Own(o))] >= 1)
  }

  lemma {:induction false} ContinueGood(w: World, t: Tid)
    requires WorldTyped(w) && t in w.up && w.up[t] != Out && w.k.pc[t] == Idle
    requires ThreadGood(w, t) && ObjectGood(w, w.up[t].o)
    ensures GoodWrite(w, t, w.up[t].o, Continue(w.up[t], w.made[w.up[t].o], w.ref[w.up[t].o]))
  {
    hide WellTyped;
  }

  lemma {:induction false} BeginGood(w: World, t: Tid, op: Op, o: Obj)
    requires WorldTyped(w) && t in w.up && w.up[t] == Out && w.k.pc[t] == Idle && o in w.made
    requires ThreadGood(w, t)
    ensures GoodWrite(w, t, o, Begin(op, o, w.made[o], w.ref[o]))
  {
    hide WellTyped;
  }

  lemma {:induction false} ApplyInvK(w: World, t: Tid, o: Obj, n: Local)
    requires WorldTyped(w) && Inv(w.k) && t in w.up && o in w.made && GoodWrite(w, t, o, n)
    ensures var s' := Apply(w, t, o, n).k;
            Inv(s') && WellTyped(s') && s'.locks == w.k.locks
  {
    hide UpOk, WellTyped;
    var s, s' := w.k, Apply(w, t, o, n).k;
    assert s'.locks == s.locks;
    if n.pc == Idle {
      assert s'.pc == s.pc && s' == s;
    } else {
      assert IsCall(s, t, s');
      NextInv(s, t, s');
    }
    hide Inv;
  }

  lemma {:induction false} ApplyTyped(w: World, t: Tid, o: Obj, n: Local)
    requires WorldTyped(w) && Inv(w.k) && t in w.up && o in w.made && GoodWrite(w, t, o, n)
    ensures WorldTyped(Apply(w, t, o, n)) && Inv(Apply(w, t, o, n).k)
  {
    ApplyInvK(w, t, o, n);
    hide Inv, WellTyped, UpOk;
  }

  /** Another thread keeps its view: it is elsewhere, or the lock it has keeps `t` out. */
  lemma {:induction false} ApplyOther(w: World, t: Tid, o: Obj, n: Local, u: Tid)
    requires WorldTyped(w) && Inv(w.k) && t in w.up && o in w.made && GoodWrite(w, t, o, n)
    requires WorldTyped(Apply(w, t, o, n)) && u in w.up && u != t && ThreadGood(w, u)
    ensures ThreadGood(Apply(w, t, o, n), u)
  {
    MutualExclusion(w.k, t, u, Static);
    MutualExclusion(w.k, t, u, Own(o));
    hide Inv, WellTyped;
    if w.up[u] == Out || w.up[u].o != o {
      hide UpOk;
    }
  }

  lemma {:induction false} ApplyObject(w: World, t: Tid, o: Obj, n: Local, p: Obj)
    requires WorldTyped(w) && t in w.up && o in w.made && GoodWrite(w, t, o, n)
    requires WorldTyped(Apply(w, t, o, n)) && p in w.made && ObjectGood(w, o) && ObjectGood(w, p)
    ensures ObjectGood(Apply(w, t, o, n), p)
  {
    hide WellTyped, UpOk;
  }

  lemma {:induction false} ApplySelf(w: World, t: Tid, o: Obj, n: Local)
    requires WorldTyped(w) && t in w.up && o in w.made && GoodWrite(w, t, o, n)
    requires WorldTyped(Apply(w, t, o, n)) && (n.up == Out ==> UpOk(Out, n.pc, w.k.bal[(t, Static)], 0, 0, 0))
    ensures ThreadGood(Apply(w, t, o, n), t)
  {
    hide WellTyped, UpOk;
  }

  lemma {:induction false} ApplyInv(w: World, t: Tid, o: Obj, n: Local)
    requires WorldInv(w) && t in w.up && o in w.made && GoodWrite(w, t, o, n)
    ensures WorldInv(Apply(w, t, o, n))
  {
    ApplyTyped(w, t, o, n);
    ApplySelf(w, t, o, n);
    hide Inv, WellTyped, UpOk, GoodWrite, ThreadGood, ObjectGood;
    var w' := Apply(w, t, o, n);
    forall p | p in w'.made ensures ObjectGood(w', p) {
      ApplyObject(w, t, o, n, p);
    }
    forall u | u in w'.up ensures ThreadGood(w', u) {
      if u != t { ApplyOther(w, t, o, n, u); }
    }
  }

  /** Every step of every thread keeps the invariant. */
  lemma {:induction false} WorldNextInv(w: World, t: Tid, w': World)
    requires WorldInv(w) && WorldNext(w, t, w')
    ensures WorldInv(w')
  {
    hide Apply, Continue, Begin, Step, GoodWrite, Inv;
    assert ThreadGood(w, t);
    hide ThreadGood, ObjectGood;
    if w.k.pc[t] != Idle {
      InnerStepInv(w, t);
    } else if w.up[t] != Out {
      var o := w.up[t].o;
      assert ObjectGood(w, o);
      ContinueGood(w, t);
      ApplyInv(w, t, o, Continue(w.up[t], w.made[o], w.ref[o]));
    } else {
      var op, o :| o in w.made && w' == Start(w, t, op, o);
      BeginGood(w, t, op, o);
      ApplyInv(w, t, o, Begin(op, o, w.made[o], w.ref[o]));
    }
  }

  // -------------------------------------------------------------------- runs

  ghost predicate SomeWorldNext(w: World, w': World) {
    WorldTyped(w) && exists t :: WorldNext(w, t, w')
  }

  ghost predicate IsWorldRun(run: seq<World>) {
    && run != [] && WorldInit(run[0])
    && forall i :: 0 <= i < |run| - 1 ==> SomeWorldNext(run[i], run[i + 1])
  }

  lemma {:induction false} WorldRunInv(run: seq<World>, i: nat)
    requires IsWorldRun(run) && i < |run|
    ensures WorldInv(run[i])
  {
    if i == 0 {
      WorldInitInv(run[0]);
    } else {
      WorldRunInv(run, i - 1);
      assert SomeWorldNext(run[i - 1], run[i]);
      var t :| WorldNext(run[i - 1], t, run[i]);
      WorldNextInv(run[i - 1], t, run[i]);
    }
  }

  /** Between the load and the store of the reference count of `o`. */
  predicate Storing(w: World, t: Tid, o: Obj) {
    t in w.up && w.up[t].RefStore? && w.up[t].o == o
  }

  /**
   * In every interleaving: an object never gets a second Safe_K, and no two threads are
   * between the load and the store of one reference count.
   */
  lemma {:induction false} RunSafe(run: seq<World>, i: nat, o: Obj)
    requires IsWorldRun(run) && i < |run| && o in run[i].made
    ensures WorldTyped(run[i])
    ensures run[i].made[o] <= 1
    ensures forall t, u :: Storing(run[i], t, o) && Storing(run[i], u, o) ==> t == u
  {
    WorldRunInv(run, i);
    var w := run[i];
    assert ObjectGood(w, o);
    forall t, u | Storing(w, t, o) && Storing(w, u, o)
      ensures t == u
    {
      assert ThreadGood(w, t) && ThreadGood(w, u);
      MutualExclusion(w.k, t, u, Own(o));
    }
  }
}
