/**
 * The calls of lock, unlock, incRefCount and decRefCount, logged as they are made and as
 * they return: what a caller knows, beside the machine that carries them out.
 */
module SafeCalls {
  import opened SafeLock
  import opened SafeObject

  /**
   * `call` is the last call a thread made; `incs` and `decs` count the returned calls on an
   * object, and `held` a thread's returned locks of it that no returned unlock has undone.
   */
  datatype Log = Log(w: World, call: map<Tid, Op>, incs: map<Obj, int>, decs: map<Obj, int>, held: map<(Tid, Obj), int>)

  ghost predicate LogTyped(l: Log) {
    && WorldTyped(l.w)
    && l.call.Keys == l.w.up.Keys
    && l.incs.Keys == l.decs.Keys == l.w.made.Keys
    && (forall t, o :: t in l.w.up && o in l.w.made ==> (t, o) in l.held)
  }

  /** An unlock by a thread that does not hold the lock does nothing. */
  function HeldAfter(op: Op, held: int): (h: int) {
    match op
    case Lock => held + 1
    case Unlock => if held > 0 then held - 1 else held
    case Inc => held
    case Dec => held
  }

  /** The machine has moved on to `w`; when that ends the call of `t`, it is logged. */
  ghost function Proceed(l: Log, t: Tid, w: World): (l': Log)
    requires LogTyped(l) && t in l.w.up && l.w.up[t] != Out && t in w.up
  {
    var o, op := l.w.up[t].o, l.call[t];
    if w.up[t] != Out then l.(w := w)
    else Log(w, l.call, l.incs[o := l.incs[o] + if op == Inc then 1 else 0],
             l.decs[o := l.decs[o] + if op == Dec then 1 else 0],
             l.held[(t, o) := HeldAfter(op, l.held[(t, o)])])
  }

  ghost predicate LogNext(l: Log, t: Tid, l': Log)
    requires LogTyped(l)
  {
    t in l.w.up
    && if l.w.k.pc[t] != Idle then Enabled(l.w.k, t) && l' == l.(w := l.w.(k := Step(l.w.k, t)))
       else if l.w.up[t] != Out then l' == Proceed(l, t, Advance(l.w, t))
       else exists op, o :: o in l.w.made && l' == l.(w := Start(l.w, t, op, o), call := l.call[t := op])
  }

  /** The log follows the machine: it hinders no step. */
  lemma {:induction false} LogFollows(l: Log, t: Tid, w': World) returns (l': Log)
    requires LogTyped(l) && WorldNext(l.w, t, w')
    ensures LogNext(l, t, l') && l'.w == w'
  {
    hide Continue, Begin, Step, WellTyped;
    if l.w.k.pc[t] != Idle {
      l' := l.(w := w');
    } else if l.w.up[t] != Out {
      l' := Proceed(l, t, w');
    } else {
      var op, o :| o in l.w.made && w' == Start(l.w, t, op, o);
      l' := l.(w := w', call := l.call[t := op]);
    }
  }

  lemma {:induction false} LogIsWorld(l: Log, t: Tid, l': Log)
    requires LogTyped(l) && LogNext(l, t, l')
    ensures WorldNext(l.w, t, l'.w)
  {
    hide Apply, Continue, Begin, Step, WellTyped;
  }

  // --------------------------------------------------------------- invariant

  /** A thread is where its call leads. */
  predicate CallOk(u: Up, op: Op) {
    match u
    case Out => true
    case WaitStatic(_, k) => LeadsTo(op, k)
    case Create(_, k) => LeadsTo(op, k)
    case Unstatic(_, k) => LeadsTo(op, k)
    case WaitUnstatic(_, k) => LeadsTo(op, k)
    case WaitInner(_, k) => LeadsTo(op, k)
    case RefLoad(_, d) => LeadsTo(op, Adjust(d))
    case RefStore(_, d, _) => LeadsTo(op, Adjust(d))
    case SafeUnlock(_) => op != Lock
    case WaitOut(_) => op != Lock
  }

  predicate LeadsTo(op: Op, k: Cont) {
    match op
    case Lock => k == User
    case Unlock => false
    case Inc => k == Adjust(1)
    case Dec => k == Adjust(-1)
  }

  /** How often a thread at `u` has the object's lock, when it had it `held` times before its call. */
  function Holds(u: Up, op: Op, idle: bool, held: int): (n: int) {
    match u
    case WaitInner(_, _) => if idle then held + 1 else held
    case RefLoad(_, _) => held + 1
    case RefStore(_, _, _) => held + 1
    case SafeUnlock(_) => if op == Unlock then held else held + 1
    case WaitOut(_) =>
      if op == Unlock then (if idle then HeldAfter(Unlock, held) else held) else if idle then held else held + 1
    case _ => held
  }

  /** Where a thread is as seen from object `o`. */
  function Seen(u: Up, o: Obj): (v: Up) {
    if u != Out && u.o == o then u else Out
  }

  ghost predicate HeldOk(l: Log, t: Tid, o: Obj) {
    && t in l.w.up && t in l.call && t in l.w.k.pc && (t, o) in l.held && (t, Own(o)) in l.w.k.bal
    && l.held[(t, o)] >= 0
    && l.w.k.bal[(t, Own(o))] == Holds(Seen(l.w.up[t], o), l.call[t], l.w.k.pc[t] == Idle, l.held[(t, o)])
  }

  /** Behind the store of the reference count, or in an unlock. */
  predicate Behind(u: Up, o: Obj) {
    (u.SafeUnlock? || u.WaitOut?) && u.o == o
  }

  /** The threads that have changed the count of `o` by a call `op` that has not returned. */
  function Stored(up: map<Tid, Up>, call: map<Tid, Op>, o: Obj, op: Op): (ts: set<Tid>) {
    set t | t in up && t in call && call[t] == op && Behind(up[t], o)
  }

  ghost predicate CountOk(l: Log, o: Obj) {
    && o in l.w.ref && o in l.incs && o in l.decs
    && l.w.ref[o] == l.incs[o] - l.decs[o] + |Stored(l.w.up, l.call, o, Inc)| - |Stored(l.w.up, l.call, o, Dec)|
  }

  ghost predicate CallsOk(l: Log, t: Tid) {
    t in l.w.up && t in l.call && CallOk(l.w.up[t], l.call[t])
  }

  ghost predicate AllLogged(l: Log) {
    && (forall t :: t in l.w.up ==> CallsOk(l, t))
    && (forall t, o :: t in l.w.up && o in l.w.made ==> HeldOk(l, t, o))
    && (forall o :: o in l.w.made ==> CountOk(l, o))
  }

  ghost predicate LogInv(l: Log) {
    LogTyped(l) && WorldInv(l.w) && AllLogged(l)
  }

  ghost predicate LogInit(l: Log) {
    && LogTyped(l) && WorldInit(l.w)
    && (forall o :: o in l.w.made ==> l.incs[o] == 0 && l.decs[o] == 0)
    && (forall t, o :: t in l.w.up && o in l.w.made ==> l.held[(t, o)] == 0)
  }

  lemma {:induction false} LogInitInv(l: Log)
    requires LogInit(l)
    ensures LogInv(l)
  {
    WorldInitInv(l.w);
    hide WorldInv;
    forall o | o in l.w.made ensures CountOk(l, o) {
      assert Stored(l.w.up, l.call, o, Inc) == {} && Stored(l.w.up, l.call, o, Dec) == {};
    }
  }

  // ----------------------------------------------------------- one step

  function One(b: bool): (n: nat) {
    if b then 1 else 0
  }

  /** A step of `t` moves no one else in or out of the threads that have stored. */
  lemma {:induction false} StoredStep(up: map<Tid, Up>, v: Up, call: map<Tid, Op>, q: Op, t: Tid, o: Obj, op: Op)
    requires t in up && t in call
    ensures |Stored(up[t := v], call[t := q], o, op)|
         == |Stored(up, call, o, op)| + One(q == op && Behind(v, o)) - One(call[t] == op && Behind(up[t], o))
  {
    StoredMembers(up, v, call, q, t, o, op);
    hide Behind, Stored;
    var a, b := Stored(up, call, o, op), Stored(up[t := v], call[t := q], o, op);
    WithOrWithout(a, t);
    WithOrWithout(b, t);
  }

  lemma {:induction false} StoredMembers(up: map<Tid, Up>, v: Up, call: map<Tid, Op>, q: Op, t: Tid, o: Obj, op: Op)
    requires t in up && t in call
    ensures var a, b := Stored(up, call, o, op), Stored(up[t := v], call[t := q], o, op);
            && a - {t} == b - {t}
            && (t in a <==> call[t] == op && Behind(up[t], o)) && (t in b <==> q == op && Behind(v, o))
  {
    hide Behind;
  }

  lemma {:induction false} WithOrWithout(a: set<Tid>, t: Tid)
    ensures |a| == |a - {t}| + One(t in a)
  {
    if t in a { assert a == (a - {t}) + {t}; } else { assert a == a - {t}; }
  }

  /** Only thread `t` moved, and only its entries changed. */
  ghost predicate Moved(l: Log, l': Log, t: Tid) {
    && t in l.w.up && t in l.call && t in l'.w.up && t in l'.call && t in l'.w.k.pc
    && l'.w.up == l.w.up[t := l'.w.up[t]] && l'.call == l.call[t := l'.call[t]]
    && l'.w.k.pc == l.w.k.pc[t := l'.w.k.pc[t]]
    && (forall u, o :: u != t && (u, o) in l.held ==> (u, o) in l'.held && l'.held[(u, o)] == l.held[(u, o)])
    && (forall u, o :: u != t && (u, Own(o)) in l.w.k.bal ==>
          (u, Own(o)) in l'.w.k.bal && l'.w.k.bal[(u, Own(o))] == l.w.k.bal[(u, Own(o))])
  }

  lemma {:induction false} HeldOthers(l: Log, l': Log, t: Tid, u: Tid, o: Obj)
    requires Moved(l, l', t) && u != t && HeldOk(l, u, o)
    ensures HeldOk(l', u, o)
  {
    hide Holds, Seen;
  }

  lemma {:induction false} CallsOthers(l: Log, l': Log, t: Tid, u: Tid)
    requires Moved(l, l', t) && u != t && CallsOk(l, u)
    ensures CallsOk(l', u)
  {
    hide CallOk;
  }

  /** The count stays right when it changes, less what is logged, as the threads that have stored do. */
  lemma {:induction false} CountStep(l: Log, l': Log, t: Tid, o: Obj)
    requires Moved(l, l', t) && CountOk(l, o) && o in l'.w.ref && o in l'.incs && o in l'.decs
    requires var (u, v) := (l.w.up[t], l'.w.up[t]);
             var (p, q) := (l.call[t], l'.call[t]);
             (l'.w.ref[o] - l'.incs[o] + l'.decs[o]) - (l.w.ref[o] - l.incs[o] + l.decs[o])
             == One(q == Inc && Behind(v, o)) - One(p == Inc && Behind(u, o))
                - (One(q == Dec && Behind(v, o)) - One(p == Dec && Behind(u, o)))
    ensures CountOk(l', o)
  {
    StoredStep(l.w.up, l'.w.up[t], l.call, l'.call[t], t, o, Inc);
    StoredStep(l.w.up, l'.w.up[t], l.call, l'.call[t], t, o, Dec);
    hide Stored, Behind, One;
  }

  /** What a step of `t` must do about itself and the objects for the log to stay true. */
  lemma {:induction false} Assemble(l: Log, l': Log, t: Tid)
    requires AllLogged(l) && Moved(l, l', t) && l'.w.made.Keys == l.w.made.Keys
    requires CallsOk(l', t)
    requires forall o :: o in l.w.made ==> HeldOk(l', t, o)
    requires forall o :: o in l.w.made ==> CountOk(l', o)
    ensures AllLogged(l')
  {
    hide Moved, CallsOk, HeldOk, CountOk;
    MovedKeys(l, l', t);
    forall u | u in l'.w.up ensures CallsOk(l', u) {
      if u != t { CallsOthers(l, l', t, u); }
    }
    forall u, o | u in l'.w.up && o in l'.w.made ensures HeldOk(l', u, o) {
      if u != t { HeldOthers(l, l', t, u, o); }
    }
  }

  lemma {:induction false} MovedKeys(l: Log, l': Log, t: Tid)
    requires Moved(l, l', t)
    ensures l'.w.up.Keys == l.w.up.Keys && t in l.w.up
  {}

  // ------------------------------------------------- steps inside Safe_K

  ghost function Inner(l: Log, t: Tid): (l': Log)
    requires WellTyped(l.w.k) && Enabled(l.w.k, t)
  {
    l.(w := l.w.(k := Step(l.w.k, t)))
  }

  lemma {:induction false} InnerMoved(l: Log, t: Tid)
    requires LogTyped(l) && Inv(l.w.k) && Enabled(l.w.k, t)
    ensures Moved(l, Inner(l, t), t) && LogTyped(Inner(l, t))
  {
    StepLocal(l.w.k, t);
    hide Step, LockOk, ThreadOk;
  }

  /** An unlock without the lock leaves the balance. */
  lemma {:induction false} UnlockWithout(s: State, t: Tid)
    requires Inv(s) && Enabled(s, t)
    ensures var j := s.pc[t].l;
            (t, j) in s.bal && (t, j) in Step(s, t).bal
            && (!IsLockPc(s.pc[t]) && s.bal[(t, j)] <= 0 ==> Step(s, t).bal == s.bal)
  {
    HoldsFor(s, t);
    hide Inv;
  }

  lemma {:induction false} InnerHeld(l: Log, t: Tid, o: Obj)
    requires LogTyped(l) && WorldInv(l.w) && Enabled(l.w.k, t) && o in l.w.made && HeldOk(l, t, o) && CallsOk(l, t)
    ensures HeldOk(Inner(l, t), t, o)
  {
    var s := l.w.k;
    StepLocal(s, t);
    StepBalance(s, t);
    assert ThreadGood(l.w, t);
    OutIsIdle(l.w, t);
    UnlockWithout(s, t);
    hide Step, Inv, LockOk, ThreadOk, WellTyped;
  }

  lemma {:induction false} InnerLogInv(l: Log, t: Tid)
    requires LogInv(l) && Enabled(l.w.k, t)
    ensures LogInv(Inner(l, t))
  {
    var l' := Inner(l, t);
    InnerStepInv(l.w, t);
    InnerMoved(l, t);
    hide LogTyped, WorldInv, HeldOk, CallsOk, CountOk, Moved, Inner, Enabled;
    InnerSame(l, t);
    forall o | o in l.w.made ensures HeldOk(l', t, o) {
      InnerHeld(l, t, o);
    }
    Assemble(l, l', t);
  }

  lemma {:induction false} InnerSame(l: Log, t: Tid)
    requires LogInv(l) && Enabled(l.w.k, t)
    ensures var l' := Inner(l, t);
            l'.w.made == l.w.made && t in l.w.up && CallsOk(l', t) && WorldInv(l'.w) && LogTyped(l')
    ensures forall o :: o in l.w.made ==> CountOk(Inner(l, t), o)
  {
    InnerStepInv(l.w, t);
    InnerMoved(l, t);
    hide LogTyped, WorldInv, HeldOk, Enabled, Moved, CallsOk, CountOk, Inner;
    InnerCall(l, t);
    forall o | o in l.w.made ensures CountOk(Inner(l, t), o) {
      InnerCount(l, t, o);
    }
  }

  lemma {:induction false} InnerCount(l: Log, t: Tid, o: Obj)
    requires WellTyped(l.w.k) && Enabled(l.w.k, t) && CountOk(l, o)
    ensures CountOk(Inner(l, t), o)
  {
    hide Step, WellTyped, Enabled, Stored;
  }

  lemma {:induction false} InnerCall(l: Log, t: Tid)
    requires LogInv(l) && Enabled(l.w.k, t)
    ensures t in l.w.up && CallsOk(Inner(l, t), t) && Inner(l, t).w.made == l.w.made
    ensures Inner(l, t).w == l.w.(k := Step(l.w.k, t))
  {
    hide Step, ThreadGood, ObjectGood, LockOk, ThreadOk, HeldOk, CountOk, CallOk;
    assert t in l.w.k.pc;
  }

  // ----------------------------------------------- steps between Safe_K calls

  /** A write-back changes the balance of no one. */
  lemma {:induction false} ApplyFrame(w: World, t: Tid, o: Obj, n: Local)
    requires WorldTyped(w) && t in w.up && o in w.made
    ensures var w' := Apply(w, t, o, n);
            && w'.up == w.up[t := n.up] && w'.k.bal == w.k.bal && w'.k.pc == w.k.pc[t := n.pc]
            && w'.made == w.made[o := n.made] && w'.ref == w.ref[o := n.ref]
  {
    hide WellTyped;
  }

  /** One step of a thread between Safe_K calls: where its call leads, and the count. */
  lemma {:induction false} ProceedCall(w: World, t: Tid, op: Op)
    requires WorldInv(w) && t in w.up && w.up[t] != Out && w.k.pc[t] == Idle && CallOk(w.up[t], op)
    ensures var u := w.up[t];
            var n := Continue(u, w.made[u.o], w.ref[u.o]);
            && CallOk(n.up, op) && (n.up != Out ==> n.up.o == u.o)
            && n.ref - w.ref[u.o] == One(op == Inc && (n.up == Out || Behind(n.up, u.o))) - One(op == Inc && Behind(u, u.o))
                                     - One(op == Dec && (n.up == Out || Behind(n.up, u.o))) + One(op == Dec && Behind(u, u.o))
  {
    assert ThreadGood(w, t);
    hide WorldInv, Inv, WellTyped;
  }

  /** Its lock. */
  lemma {:induction false} ProceedLock(w: World, t: Tid, op: Op, held: int)
    requires WorldInv(w) && t in w.up && w.up[t] != Out && w.k.pc[t] == Idle && CallOk(w.up[t], op) && held >= 0
    requires w.k.bal[(t, Own(w.up[t].o))] == Holds(w.up[t], op, true, held)
    ensures var u := w.up[t];
            var n := Continue(u, w.made[u.o], w.ref[u.o]);
            && (n.up == Out ==> n.pc == Idle && HeldAfter(op, held) >= 0)
            && w.k.bal[(t, Own(u.o))] == (if n.up == Out then HeldAfter(op, held) else Holds(n.up, op, n.pc == Idle, held))
  {
    var o := w.up[t].o;
    assert ThreadGood(w, t) && ObjectGood(w, o);
    MutualExclusion(w.k, t, t, Own(o));
    hide WorldInv, Inv, WellTyped;
  }

  ghost function Onward(l: Log, t: Tid): (l': Log)
    requires LogTyped(l) && t in l.w.up && l.w.up[t] != Out
  {
    ApplyFrame(l.w, t, l.w.up[t].o, Continue(l.w.up[t], l.w.made[l.w.up[t].o], l.w.ref[l.w.up[t].o]));
    Proceed(l, t, Advance(l.w, t))
  }

  lemma {:induction false} OnwardDomain(l: Log, t: Tid)
    requires LogTyped(l) && t in l.w.up && l.w.up[t] != Out
    ensures var o := l.w.up[t].o;
            t in l.call && o in l.w.made && o in l.w.ref && o in l.incs && o in l.decs && (t, o) in l.held && t in l.w.k.pc
  {
    hide WellTyped;
  }

  lemma {:induction false} OnwardWorld(l: Log, t: Tid)
    requires LogTyped(l) && t in l.w.up && l.w.up[t] != Out
    ensures var u := l.w.up[t];
            u.o in l.w.made && u.o in l.w.ref
            && var n := Continue(u, l.w.made[u.o], l.w.ref[u.o]);
            var l' := Onward(l, t);
            && l'.w == Advance(l.w, t) && l'.call == l.call && l'.w.up == l.w.up[t := n.up] && l'.w.k.pc == l.w.k.pc[t := n.pc]
            && l'.w.k.bal == l.w.k.bal && l'.w.ref == l.w.ref[u.o := n.ref] && l'.w.made.Keys == l.w.made.Keys
  {
    var u := l.w.up[t];
    ApplyFrame(l.w, t, u.o, Continue(u, l.w.made[u.o], l.w.ref[u.o]));
    hide WellTyped, Continue, Apply, HeldAfter, One;
  }

  lemma {:induction false} OnwardLogged(l: Log, t: Tid)
    requires LogTyped(l) && t in l.w.up && l.w.up[t] != Out
    ensures var l' := Onward(l, t);
            t in l'.w.up && t in l.call
            && var (o, op) := (l.w.up[t].o, l.call[t]);
            && (l'.w.up[t] != Out ==> l'.held == l.held && l'.incs == l.incs && l'.decs == l.decs)
            && (l'.w.up[t] == Out ==>
                  && o in l.incs && o in l.decs && (t, o) in l.held
                  && l'.held == l.held[(t, o) := HeldAfter(op, l.held[(t, o)])]
                  && l'.incs == l.incs[o := l.incs[o] + One(op == Inc)]
                  && l'.decs == l.decs[o := l.decs[o] + One(op == Dec)])
  {
    OnwardWorld(l, t);
    hide WellTyped, Advance, HeldAfter;
  }

  /** The fields of the log after such a step. */
  lemma {:induction false} OnwardFields(l: Log, t: Tid)
    requires LogTyped(l) && t in l.w.up && l.w.up[t] != Out
    ensures var (u, op) := (l.w.up[t], l.call[t]);
            var n := Continue(u, l.w.made[u.o], l.w.ref[u.o]);
            var l' := Onward(l, t);
            && l'.w == Advance(l.w, t) && l'.call == l.call && l'.w.up == l.w.up[t := n.up] && l'.w.k.pc == l.w.k.pc[t := n.pc]
            && l'.w.k.bal == l.w.k.bal && l'.w.ref == l.w.ref[u.o := n.ref] && l'.w.made.Keys == l.w.made.Keys
            && (n.up != Out ==> l'.held == l.held && l'.incs == l.incs && l'.decs == l.decs)
            && (n.up == Out ==>
                  && l'.held == l.held[(t, u.o) := HeldAfter(op, l.held[(t, u.o)])]
                  && l'.incs == l.incs[u.o := l.incs[u.o] + One(op == Inc)]
                  && l'.decs == l.decs[u.o := l.decs[u.o] + One(op == Dec)])
  {
    hide LogTyped, WorldTyped, Onward, Advance, Continue, HeldAfter, One;
    OnwardDomain(l, t);
    OnwardWorld(l, t);
    OnwardLogged(l, t);
  }

  lemma {:induction false} OnwardTyped(l: Log, t: Tid)
    requires LogTyped(l) && t in l.w.up && l.w.up[t] != Out && WorldTyped(Advance(l.w, t))
    ensures LogTyped(Onward(l, t)) && Moved(l, Onward(l, t), t)
  {
    OnwardFields(l, t);
    OnwardMoved(l, t);
    hide Onward, Advance, WellTyped, Continue, HeldAfter, Moved;
  }

  lemma {:induction false} OnwardMoved(l: Log, t: Tid)
    requires LogTyped(l) && t in l.w.up && l.w.up[t] != Out
    ensures Moved(l, Onward(l, t), t)
  {
    hide LogTyped, Onward, Continue, HeldAfter;
    OnwardDomain(l, t);
    OnwardFields(l, t);
  }

  lemma {:induction false} OnwardHeld(l: Log, t: Tid, o: Obj)
    requires LogTyped(l) && WorldInv(l.w) && t in l.w.up && l.w.k.pc[t] == Idle && l.w.up[t] != Out
    requires CallsOk(l, t) && HeldOk(l, t, l.w.up[t].o) && HeldOk(l, t, o)
    ensures HeldOk(Onward(l, t), t, o)
  {
    hide LogTyped, WorldInv, Onward, Continue, CallOk, HeldAfter;
    OnwardDomain(l, t);
    OnwardFields(l, t);
    var u := l.w.up[t];
    ProceedLock(l.w, t, l.call[t], l.held[(t, u.o)]);
    ProceedCall(l.w, t, l.call[t]);
  }

  lemma {:induction false} OutNotBehind()
    ensures forall o, p, u: Up :: !Behind(Out, o) && (Behind(u, o) && Behind(u, p) ==> o == p)
    ensures forall u: Up, o :: Behind(u, o) ==> u != Out && u.o == o
    ensures One(false) == 0
  {}

  lemma {:induction false} OnwardCount(l: Log, t: Tid, o: Obj)
    requires LogTyped(l) && WorldInv(l.w) && t in l.w.up && l.w.k.pc[t] == Idle && l.w.up[t] != Out
    requires CallsOk(l, t) && CountOk(l, o) && Moved(l, Onward(l, t), t)
    ensures CountOk(Onward(l, t), o)
  {
    hide LogTyped, WorldInv, Onward, Continue, CallOk, HeldAfter, Moved, Stored, Behind, One;
    OnwardDomain(l, t);
    OnwardFields(l, t);
    ProceedCall(l.w, t, l.call[t]);
    OutNotBehind();
    CountStep(l, Onward(l, t), t, o);
  }

  lemma {:induction false} OnwardCalls(l: Log, t: Tid)
    requires LogTyped(l) && WorldInv(l.w) && t in l.w.up && l.w.k.pc[t] == Idle && l.w.up[t] != Out && CallsOk(l, t)
    ensures CallsOk(Onward(l, t), t) && Onward(l, t).w.made.Keys == l.w.made.Keys && Onward(l, t).w == Advance(l.w, t)
  {
    OnwardFields(l, t);
    ProceedCall(l.w, t, l.call[t]);
    hide LogTyped, WorldInv, Onward, Continue, CallOk, HeldAfter, Advance;
  }

  lemma {:induction false} AdvanceInv(w: World, t: Tid)
    requires WorldInv(w) && t in w.up && w.k.pc[t] == Idle && w.up[t] != Out
    ensures WorldInv(Advance(w, t)) && w.up[t].o in w.made
  {
    hide Advance, Inv, ThreadGood, ObjectGood, WellTyped;
    assert WorldNext(w, t, Advance(w, t));
    WorldNextInv(w, t, Advance(w, t));
  }

  lemma {:induction false} OnwardLogInv(l: Log, t: Tid)
    requires LogInv(l) && t in l.w.up && l.w.k.pc[t] == Idle && l.w.up[t] != Out
    ensures LogInv(Onward(l, t))
  {
    AdvanceInv(l.w, t);
    assert WorldTyped(Advance(l.w, t));
    OnwardTyped(l, t);
    assert CallsOk(l, t) && HeldOk(l, t, l.w.up[t].o);
    hide LogTyped, WorldInv, HeldOk, CallsOk, CountOk, Moved, Onward, Advance;
    OnwardCalls(l, t);
    var l' := Onward(l, t);
    forall o | o in l.w.made ensures HeldOk(l', t, o) {
      assert HeldOk(l, t, o);
      OnwardHeld(l, t, o);
    }
    forall o | o in l.w.made ensures CountOk(l', o) {
      assert CountOk(l, o);
      OnwardCount(l, t, o);
    }
    Assemble(l, l', t);
  }

  // ------------------------------------------------------------ new calls

  ghost function Begun(l: Log, t: Tid, op: Op, o: Obj): (l': Log)
    requires LogTyped(l) && t in l.w.up && o in l.w.made
  {
    l.(w := Start(l.w, t, op, o), call := l.call[t := op])
  }

  /** A call that has just begun: where it leads, and that nothing has changed yet. */
  lemma {:induction false} StartLocal(op: Op, o: Obj, made: nat, ref: int)
    ensures var n := Begin(op, o, made, ref);
            && CallOk(n.up, op) && n.up != Out && n.up.o == o && n.made == made && n.ref == ref
            && (Behind(n.up, o) ==> op == Unlock)
            && (forall idle, h :: Holds(n.up, op, idle, h) == h)
  {}

  lemma {:induction false} BegunFields(l: Log, t: Tid, op: Op, o: Obj)
    requires LogTyped(l) && t in l.w.up && o in l.w.made
    ensures var n := Begin(op, o, l.w.made[o], l.w.ref[o]);
            var l' := Begun(l, t, op, o);
            && l'.w == Start(l.w, t, op, o) && l'.call == l.call[t := op] && l'.w.up == l.w.up[t := n.up]
            && l'.w.k.pc == l.w.k.pc[t := n.pc] && l'.w.k.bal == l.w.k.bal
            && l'.w.ref == l.w.ref && l'.w.made == l.w.made && l'.held == l.held && l'.incs == l.incs && l'.decs == l.decs
  {
    StartLocal(op, o, l.w.made[o], l.w.ref[o]);
    ApplyFrame(l.w, t, o, Begin(op, o, l.w.made[o], l.w.ref[o]));
    hide WellTyped, Begin, Apply;
  }

  lemma {:induction false} BegunTyped(l: Log, t: Tid, op: Op, o: Obj)
    requires LogTyped(l) && t in l.w.up && o in l.w.made && WorldTyped(Start(l.w, t, op, o))
    ensures LogTyped(Begun(l, t, op, o)) && Moved(l, Begun(l, t, op, o), t)
  {
    BegunFields(l, t, op, o);
    hide Begun, Start, WellTyped, Begin;
  }

  lemma {:induction false} BegunSelf(l: Log, t: Tid, op: Op, o: Obj, p: Obj)
    requires LogTyped(l) && t in l.w.up && o in l.w.made && l.w.up[t] == Out && Moved(l, Begun(l, t, op, o), t)
    requires HeldOk(l, t, p) && CountOk(l, p)
    ensures var l' := Begun(l, t, op, o);
            CallsOk(l', t) && HeldOk(l', t, p) && CountOk(l', p)
  {
    BegunFields(l, t, op, o);
    StartLocal(op, o, l.w.made[o], l.w.ref[o]);
    hide LogTyped, Begun, Start, Begin, CallOk, Moved, Stored;
    CountStep(l, Begun(l, t, op, o), t, p);
  }

  lemma {:induction false} StartInv(w: World, t: Tid, op: Op, o: Obj)
    requires WorldInv(w) && t in w.up && w.k.pc[t] == Idle && w.up[t] == Out && o in w.made
    ensures WorldInv(Start(w, t, op, o))
  {
    hide Start, Inv, ThreadGood, ObjectGood, WellTyped;
    assert WorldNext(w, t, Start(w, t, op, o));
    WorldNextInv(w, t, Start(w, t, op, o));
  }

  lemma {:induction false} BegunLogInv(l: Log, t: Tid, op: Op, o: Obj)
    requires LogInv(l) && t in l.w.up && l.w.k.pc[t] == Idle && l.w.up[t] == Out && o in l.w.made
    ensures LogInv(Begun(l, t, op, o))
  {
    StartInv(l.w, t, op, o);
    assert WorldTyped(Start(l.w, t, op, o));
    BegunTyped(l, t, op, o);
    BegunFields(l, t, op, o);
    hide LogTyped, WorldInv, HeldOk, CallsOk, CountOk, Moved, Begun, Start;
    var l' := Begun(l, t, op, o);
    assert HeldOk(l, t, o) && CountOk(l, o);
    BegunSelf(l, t, op, o, o);
    forall p | p in l.w.made ensures HeldOk(l', t, p) && CountOk(l', p) {
      assert HeldOk(l, t, p) && CountOk(l, p);
      BegunSelf(l, t, op, o, p);
    }
    Assemble(l, l', t);
  }

  /** Every step of every thread keeps the log true. */
  lemma {:induction false} LogNextInv(l: Log, t: Tid, l': Log)
    requires LogInv(l) && LogNext(l, t, l')
    ensures LogInv(l')
  {
    assert LogTyped(l) && WorldTyped(l.w) && WellTyped(l.w.k);
    assert t in l.w.up && t in l.w.k.pc;
    hide LogTyped, WorldInv, AllLogged, WorldTyped, WellTyped, LogInv, Step, Advance, Start, Proceed, Enabled;
    if l.w.k.pc[t] != Idle {
      InnerLogInv(l, t);
    } else if l.w.up[t] != Out {
      OnwardLogInv(l, t);
    } else {
      var op, o :| o in l.w.made && l' == l.(w := Start(l.w, t, op, o), call := l.call[t := op]);
      BegunLogInv(l, t, op, o);
    }
  }

  // -------------------------------------------------------------------- runs

  ghost predicate SomeLogNext(l: Log, l': Log) {
    LogTyped(l) && exists t :: LogNext(l, t, l')
  }

  /** Any interleaving, with its log. */
  ghost predicate IsLogRun(run: seq<Log>) {
    && run != [] && LogInit(run[0])
    && forall i :: 0 <= i < |run| - 1 ==> SomeLogNext(run[i], run[i + 1])
  }

  lemma {:induction false} LogRunInv(run: seq<Log>, i: nat)
    requires IsLogRun(run) && i < |run|
    ensures LogInv(run[i])
  {
    hide LogInv, LogInit, LogNext, LogTyped;
    if i == 0 {
      LogInitInv(run[0]);
    } else {
      LogRunInv(run, i - 1);
      assert SomeLogNext(run[i - 1], run[i]);
      var t :| LogTyped(run[i - 1]) && LogNext(run[i - 1], t, run[i]);
      LogNextInv(run[i - 1], t, run[i]);
    }
  }

  /** No thread is in a call on the object. */
  predicate Quiet(l: Log, o: Obj) {
    forall t :: t in l.w.up ==> l.w.up[t] == Out || l.w.up[t].o != o
  }

  /**
   * In every interleaving the reference count of an object is the returned calls of
   * incRefCount minus those of decRefCount, with the calls that have stored and not yet
   * returned; so it is the difference of the two whenever no call on the object is under way.
   */
  lemma {:induction false} RunCounts(run: seq<Log>, i: nat, o: Obj)
    requires IsLogRun(run) && i < |run| && o in run[i].w.made
    ensures var l := run[i];
            && LogTyped(l)
            && l.w.ref[o] == l.incs[o] - l.decs[o] + |Stored(l.w.up, l.call, o, Inc)| - |Stored(l.w.up, l.call, o, Dec)|
            && (Quiet(l, o) ==> l.w.ref[o] == l.incs[o] - l.decs[o])
  {
    LogRunInv(run, i);
    var l := run[i];
    assert CountOk(l, o);
    hide WorldInv, WorldTyped, AllLogged, IsLogRun, Stored, Quiet;
    if Quiet(l, o) {
      NoneStored(l, o, Inc);
      NoneStored(l, o, Dec);
    }
  }

  lemma {:induction false} NoneStored(l: Log, o: Obj, op: Op)
    requires Quiet(l, o)
    ensures Stored(l.w.up, l.call, o, op) == {}
  {}

  /**
   * In every interleaving a thread that is outside has an object's lock exactly while its
   * returned locks are not undone by its returned unlocks, whatever it did to the count.
   */
  lemma {:induction false} RunHolds(run: seq<Log>, i: nat, t: Tid, o: Obj)
    requires IsLogRun(run) && i < |run| && t in run[i].w.up && o in run[i].w.made && run[i].w.up[t] == Out
    ensures var l := run[i];
            && LogTyped(l)
            && var lock := l.w.k.locks[Own(o)];
            && (lock.holder == t <==> l.held[(t, o)] > 0)
            && (lock.holder == t ==> lock.owner == t && lock.count == l.held[(t, o)])
  {
    LogRunInv(run, i);
    var l := run[i];
    assert HeldOk(l, t, o) && ThreadGood(l.w, t);
    assert Own(o) in l.w.k.locks && t in l.w.k.pc && (t, Own(o)) in l.w.k.bal;
    OwnLock(l.w.k, t, Own(o));
    hide LogTyped, WorldInv, AllLogged, IsLogRun, Inv;
  }

  /** A thread between calls of Safe_K has the lock with its balance, or not at all. */
  lemma {:induction false} OwnLock(s: State, t: Tid, j: LockId)
    requires Inv(s) && t in s.pc && j in s.locks && s.pc[t] == Idle
    ensures (t, j) in s.bal
    ensures var k := s.locks[j];
            && (k.holder == t <==> s.bal[(t, j)] > 0)
            && (k.holder == t ==> k.owner == t && k.count == s.bal[(t, j)])
  {
    assert ThreadOk(s.locks[j], t, s.pc[t], j, s.bal[(t, j)]);
  }
}
