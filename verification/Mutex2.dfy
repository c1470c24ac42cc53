/**
 * The table under two levels of locks, run by any number of threads.  A step is one lock or
 * unlock, or one read or write of shared memory; f_count++ is a read and a write.
 */
module Mutex2 {
  import opened Chain
  import opened FooTable
  import opened FooRefs
  import opened Histories
  import opened FooHistory

  /** The mutexes: hashlock, and the f_lock of the object at each address. */
  const HASHLOCK := 0
  const NO_LOCK := -1

  /** What a thread does next; n is a count it has read, i its place on a chain. */
  datatype Pc =
    | Idle
    | AllocHash(a: nat, id: int) | AllocNext(a: nat, id: int) | AllocHead(a: nat, id: int)
    | AllocF(a: nat) | AllocUnhash(a: nat) | AllocUnF(a: nat)
    | HoldF(a: nat) | HoldRead(a: nat) | HoldWrite(a: nat, n: int) | HoldUnF(a: nat)
    | FindHash(id: int) | FindAt(id: int, fp: nat, i: nat)
    | FindF(a: nat) | FindRead(a: nat) | FindWrite(a: nat, n: int) | FindUnF(a: nat) | FindUnhash(a: nat)
    | ReleF(a: nat) | ReleTest(a: nat) | ReleWrite(a: nat, n: int) | ReleUnF(a: nat)
    | ReleLast(a: nat) | ReleHash(a: nat)                       // the window: the last reference, no lock held
    | ReleF2(a: nat) | ReleAgain(a: nat) | ReleWrite2(a: nat, n: int) | ReleUnF2(a: nat) | ReleUnhash
    | ReleWalk(a: nat, l: nat, i: nat) | ReleGone(a: nat) | ReleUnF3(a: nat) | ReleFree(a: nat)
    | Done(res: nat)

  type Thread = FooRefs.Thread<Pc>

  /** Memory, the owner of each locked mutex, the table the threads agree on, and the threads. */
  datatype State = State(m: Memory, locks: map<int, nat>, t: Table, ths: seq<Thread>)

  // ----- steps -----

  /** The lock a thread is asking for. */
  function Wanted(pc: Pc): int {
    match pc
    case AllocHash(_, _) => HASHLOCK
    case FindHash(_) => HASHLOCK
    case ReleHash(_) => HASHLOCK
    case AllocF(a) => a
    case HoldF(a) => a
    case FindF(a) => a
    case ReleF(a) => a
    case ReleF2(a) => a
    case _ => NO_LOCK
  }

  /** The objects whose members the next step reads, writes, locks, unlocks or destroys. */
  predicate Touches(pc: Pc, x: nat) {
    if pc.FindAt? then x == pc.fp && x != NULL
    else if pc.ReleWalk? then x == pc.a || (x == pc.l && x >= NHASH)
    else
      && x == Addr(pc)
      && !pc.AllocHash? && !pc.AllocUnhash? && !pc.FindUnhash? && !pc.ReleHash? && !pc.ReleGone?
      && !pc.Idle? && !pc.FindHash? && !pc.ReleUnhash? && !pc.Done?
  }

  function Obj(m: Memory, a: nat): Foo { if a in m.foo then m.foo[a] else Foo(0, 0) }

  /** An idle thread may call, hand a reference it owns to another thread, or do neither. */
  datatype Action = Invoke(call: Call, addr: nat, junk: nat) | Give(a: nat, to: nat) | Go

  /** No step is possible that touches memory malloc has not given out or free has taken back. */
  ghost predicate Enabled(s: State, p: nat, act: Action) {
    && p < |s.ths|
    && var th := s.ths[p];
    match act
    case Invoke(call, addr, _) =>
      && th.pc.Idle?
      && (call.Alloc? ==> addr == NULL || (addr >= NHASH && addr !in s.m.foo))
      && (call.Hold? ==> call.a in th.refs)
      && (call.Rele? ==> call.a in th.refs)
    case Give(a, to) => th.pc.Idle? && a in th.refs && to < |s.ths| && to != p
    case Go =>
      && !th.pc.Idle? && Wanted(th.pc) !in s.locks
      && forall x :: Touches(th.pc, x) ==> x in s.m.foo
  }

  datatype Outcome = Outcome(m: Memory, locks: map<int, nat>, t: Table, th: Thread)

  function Move(s: State, th: Thread, pc: Pc): Outcome { Outcome(s.m, s.locks, s.t, th.(pc := pc)) }

  function Lock(s: State, th: Thread, p: nat, l: int, pc: Pc): Outcome {
    Outcome(s.m, s.locks[l := p], s.t, th.(pc := pc))
  }

  function Unlock(s: State, th: Thread, l: int, pc: Pc): Outcome {
    Outcome(s.m, s.locks - {l}, s.t, th.(pc := pc))
  }

  /** f_count = n, in memory and in the table. */
  function SetCount(s: State, th: Thread, a: nat, n: int, pc: Pc, refs: multiset<nat>): Outcome {
    Outcome(s.m.(foo := s.m.foo[a := Obj(s.m, a).(count := n)]), s.locks, Counted(s.t, a, n),
            th.(pc := pc, refs := refs))
  }

  function After(s: State, p: nat, th: Thread): Outcome {
    match th.pc
    case AllocHash(a, id) => Lock(s, th, p, HASHLOCK, AllocNext(a, id))
    case AllocNext(a, id) =>
      Outcome(s.m.(ptr := s.m.ptr[a := At(s.m.ptr, HashOf(id))]), s.locks, s.t, th.(pc := AllocHead(a, id)))
    case AllocHead(a, id) =>
      Outcome(s.m.(ptr := s.m.ptr[HashOf(id) := a]), s.locks, Table([Ref(a, id)] + s.t.live, s.t.count[a := 1]),
              th.(pc := AllocF(a)))
    case AllocF(a) => Lock(s, th, p, a, AllocUnhash(a))
    case AllocUnhash(a) => Unlock(s, th, HASHLOCK, AllocUnF(a))
    case AllocUnF(a) => Unlock(s, th, a, Done(a))

    case HoldF(a) => Lock(s, th, p, a, HoldRead(a))
    case HoldRead(a) => Move(s, th, HoldWrite(a, Obj(s.m, a).count))
    case HoldWrite(a, n) => SetCount(s, th, a, n + 1, HoldUnF(a), th.refs + multiset{a})
    case HoldUnF(a) => Unlock(s, th, a, Done(NULL))

    case FindHash(id) => Lock(s, th, p, HASHLOCK, FindAt(id, At(s.m.ptr, HashOf(id)), 0))
    case FindAt(id, fp, i) =>
      if fp == NULL then Move(s, th, FindUnhash(NULL))
      else if Obj(s.m, fp).id == id then Move(s, th, FindF(fp))
      else Move(s, th, FindAt(id, At(s.m.ptr, fp), i + 1))
    case FindF(a) => Lock(s, th, p, a, FindRead(a))
    case FindRead(a) => Move(s, th, FindWrite(a, Obj(s.m, a).count))
    case FindWrite(a, n) => SetCount(s, th, a, n + 1, FindUnF(a), th.refs + multiset{a})
    case FindUnF(a) => Unlock(s, th, a, FindUnhash(a))
    case FindUnhash(a) => Unlock(s, th, HASHLOCK, Done(a))

    case ReleF(a) => Lock(s, th, p, a, ReleTest(a))
    case ReleTest(a) => Move(s, th, if Obj(s.m, a).count == 1 then ReleLast(a) else ReleWrite(a, Obj(s.m, a).count))
    case ReleWrite(a, n) => SetCount(s, th, a, n - 1, ReleUnF(a), th.refs - multiset{a})
    case ReleUnF(a) => Unlock(s, th, a, Done(NULL))
    case ReleLast(a) => Unlock(s, th, a, ReleHash(a))
    case ReleHash(a) => Lock(s, th, p, HASHLOCK, ReleF2(a))
    case ReleF2(a) => Lock(s, th, p, a, ReleAgain(a))
    case ReleAgain(a) =>
      Move(s, th, if Obj(s.m, a).count != 1 then ReleWrite2(a, Obj(s.m, a).count)
           else ReleWalk(a, HashOf(Obj(s.m, a).id), 0))
    case ReleWrite2(a, n) => SetCount(s, th, a, n - 1, ReleUnF2(a), th.refs - multiset{a})
    case ReleUnF2(a) => Unlock(s, th, a, ReleUnhash)
    case ReleUnhash => Unlock(s, th, HASHLOCK, Done(NULL))
    case ReleWalk(a, l, i) =>
      if At(s.m.ptr, l) != a then Move(s, th, ReleWalk(a, At(s.m.ptr, l), i + 1))
      else Outcome(s.m.(ptr := s.m.ptr[l := At(s.m.ptr, a)]), s.locks,
                   if IsLive(s.t.live, a) then Dropped(s.t, a) else s.t,
                   th.(pc := ReleGone(a)))
    case ReleGone(a) => Unlock(s, th, HASHLOCK, ReleUnF3(a))
    case ReleUnF3(a) => Unlock(s, th, a, ReleFree(a))
    case ReleFree(a) => Outcome(Freed(s.m, a), s.locks, s.t, th.(pc := Done(NULL), refs := th.refs - multiset{a}))
    case Done(_) => Move(s, th, Idle)
    case Idle => Move(s, th, Idle)
  }

  /** The first step of a call; malloc is part of it, and may fail. */
  function Begun(s: State, th: Thread, call: Call, addr: nat, junk: nat): Outcome {
    match call
    case Alloc(id) =>
      if addr == NULL then Outcome(s.m, s.locks, s.t, Thread(call, Done(NULL), th.refs))
      else Outcome(Memory(s.m.ptr[addr := junk], s.m.foo[addr := Foo(id, 1)]), s.locks, s.t,
                   Thread(call, AllocHash(addr, id), th.refs + multiset{addr}))
    case Find(id) => Outcome(s.m, s.locks, s.t, Thread(call, FindHash(id), th.refs))
    case Hold(a) => Outcome(s.m, s.locks, s.t, Thread(call, HoldF(a), th.refs))
    case Rele(a) => Outcome(s.m, s.locks, s.t, Thread(call, ReleF(a), th.refs))
  }

  function Put(s: State, p: nat, r: Outcome): State
    requires p < |s.ths|
  {
    State(r.m, r.locks, r.t, s.ths[p := r.th])
  }

  ghost function Next(s: State, p: nat, act: Action): State
    requires Enabled(s, p, act)
  {
    match act
    case Invoke(call, addr, junk) => Put(s, p, Begun(s, s.ths[p], call, addr, junk))
    case Give(a, to) =>
      s.(ths := s.ths[p := s.ths[p].(refs := s.ths[p].refs - multiset{a})]
                     [to := s.ths[to].(refs := s.ths[to].refs + multiset{a})])
    case Go => Put(s, p, After(s, p, s.ths[p]))
  }

  // ----- the invariant -----

  predicate HoldsHash(pc: Pc) {
    pc.AllocNext? || pc.AllocHead? || pc.AllocF? || pc.AllocUnhash?
    || pc.FindAt? || pc.FindF? || pc.FindRead? || pc.FindWrite? || pc.FindUnF? || pc.FindUnhash?
    || pc.ReleF2? || pc.ReleAgain? || pc.ReleWrite2? || pc.ReleUnF2? || pc.ReleUnhash? || pc.ReleWalk? || pc.ReleGone?
  }

  predicate HoldsF(pc: Pc) {
    pc.AllocUnhash? || pc.AllocUnF? || pc.HoldRead? || pc.HoldWrite? || pc.HoldUnF?
    || pc.FindRead? || pc.FindWrite? || pc.FindUnF?
    || pc.ReleTest? || pc.ReleWrite? || pc.ReleUnF? || pc.ReleLast? || pc.ReleAgain? || pc.ReleWrite2? || pc.ReleUnF2?
    || pc.ReleWalk? || pc.ReleGone? || pc.ReleUnF3?
  }

  /** The object a call is about. */
  function Addr(pc: Pc): nat {
    if pc.Idle? || pc.FindHash? || pc.FindAt? || pc.ReleUnhash? || pc.Done? then NULL else pc.a
  }

  predicate Holds(pc: Pc, l: int) {
    (l == HASHLOCK && HoldsHash(pc)) || (l == Addr(pc) && l != NULL && HoldsF(pc))
  }

  /** A mutex is locked exactly while the thread that owns it is between its lock and its unlock. */
  ghost predicate LocksOk(locks: map<int, nat>, ths: seq<Thread>) {
    && (forall l :: l in locks ==> l >= 0 && locks[l] < |ths| && Holds(ths[locks[l]].pc, l))
    && (forall p, l :: 0 <= p < |ths| && Holds(ths[p].pc, l) ==> l in locks && locks[l] == p)
  }

  /** The thread is between malloc and linking the object, or between unlinking and freeing it. */
  predicate IsPrivate(pc: Pc) {
    pc.AllocHash? || pc.AllocNext? || pc.AllocHead? || pc.ReleGone? || pc.ReleUnF3? || pc.ReleFree?
  }

  /** An object in memory but not in the table is private to a thread: it will be linked or freed. */
  ghost predicate Unlisted(m: Memory, t: Table, ths: seq<Thread>) {
    forall a :: a in m.foo && a !in t.count ==> exists p: nat :: PrivateTo(ths, p, a)
  }

  predicate PrivateTo(ths: seq<Thread>, p: nat, a: nat) { p < |ths| && IsPrivate(ths[p].pc) && Addr(ths[p].pc) == a }

  predicate IsNew(m: Memory, t: Table, th: Thread, a: nat, id: int) {
    th.call == Alloc(id) && a in th.refs && a !in t.count && a in m.foo && m.foo[a] == Foo(id, 1)
  }

  predicate Owns(th: Thread, call: Call, a: nat) { th.call == call && a in th.refs }

  predicate IsFirst(t: Table, th: Thread, a: nat) {
    th.call.Find? && First(t.live, th.call.id) < |t.live| && t.live[First(t.live, th.call.id)].addr == a
  }

  predicate IsGone(m: Memory, t: Table, th: Thread, a: nat) {
    th.call == Rele(a) && a in th.refs && a !in t.count && HasCount(m, a, 1)
  }

  ghost predicate ThreadOk(m: Memory, locks: map<int, nat>, t: Table, th: Thread) {
    match th.pc
    case Idle => true
    case AllocHash(a, id) => IsNew(m, t, th, a, id)
    case AllocNext(a, id) => IsNew(m, t, th, a, id)
    case AllocHead(a, id) => IsNew(m, t, th, a, id) && At(m.ptr, a) == At(m.ptr, HashOf(id))
    case AllocF(a) => th.call.Alloc? && a in th.refs
    case AllocUnhash(a) => th.call.Alloc? && a in th.refs
    case AllocUnF(a) => th.call.Alloc? && a in th.refs
    case HoldF(a) => Owns(th, Hold(a), a)
    case HoldRead(a) => Owns(th, Hold(a), a)
    case HoldWrite(a, n) => Owns(th, Hold(a), a) && HasCount(m, a, n)
    case HoldUnF(a) => Owns(th, Hold(a), a)
    case FindHash(id) => th.call == Find(id)
    case FindAt(id, fp, i) => th.call == Find(id) && Searched(t, id, fp, i)
    case FindF(a) => IsFirst(t, th, a)
    case FindRead(a) => IsFirst(t, th, a)
    case FindWrite(a, n) => IsFirst(t, th, a) && HasCount(m, a, n)
    case FindUnF(a) => th.call.Find? && a in th.refs
    case FindUnhash(a) => th.call.Find?
    case ReleF(a) => Owns(th, Rele(a), a)
    case ReleTest(a) => Owns(th, Rele(a), a)
    case ReleWrite(a, n) => Owns(th, Rele(a), a) && HasCount(m, a, n) && n != 1
    case ReleUnF(a) => th.call == Rele(a) && a in m.foo
    case ReleLast(a) => Owns(th, Rele(a), a)
    case ReleHash(a) => Owns(th, Rele(a), a)
    case ReleF2(a) => Owns(th, Rele(a), a)
    case ReleAgain(a) => Owns(th, Rele(a), a)
    case ReleWrite2(a, n) => Owns(th, Rele(a), a) && HasCount(m, a, n) && n != 1
    case ReleUnF2(a) => th.call == Rele(a) && a in m.foo
    case ReleUnhash => th.call.Rele?
    case ReleWalk(a, l, i) => Owns(th, Rele(a), a) && Walked(m, t, a, l, i)
    case ReleGone(a) => IsGone(m, t, th, a)
    case ReleUnF3(a) => IsGone(m, t, th, a)
    case ReleFree(a) => IsGone(m, t, th, a) && a !in locks
    case Done(_) => true
  }

  ghost predicate Inv(s: State) {
    && Rep(s.m, s.t)
    && LocksOk(s.locks, s.ths)
    && Counting(s.m.foo, s.ths)
    && Unlisted(s.m, s.t, s.ths)
    && forall p :: 0 <= p < |s.ths| ==> ThreadOk(s.m, s.locks, s.t, s.ths[p])
  }

  // ----- references -----

  /** An object somebody refers to, and nobody has to himself, is in the table. */
  lemma Listed(s: State, p: nat, a: nat)
    requires p < |s.ths| && a in s.ths[p].refs && !(IsPrivate(s.ths[p].pc) && Addr(s.ths[p].pc) == a)
    requires Inv(s)
    ensures a in s.t.count && a in s.m.foo && s.t.count[a] == s.m.foo[a].count && IsLive(s.t.live, a) && a >= NHASH
  {
    hide Rep, LocksOk, Refs, IsLive, ThreadOk;
    RefIsCounted(s.m.foo, s.ths, p, a);
    if a !in s.t.count {
      var q: nat :| PrivateTo(s.ths, q, a);
      PrivateIsSole(s, q);
      Shared(s.m.foo, s.ths, p, q, a);
      assert false;
    }
    InTable(s, a);
  }

  lemma PrivateIsSole(s: State, p: nat)
    requires p < |s.ths| && IsPrivate(s.ths[p].pc)
    requires Inv(s)
    ensures var a := Addr(s.ths[p].pc); a in s.ths[p].refs && a !in s.t.count && HasCount(s.m, a, 1)
  {
    hide Rep, LocksOk, Counting, Unlisted, Walked, Searched, IsFirst;
    assert ThreadOk(s.m, s.locks, s.t, s.ths[p]);
  }

  lemma InTable(s: State, a: nat)
    requires a in s.t.count && Inv(s)
    ensures a in s.m.foo && s.t.count[a] == s.m.foo[a].count && IsLive(s.t.live, a) && a >= NHASH && a in s.m.ptr
  {
    hide LocksOk, Unlisted, Counting, Lists, ThreadOk, IsLive;
  }

  // ----- what a step leaves to the others -----

  predicate SameFoo(m: Memory, m': Memory, a: nat) { a in m.foo ==> a in m'.foo && m'.foo[a] == m.foo[a] }

  /** What this thread relies on is still so. */
  ghost predicate Spared(m: Memory, locks: map<int, nat>, t: Table, m': Memory, locks': map<int, nat>, t': Table,
                         th: Thread) {
    var pc, a := th.pc, Addr(th.pc);
    && (HoldsF(pc) || IsPrivate(pc) ==> SameFoo(m, m', a))
    && (IsPrivate(pc) && a !in t.count ==> a !in t'.count)
    && (pc.ReleFree? && a !in locks ==> a !in locks')
    && (HoldsHash(pc) ==>
          (t'.live == t.live && (a in t.count ==> a in t'.count)
           && (pc.AllocHead? ==>
                 (At(m'.ptr, a) == At(m.ptr, a) && At(m'.ptr, HashOf(pc.id)) == At(m.ptr, HashOf(pc.id))))))
  }

  lemma Undisturbed(m: Memory, locks: map<int, nat>, t: Table, m': Memory, locks': map<int, nat>, t': Table, th: Thread)
    requires ThreadOk(m, locks, t, th) && Spared(m, locks, t, m', locks', t', th)
    ensures ThreadOk(m', locks', t', th)
  {
    hide HashOf, List, First, Bucket;
  }

  /** Mutual exclusion. */
  lemma OneHolder(locks: map<int, nat>, ths: seq<Thread>, p: nat, q: nat, l: int)
    requires LocksOk(locks, ths) && p < |ths| && q < |ths| && Holds(ths[p].pc, l) && Holds(ths[q].pc, l)
    ensures p == q
  {
    hide Holds;
    assert locks[l] == p && locks[l] == q;
  }

  /** What the two program points hold differs by this one lock. */
  predicate Gains(pc: Pc, pc': Pc, l: int) {
    if l == HASHLOCK then
      && HoldsHash(pc') && !HoldsHash(pc)
      && (HoldsF(pc) || HoldsF(pc') ==> HoldsF(pc) && HoldsF(pc') && Addr(pc) == Addr(pc'))
    else HoldsF(pc') && !HoldsF(pc) && l == Addr(pc') && HoldsHash(pc) == HoldsHash(pc')
  }

  predicate HoldSame(pc: Pc, pc': Pc) {
    HoldsHash(pc) == HoldsHash(pc') && HoldsF(pc) == HoldsF(pc') && (HoldsF(pc) ==> Addr(pc) == Addr(pc'))
  }

  lemma LockTaken(locks: map<int, nat>, ths: seq<Thread>, p: nat, th: Thread, l: int, locks': map<int, nat>,
                  ths': seq<Thread>)
    requires LocksOk(locks, ths) && p < |ths| && l >= 0 && l !in locks && Gains(ths[p].pc, th.pc, l)
    requires locks' == locks[l := p] && ths' == ths[p := th]
    ensures LocksOk(locks', ths')
  {
    assert forall k :: Holds(th.pc, k) <==> Holds(ths[p].pc, k) || k == l;
    hide Holds, Gains;
    forall k | k in locks' ensures k >= 0 && locks'[k] < |ths'| && Holds(ths'[locks'[k]].pc, k) {
      assert k != l ==> k in locks && Holds(ths[locks[k]].pc, k);
    }
    forall q, k | 0 <= q < |ths'| && Holds(ths'[q].pc, k) ensures k in locks' && locks'[k] == q {
      assert Holds(ths[q].pc, k) || (q == p && k == l);
    }
  }

  lemma LockGiven(locks: map<int, nat>, ths: seq<Thread>, p: nat, th: Thread, l: int, locks': map<int, nat>,
                  ths': seq<Thread>)
    requires LocksOk(locks, ths) && p < |ths| && l >= 0 && Gains(th.pc, ths[p].pc, l)
    requires locks' == locks - {l} && ths' == ths[p := th]
    ensures LocksOk(locks', ths')
  {
    assert Holds(ths[p].pc, l) && forall k :: Holds(th.pc, k) <==> Holds(ths[p].pc, k) && k != l;
    hide Holds, Gains;
    forall k | k in locks' ensures k >= 0 && locks'[k] < |ths'| && Holds(ths'[locks'[k]].pc, k) {
      assert Holds(ths[locks[k]].pc, k);
    }
    forall q, k | 0 <= q < |ths'| && Holds(ths'[q].pc, k) ensures k in locks' && locks'[k] == q {
      assert Holds(ths[q].pc, k) && (q == p ==> Holds(th.pc, k));
      assert k in locks && locks[k] == q && locks[l] == p;
    }
  }

  lemma LockKept(locks: map<int, nat>, ths: seq<Thread>, p: nat, th: Thread, ths': seq<Thread>)
    requires LocksOk(locks, ths) && p < |ths| && HoldSame(ths[p].pc, th.pc) && ths' == ths[p := th]
    ensures LocksOk(locks, ths')
  {
    assert forall k :: Holds(th.pc, k) <==> Holds(ths[p].pc, k);
    hide Holds, HoldSame;
    forall k | k in locks ensures k >= 0 && locks[k] < |ths'| && Holds(ths'[locks[k]].pc, k) {
      assert Holds(ths[locks[k]].pc, k);
    }
    forall q, k | 0 <= q < |ths'| && Holds(ths'[q].pc, k) ensures k in locks && locks[k] == q {
      assert Holds(ths[q].pc, k);
    }
  }

  /** Nobody can be waiting for the f_lock of an object about to be freed. */
  lemma NotFreed(s: State, p: nat, q: nat)
    requires p < |s.ths| && q < |s.ths| && s.ths[q].pc.ReleFree?
    requires Inv(s)
    ensures Wanted(s.ths[p].pc) != s.ths[q].pc.a
  {
    hide Rep, LocksOk, Unlisted, HashOf, List;
    var a := s.ths[q].pc.a;
    assert ThreadOk(s.m, s.locks, s.t, s.ths[q]) && ThreadOk(s.m, s.locks, s.t, s.ths[p]);
    AllocatedAbove(s, a);
    if p != q && a in s.ths[p].refs { Shared(s.m.foo, s.ths, p, q, a); }
    if s.ths[p].pc.FindF? { FirstIsListed(s, p); }
  }

  lemma AllocatedAbove(s: State, a: nat)
    requires Inv(s) && a in s.m.foo
    ensures a >= NHASH
  {
    hide LocksOk, Unlisted, Counting, Lists, ThreadOk;
  }

  lemma FirstIsListed(s: State, p: nat)
    requires p < |s.ths| && IsFirst(s.t, s.ths[p], Addr(s.ths[p].pc))
    requires Inv(s)
    ensures var a := Addr(s.ths[p].pc); a in s.t.count && a in s.m.foo && s.t.count[a] == s.m.foo[a].count
  {
    hide Lists, LocksOk, Unlisted, Counting, ThreadOk;
    assert s.t.live[First(s.t.live, s.ths[p].call.id)] in s.t.live;
  }

  /** A step that changes neither memory nor the table, nor who owns what. */
  lemma Quiet(s: State, p: nat, locks': map<int, nat>, th: Thread)
    requires p < |s.ths| && th.refs == s.ths[p].refs
    requires IsPrivate(s.ths[p].pc) ==> IsPrivate(th.pc) && Addr(th.pc) == Addr(s.ths[p].pc)
    requires forall l :: l in locks' && l !in s.locks ==> l == Wanted(s.ths[p].pc)
    requires LocksOk(locks', s.ths[p := th])
    requires ThreadOk(s.m, locks', s.t, th)
    requires Inv(s)
    ensures Inv(State(s.m, locks', s.t, s.ths[p := th]))
  {
    hide Rep, LocksOk, HashOf, List, First, Bucket, Refs, Wanted;
    var ths' := s.ths[p := th];
    RefsPutAll(s.ths, p, th, ths');
    forall q | 0 <= q < |ths'| ensures ThreadOk(s.m, locks', s.t, ths'[q]) {
      if q != p {
        assert ThreadOk(s.m, s.locks, s.t, s.ths[q]);
        if s.ths[q].pc.ReleFree? { NotFreed(s, p, q); }
        Undisturbed(s.m, s.locks, s.t, s.m, locks', s.t, s.ths[q]);
      }
    }
    assert Unlisted(s.m, s.t, ths') by { StillPrivate(s.m, s.t, s.ths, p, th, s.m, s.t); }
  }

  /** Objects stay private to whom they were private, when the step does not list or free them. */
  lemma StillPrivate(m: Memory, t: Table, ths: seq<Thread>, p: nat, th: Thread, m': Memory, t': Table)
    requires p < |ths| && Unlisted(m, t, ths)
    requires forall a :: a in m'.foo && a !in t'.count ==>
               ((a in m.foo && a !in t.count && (PrivateTo(ths, p, a) ==> IsPrivate(th.pc) && Addr(th.pc) == a))
                || (IsPrivate(th.pc) && Addr(th.pc) == a))
    ensures Unlisted(m', t', ths[p := th])
  {
    var ths' := ths[p := th];
    forall a | a in m'.foo && a !in t'.count ensures exists q: nat :: PrivateTo(ths', q, a) {
      if IsPrivate(th.pc) && Addr(th.pc) == a {
        assert PrivateTo(ths', p, a);
      } else {
        var q: nat :| PrivateTo(ths, q, a);
        assert PrivateTo(ths', q, a);
      }
    }
  }

  // ----- one step after another -----

  /** The lock the next step gives back. */
  function Released(pc: Pc): int {
    if pc.AllocUnhash? || pc.FindUnhash? || pc.ReleUnhash? || pc.ReleGone? then HASHLOCK
    else if pc.AllocUnF? || pc.HoldUnF? || pc.FindUnF? || pc.ReleUnF? || pc.ReleLast? || pc.ReleUnF2? || pc.ReleUnF3?
    then pc.a else NO_LOCK
  }

  /** Each step takes the one lock it wants, */
  lemma TakesLock(s: State, p: nat, th: Thread)
    requires Wanted(th.pc) != NO_LOCK && !Touches(th.pc, NULL)
    ensures var r, l := After(s, p, th), Wanted(th.pc); l >= 0 && r.locks == s.locks[l := p] && Gains(th.pc, r.th.pc, l)
  {
    hide HashOf, At, Obj;
  }

  /** or gives back the one lock it is done with, */
  lemma GivesLock(s: State, p: nat, th: Thread)
    requires Released(th.pc) != NO_LOCK && !Touches(th.pc, NULL)
    ensures var r, l := After(s, p, th), Released(th.pc); l >= 0 && r.locks == s.locks - {l} && Gains(r.th.pc, th.pc, l)
  {
    hide HashOf, At, Obj;
    var pc := th.pc;
    if pc.AllocUnhash? || pc.FindUnhash? || pc.ReleUnhash? || pc.ReleGone? {
      GivesHashLock(s, p, th);
    } else {
      hide Wanted;
    }
  }

  lemma GivesHashLock(s: State, p: nat, th: Thread)
    requires th.pc.AllocUnhash? || th.pc.FindUnhash? || th.pc.ReleUnhash? || th.pc.ReleGone?
    ensures var r := After(s, p, th); r.locks == s.locks - {HASHLOCK} && Gains(r.th.pc, th.pc, HASHLOCK)
  {
    hide HashOf, At, Obj;
  }

  /** or does something else. */
  lemma LeavesLocks(s: State, p: nat, th: Thread)
    requires !th.pc.Idle? && Wanted(th.pc) == NO_LOCK && Released(th.pc) == NO_LOCK
    ensures var r := After(s, p, th); r.locks == s.locks && HoldSame(th.pc, r.th.pc)
  {
    hide HashOf, Freed, Dropped, Counted, IsLive, At, Obj, After, HoldSame;
    var pc := th.pc;
    if pc.ReleTest? || pc.ReleWrite? || pc.ReleFree? {
      ReleLeavesLocks(s, p, th);
    } else if pc.ReleAgain? || pc.ReleWalk? || pc.ReleWrite2? {
      AgainLeavesLocks(s, p, th);
    } else {
      assert pc.AllocNext? || pc.AllocHead? || pc.HoldRead? || pc.HoldWrite? || IsFind(pc) || pc.Done?;
      RestLeavesLocks(s, p, th);
    }
  }

  lemma RestLeavesLocks(s: State, p: nat, th: Thread)
    requires var pc := th.pc;
             pc.AllocNext? || pc.AllocHead? || pc.HoldRead? || pc.HoldWrite? || pc.FindAt? || pc.FindRead?
             || pc.FindWrite? || pc.Done?
    ensures var r := After(s, p, th); r.locks == s.locks && HoldSame(th.pc, r.th.pc)
  {
    hide HashOf, Freed, Dropped, Counted, IsLive, At, Obj;
  }

  lemma ReleLeavesLocks(s: State, p: nat, th: Thread)
    requires th.pc.ReleTest? || th.pc.ReleWrite? || th.pc.ReleFree?
    ensures var r := After(s, p, th); r.locks == s.locks && HoldSame(th.pc, r.th.pc)
  {
    hide HashOf, Freed, Dropped, Counted, IsLive, At, Obj;
  }

  lemma AgainLeavesLocks(s: State, p: nat, th: Thread)
    requires th.pc.ReleAgain? || th.pc.ReleWalk? || th.pc.ReleWrite2?
    ensures var r := After(s, p, th); r.locks == s.locks && HoldSame(th.pc, r.th.pc)
  {
    hide HashOf, Freed, Dropped, Counted, IsLive, At, Obj;
  }

  lemma LocksFollow(s: State, p: nat, r: Outcome, ths': seq<Thread>)
    requires p < |s.ths| && r == After(s, p, s.ths[p]) && ths' == s.ths[p := r.th]
    requires Enabled(s, p, Go) && Inv(s)
    ensures LocksOk(r.locks, ths')
    ensures forall l :: l in r.locks && l !in s.locks ==> l == Wanted(s.ths[p].pc)
  {
    hide Rep, LocksOk, Unlisted, Counting, ThreadOk, After, Gains, HoldSame;
    var pc, l, g := s.ths[p].pc, Wanted(s.ths[p].pc), Released(s.ths[p].pc);
    if Touches(pc, NULL) { AllocatedAbove(s, NULL); }
    if l != NO_LOCK {
      TakesLock(s, p, s.ths[p]);
      LockTaken(s.locks, s.ths, p, r.th, l, r.locks, ths');
    } else if g != NO_LOCK {
      GivesLock(s, p, s.ths[p]);
      LockGiven(s.locks, s.ths, p, r.th, g, r.locks, ths');
    } else {
      LeavesLocks(s, p, s.ths[p]);
      LockKept(s.locks, s.ths, p, r.th, ths');
    }
  }

  // ----- what a step does to the table -----

  function Verdict(pc: Pc): Effect {
    if pc.AllocF? || pc.AllocUnhash? || pc.AllocUnF? || pc.FindUnF? || pc.FindUnhash? then Took(pc.a)
    else if pc.HoldUnF? || pc.ReleUnF? || pc.ReleUnF2? || pc.ReleUnhash? || pc.ReleGone? || pc.ReleUnF3? || pc.ReleFree?
    then Took(NULL)
    else if pc.Done? then Took(pc.res)
    else Pending
  }

  /** A call takes effect in one step, doing there what it does alone; then it keeps its result until it returns. */
  ghost predicate Refines(s: State, p: nat, s': State)
    requires p < |s.ths| && p < |s'.ths|
  {
    var th, th' := s.ths[p], s'.ths[p];
    && (!th.pc.Idle? ==> th'.call == th.call)
    && (if Verdict(th.pc).Pending? && Verdict(th'.pc).Took? then Does(s.t, th'.call, Verdict(th'.pc).res, s'.t)
        else s'.t == s.t && (Verdict(th'.pc) == Verdict(th.pc) || th'.pc.Idle?))
  }

  /** The step only locks, unlocks or reads. */
  predicate IsQuiet(s: State, th: Thread, r: Outcome) {
    && r.m == s.m && r.t == s.t && r.th.refs == th.refs && r.th.call == th.call
    && (IsPrivate(th.pc) ==> IsPrivate(r.th.pc) && Addr(r.th.pc) == Addr(th.pc))
    && (Verdict(r.th.pc) == Verdict(th.pc) || r.th.pc.Idle?
        || (th.pc.FindAt? && th.pc.fp == NULL && r.th.pc == FindUnhash(NULL)))
  }

  lemma QuietAlloc(s: State, p: nat, r: Outcome)
    requires p < |s.ths| && r == After(s, p, s.ths[p])
    requires var pc := s.ths[p].pc; pc.AllocHash? || pc.AllocF? || pc.AllocUnhash? || pc.AllocUnF?
    requires Inv(s)
    ensures ThreadOk(s.m, r.locks, s.t, r.th) && IsQuiet(s, s.ths[p], r)
  {
    hide Rep, LocksOk, Counting, Unlisted, HashOf;
    assert ThreadOk(s.m, s.locks, s.t, s.ths[p]);
  }

  lemma QuietHold(s: State, p: nat, r: Outcome)
    requires p < |s.ths| && r == After(s, p, s.ths[p])
    requires var pc := s.ths[p].pc; pc.HoldF? || pc.HoldRead? || pc.HoldUnF? || pc.Done?
    requires Inv(s)
    ensures ThreadOk(s.m, r.locks, s.t, r.th) && IsQuiet(s, s.ths[p], r)
  {
    hide Rep, LocksOk, Counting, Unlisted;
    assert ThreadOk(s.m, s.locks, s.t, s.ths[p]);
    if s.ths[p].pc.HoldRead? { RefIsCounted(s.m.foo, s.ths, p, s.ths[p].pc.a); }
  }

  lemma QuietFind(s: State, p: nat, r: Outcome)
    requires p < |s.ths| && r == After(s, p, s.ths[p])
    requires var pc := s.ths[p].pc;
             pc.FindHash? || pc.FindAt? || pc.FindF? || pc.FindRead? || pc.FindUnF? || pc.FindUnhash?
    requires Inv(s)
    ensures ThreadOk(s.m, r.locks, s.t, r.th) && IsQuiet(s, s.ths[p], r)
    ensures s.ths[p].pc.FindAt? && s.ths[p].pc.fp == NULL ==> Does(s.t, r.th.call, NULL, s.t)
  {
    hide Rep, LocksOk, Counting, Unlisted, HashOf, Searched, First;
    var pc := s.ths[p].pc;
    assert ThreadOk(s.m, s.locks, s.t, s.ths[p]);
    if pc.FindHash? { SearchStart(s.m, s.t, pc.id); }
    if pc.FindAt? {
      if pc.fp == NULL { SearchEnd(s.m, s.t, pc.id, pc.i); } else { SearchOn(s.m, s.t, pc.id, pc.fp, pc.i); }
    }
    if pc.FindRead? { FirstIsListed(s, p); }
  }

  lemma QuietRele(s: State, p: nat, r: Outcome)
    requires p < |s.ths| && r == After(s, p, s.ths[p])
    requires var pc := s.ths[p].pc; pc.ReleF? || pc.ReleTest? || pc.ReleLast? || pc.ReleHash? || pc.ReleF2?
    requires Inv(s)
    ensures ThreadOk(s.m, r.locks, s.t, r.th) && IsQuiet(s, s.ths[p], r)
  {
    hide Rep, LocksOk, Counting, Unlisted, HashOf, Walked, At;
    var pc := s.ths[p].pc;
    assert ThreadOk(s.m, s.locks, s.t, s.ths[p]);
    if pc.ReleTest? { RefIsCounted(s.m.foo, s.ths, p, pc.a); }
  }

  lemma QuietEnd(s: State, p: nat, r: Outcome)
    requires p < |s.ths| && r == After(s, p, s.ths[p])
    requires var pc := s.ths[p].pc; pc.ReleUnF? || pc.ReleUnF2? || pc.ReleUnhash? || pc.ReleGone? || pc.ReleUnF3?
    requires Inv(s)
    ensures ThreadOk(s.m, r.locks, s.t, r.th) && IsQuiet(s, s.ths[p], r)
  {
    hide Rep, LocksOk, Counting, Unlisted, HashOf, Walked, At;
    assert ThreadOk(s.m, s.locks, s.t, s.ths[p]);
  }

  /** The recheck, and the walk to the cell before the object. */
  lemma QuietWalk(s: State, p: nat, r: Outcome)
    requires p < |s.ths| && r == After(s, p, s.ths[p])
    requires var pc := s.ths[p].pc; pc.ReleAgain? || (pc.ReleWalk? && At(s.m.ptr, pc.l) != pc.a)
    requires Inv(s)
    ensures ThreadOk(s.m, r.locks, s.t, r.th) && IsQuiet(s, s.ths[p], r)
  {
    hide Rep, LocksOk, Counting, Unlisted, HashOf, Walked, At;
    var pc := s.ths[p].pc;
    assert ThreadOk(s.m, s.locks, s.t, s.ths[p]);
    if pc.ReleAgain? {
      Listed(s, p, pc.a);
      if HasCount(s.m, pc.a, 1) { WalkStart(s.m, s.t, pc.a); }
    } else {
      WalkOn(s.m, s.t, pc.a, pc.l, pc.i);
    }
  }

  lemma StepQuiet(s: State, p: nat, r: Outcome, s': State)
    requires p < |s.ths| && r == After(s, p, s.ths[p]) && s' == Put(s, p, r)
    requires ThreadOk(s.m, r.locks, s.t, r.th) && IsQuiet(s, s.ths[p], r)
    requires s.ths[p].pc.FindAt? && s.ths[p].pc.fp == NULL ==> Does(s.t, r.th.call, NULL, s.t)
    requires Enabled(s, p, Go) && Inv(s)
    ensures Inv(s') && Refines(s, p, s')
  {
    LocksFollow(s, p, r, s'.ths);
    hide Rep, LocksOk, Counting, Unlisted, ThreadOk, After, Enabled, Does, Addr, IsPrivate;
    Quiet(s, p, r.locks, r.th);
  }

  // ----- steps that write -----

  /** f_count = n by the thread that holds the f_lock; the object stays in the table. */
  lemma StepCount(s: State, p: nat, a: nat, n: int, pc: Pc, refs: multiset<nat>, s': State)
    requires p < |s.ths| && HoldsF(s.ths[p].pc) && Addr(s.ths[p].pc) == a && !IsPrivate(s.ths[p].pc)
    requires a in s.t.count && a in s.m.foo && a != NULL
    requires n == s.m.foo[a].count + refs[a] - s.ths[p].refs[a]
    requires forall x :: x != a ==> refs[x] == s.ths[p].refs[x]
    requires s' == Put(s, p, SetCount(s, s.ths[p], a, n, pc, refs)) && n >= 1
    requires LocksOk(s.locks, s'.ths) && ThreadOk(s'.m, s'.locks, s'.t, s'.ths[p])
    requires Inv(s)
    ensures Inv(s')
  {
    hide LocksOk, HashOf, Searched, Walked, Rep, First;
    Recount(s.m, s.t, a, n);
    CountingPut(s.m.foo, s.ths, p, a, n, s'.ths);
    hide Counting;
    forall q | 0 <= q < |s.ths| && q != p ensures ThreadOk(s'.m, s'.locks, s'.t, s.ths[q]) {
      assert ThreadOk(s.m, s.locks, s.t, s.ths[q]);
      hide ThreadOk;
      NotTheirs(s, p, q, a);
      Undisturbed(s.m, s.locks, s.t, s'.m, s'.locks, s'.t, s.ths[q]);
    }
    hide ThreadOk;
    StillPrivate(s.m, s.t, s.ths, p, s'.ths[p], s'.m, s'.t);
  }

  /** Nobody else has locked, or has to himself, an object of the table that p has locked. */
  lemma NotTheirs(s: State, p: nat, q: nat, a: nat)
    requires p < |s.ths| && q < |s.ths| && p != q
    requires HoldsF(s.ths[p].pc) && Addr(s.ths[p].pc) == a && a in s.t.count && a != NULL
    requires Inv(s)
    ensures HoldsF(s.ths[q].pc) || IsPrivate(s.ths[q].pc) ==> Addr(s.ths[q].pc) != a
  {
    hide Rep, LocksOk, Counting, Unlisted, ThreadOk, HoldsHash, IsPrivate;
    if HoldsF(s.ths[q].pc) && Addr(s.ths[q].pc) == a { OneHolder(s.locks, s.ths, p, q, a); }
    if IsPrivate(s.ths[q].pc) { PrivateIsSole(s, q); }
  }

  lemma StepHoldWrite(s: State, p: nat, a: nat, n: int, s': State)
    requires p < |s.ths| && s.ths[p].pc == HoldWrite(a, n)
    requires s' == Put(s, p, SetCount(s, s.ths[p], a, n + 1, HoldUnF(a), s.ths[p].refs + multiset{a}))
    requires LocksOk(s.locks, s'.ths)
    requires Inv(s)
    ensures Inv(s') && Refines(s, p, s')
  {
    hide Rep, LocksOk, Counting, Unlisted, HashOf;
    assert ThreadOk(s.m, s.locks, s.t, s.ths[p]);
    hide Inv;
    Listed(s, p, a);
    RefIsCounted(s.m.foo, s.ths, p, a) by { CountingOf(s); }
    StepCount(s, p, a, n + 1, HoldUnF(a), s.ths[p].refs + multiset{a}, s');
  }

  lemma CountingOf(s: State)
    requires Inv(s)
    ensures Counting(s.m.foo, s.ths) && LocksOk(s.locks, s.ths) && Rep(s.m, s.t) && Unlisted(s.m, s.t, s.ths)
  {
    hide Rep, LocksOk, Counting, Unlisted, ThreadOk;
  }

  lemma StepFindWrite(s: State, p: nat, a: nat, n: int, s': State)
    requires p < |s.ths| && s.ths[p].pc == FindWrite(a, n)
    requires s' == Put(s, p, SetCount(s, s.ths[p], a, n + 1, FindUnF(a), s.ths[p].refs + multiset{a}))
    requires LocksOk(s.locks, s'.ths)
    requires Inv(s)
    ensures Inv(s') && Refines(s, p, s')
  {
    hide Rep, LocksOk, Counting, Unlisted, HashOf, First;
    assert ThreadOk(s.m, s.locks, s.t, s.ths[p]);
    hide Inv;
    FirstIsListed(s, p);
    InTable(s, a);
    CountIsPositive(s, a);
    StepCount(s, p, a, n + 1, FindUnF(a), s.ths[p].refs + multiset{a}, s');
  }

  lemma CountIsPositive(s: State, a: nat)
    requires a in s.m.foo && Inv(s)
    ensures s.m.foo[a].count >= 0
  {
    hide Rep, LocksOk, Unlisted, ThreadOk, Refs;
  }

  lemma ReleWriteFacts(s: State, p: nat, a: nat, n: int)
    requires p < |s.ths| && (s.ths[p].pc == ReleWrite(a, n) || s.ths[p].pc == ReleWrite2(a, n))
    requires Inv(s)
    ensures Owns(s.ths[p], Rele(a), a) && HasCount(s.m, a, n) && n != 1
  {
    hide Rep, LocksOk, Counting, Unlisted;
    assert ThreadOk(s.m, s.locks, s.t, s.ths[p]);
  }

  lemma JustReleased(m: Memory, locks: map<int, nat>, t: Table, th: Thread, a: nat)
    requires (th.pc == ReleUnF(a) || th.pc == ReleUnF2(a)) && th.call == Rele(a) && a in m.foo
    ensures ThreadOk(m, locks, t, th)
  {
  }

  lemma StepReleWrite(s: State, p: nat, a: nat, n: int, pc: Pc, s': State)
    requires p < |s.ths|
    requires (s.ths[p].pc == ReleWrite(a, n) && pc == ReleUnF(a))
             || (s.ths[p].pc == ReleWrite2(a, n) && pc == ReleUnF2(a))
    requires s' == Put(s, p, SetCount(s, s.ths[p], a, n - 1, pc, s.ths[p].refs - multiset{a}))
    requires LocksOk(s.locks, s'.ths)
    requires Inv(s)
    ensures Inv(s') && Refines(s, p, s')
  {
    hide Rep, LocksOk, Counting, Unlisted, HashOf, ThreadOk, Inv;
    ReleWriteFacts(s, p, a, n);
    Listed(s, p, a);
    RefIsCounted(s.m.foo, s.ths, p, a) by { CountingOf(s); }
    JustReleased(s'.m, s.locks, s'.t, s'.ths[p], a);
    StepCount(s, p, a, n - 1, pc, s.ths[p].refs - multiset{a}, s');
  }

  /** fp->f_next = fh[idx], for an object nobody else can see. */
  lemma StepNext(s: State, p: nat, a: nat, id: int, s': State)
    requires p < |s.ths| && s.ths[p].pc == AllocNext(a, id)
    requires s' == Put(s, p, Outcome(s.m.(ptr := s.m.ptr[a := At(s.m.ptr, HashOf(id))]), s.locks, s.t,
                                     s.ths[p].(pc := AllocHead(a, id))))
    requires LocksOk(s.locks, s'.ths)
    requires Inv(s)
    ensures Inv(s') && Refines(s, p, s')
  {
    hide LocksOk, Counting, Unlisted, HashOf, Rep;
    assert ThreadOk(s.m, s.locks, s.t, s.ths[p]);
    hide Inv;
    CountingOf(s);
    NextWritten(s.m, s.t, a, At(s.m.ptr, HashOf(id)), s'.m);
    assert At(s'.m.ptr, a) == At(s'.m.ptr, HashOf(id));
    OthersSpared(s, p, s');
    ConcludeHash(s, p, s');
  }

  lemma NextWritten(m: Memory, t: Table, a: nat, v: nat, m': Memory)
    requires a in m.foo && a !in t.count && m' == m.(ptr := m.ptr[a := v])
    requires Rep(m, t)
    ensures Rep(m', t)
  {
    hide Lists;
    ListsSame(m, t, m'.ptr, a);
  }

  /** A step under hashlock that keeps all counts and references keeps the rest of the invariant. */
  lemma ConcludeHash(s: State, p: nat, s': State)
    requires p < |s.ths| == |s'.ths| && s'.ths == s.ths[p := s'.ths[p]]
    requires s'.m.foo == s.m.foo && s'.ths[p].refs == s.ths[p].refs
    requires Rep(s'.m, s'.t) && LocksOk(s'.locks, s'.ths) && ThreadOk(s'.m, s'.locks, s'.t, s'.ths[p])
    requires forall q :: 0 <= q < |s.ths| && q != p ==> ThreadOk(s'.m, s'.locks, s'.t, s'.ths[q])
    requires forall a :: a in s.m.foo && a !in s'.t.count ==>
               ((a !in s.t.count && (PrivateTo(s.ths, p, a) ==> PrivateTo(s'.ths, p, a))) || PrivateTo(s'.ths, p, a))
    requires Inv(s)
    ensures Inv(s')
  {
    hide Rep, LocksOk, Counting, ThreadOk, HashOf;
    StillPrivate(s.m, s.t, s.ths, p, s'.ths[p], s'.m, s'.t);
    RefsPutAll(s.ths, p, s'.ths[p], s'.ths);
    CountingSame(s.m.foo, s.ths, s'.ths);
  }

  /** While p holds hashlock its writes to the chains disturb nobody. */
  lemma OthersSpared(s: State, p: nat, s': State)
    requires p < |s.ths| && HoldsHash(s.ths[p].pc) && |s'.ths| == |s.ths|
    requires forall q :: 0 <= q < |s.ths| && q != p ==> s'.ths[q] == s.ths[q]
    requires s'.m.foo == s.m.foo && s'.locks == s.locks
    requires forall a :: a in s'.t.count && a !in s.t.count ==> a in s.ths[p].refs
    requires Inv(s)
    ensures forall q :: 0 <= q < |s.ths| && q != p ==> ThreadOk(s'.m, s'.locks, s'.t, s'.ths[q])
  {
    hide Rep, LocksOk, Counting, Unlisted, HashOf, List;
    forall q | 0 <= q < |s.ths| && q != p ensures ThreadOk(s'.m, s'.locks, s'.t, s'.ths[q]) {
      assert ThreadOk(s.m, s.locks, s.t, s.ths[q]);
      hide ThreadOk, HoldsHash, IsPrivate, HoldsF, Addr;
      if HoldsHash(s.ths[q].pc) { OneHolder(s.locks, s.ths, p, q, HASHLOCK); }
      if IsPrivate(s.ths[q].pc) {
        var a := Addr(s.ths[q].pc);
        PrivateIsSole(s, q);
        if a in s.ths[p].refs { Shared(s.m.foo, s.ths, p, q, a); }
      }
      Undisturbed(s.m, s.locks, s.t, s'.m, s'.locks, s'.t, s.ths[q]);
    }
  }

  /** fh[idx] = fp: the point where foo_alloc takes effect. */
  lemma StepHead(s: State, p: nat, a: nat, id: int, s': State)
    requires p < |s.ths| && s.ths[p].pc == AllocHead(a, id)
    requires s' == Put(s, p, Outcome(s.m.(ptr := s.m.ptr[HashOf(id) := a]), s.locks,
                                     Table([Ref(a, id)] + s.t.live, s.t.count[a := 1]), s.ths[p].(pc := AllocF(a))))
    requires LocksOk(s.locks, s'.ths)
    requires Inv(s)
    ensures Inv(s') && Refines(s, p, s')
  {
    hide LocksOk, Counting, Unlisted, HashOf, Rep;
    assert ThreadOk(s.m, s.locks, s.t, s.ths[p]);
    AllocatedAbove(s, a);
    hide Inv;
    CountingOf(s);
    HeadWritten(s.m, s.t, a);
    OthersSpared(s, p, s');
    ConcludeHash(s, p, s');
  }

  lemma HeadWritten(m: Memory, t: Table, a: nat)
    requires a in m.foo && a !in t.count && m.foo[a].count == 1 && At(m.ptr, a) == At(m.ptr, HashOf(m.foo[a].id))
    requires Rep(m, t)
    ensures Rep(m.(ptr := m.ptr[HashOf(m.foo[a].id) := a]), Table([Ref(a, m.foo[a].id)] + t.live, t.count[a := 1]))
  {
    hide HashOf, Lists, Alive;
    var c := HashOf(m.foo[a].id);
    assert HeadLinked(m.ptr, a, c) == m.ptr[c := a];
    LinkFirst(m, t, a);
  }

  /** Unlinking the object: the point where the last foo_rele takes effect. */
  lemma StepUnlink(s: State, p: nat, a: nat, l: nat, i: nat, s': State)
    requires p < |s.ths| && s.ths[p].pc == ReleWalk(a, l, i) && At(s.m.ptr, l) == a
    requires s' == Put(s, p, Outcome(s.m.(ptr := s.m.ptr[l := At(s.m.ptr, a)]), s.locks,
                                     if IsLive(s.t.live, a) then Dropped(s.t, a) else s.t,
                                     s.ths[p].(pc := ReleGone(a))))
    requires LocksOk(s.locks, s'.ths)
    requires Inv(s)
    ensures Inv(s') && Refines(s, p, s')
  {
    hide LocksOk, Counting, Unlisted, HashOf, Rep, IsLive, List;
    assert ThreadOk(s.m, s.locks, s.t, s.ths[p]);
    InTable(s, a);
    hide Inv;
    CountingOf(s);
    WalkOn(s.m, s.t, a, l, i);
    FooTable.Unlink(s.m, s.t, a, i + 1);
    OthersSpared(s, p, s');
    ConcludeHash(s, p, s');
  }

  /** free: exactly the thread that unlinked the object does it, and nobody has it locked. */
  lemma StepFree(s: State, p: nat, a: nat, s': State)
    requires p < |s.ths| && s.ths[p].pc == ReleFree(a)
    requires s' == Put(s, p, Outcome(Freed(s.m, a), s.locks, s.t,
                                     s.ths[p].(pc := Done(NULL), refs := s.ths[p].refs - multiset{a})))
    requires LocksOk(s.locks, s'.ths)
    requires Inv(s)
    ensures Inv(s') && Refines(s, p, s')
  {
    hide LocksOk, Counting, Unlisted, HashOf, Rep;
    assert ThreadOk(s.m, s.locks, s.t, s.ths[p]);
    CountingOf(s);
    FooTable.Free(s.m, s.t, a);
    FreedCounts(s.m.foo, s.ths, p, a, s'.ths);
    forall q | 0 <= q < |s.ths| && q != p ensures ThreadOk(s'.m, s'.locks, s'.t, s.ths[q]) {
      assert ThreadOk(s.m, s.locks, s.t, s.ths[q]);
      FreeSpares(s, p, q);
      hide ThreadOk;
      Undisturbed(s.m, s.locks, s.t, s'.m, s'.locks, s'.t, s.ths[q]);
    }
    StillPrivate(s.m, s.t, s.ths, p, s'.ths[p], s'.m, s'.t);
  }

  lemma FreeSpares(s: State, p: nat, q: nat)
    requires p < |s.ths| && q < |s.ths| && p != q && s.ths[p].pc.ReleFree?
    requires Inv(s)
    ensures var a := s.ths[p].pc.a; Spared(s.m, s.locks, s.t, Freed(s.m, a), s.locks, s.t, s.ths[q])
  {
    hide Inv, Rep, Counting, Unlisted, HashOf, ThreadOk, LocksOk;
    var pc, a := s.ths[q].pc, s.ths[p].pc.a;
    CountingOf(s);
    PrivateIsSole(s, p);
    AllocatedAbove(s, a);
    NotLocked(s, p, q);
    if IsPrivate(pc) {
      PrivateIsSole(s, q);
      if Addr(pc) == a { Shared(s.m.foo, s.ths, p, q, a); }
    }
    hide IsPrivate, HoldsF, Addr, HoldsHash;
    HeadsStay(s, a);
  }

  lemma NotLocked(s: State, p: nat, q: nat)
    requires p < |s.ths| && q < |s.ths| && s.ths[p].pc.ReleFree?
    requires Inv(s)
    ensures HoldsF(s.ths[q].pc) ==> Addr(s.ths[q].pc) != s.ths[p].pc.a
  {
    hide Rep, Counting, Unlisted, HashOf, HoldsF, HoldsHash;
    assert ThreadOk(s.m, s.locks, s.t, s.ths[p]);
    AllocatedAbove(s, s.ths[p].pc.a);
    hide ThreadOk;
    assert HoldsF(s.ths[q].pc) && Addr(s.ths[q].pc) != NULL ==> Holds(s.ths[q].pc, Addr(s.ths[q].pc));
  }

  lemma HeadsStay(s: State, a: nat)
    requires a >= NHASH
    ensures forall c :: 0 <= c < NHASH ==> At(Freed(s.m, a).ptr, c) == At(s.m.ptr, c)
  {
  }

  /** malloc gives the thread an object nobody knows of, with one reference. */
  lemma StepMalloc(s: State, p: nat, id: int, a: nat, junk: nat, s': State)
    requires p < |s.ths| && s.ths[p].pc.Idle? && a >= NHASH && a !in s.m.foo
    requires s' == Put(s, p, Outcome(Memory(s.m.ptr[a := junk], s.m.foo[a := Foo(id, 1)]), s.locks, s.t,
                                     Thread(Alloc(id), AllocHash(a, id), s.ths[p].refs + multiset{a})))
    requires Inv(s)
    ensures Inv(s') && Refines(s, p, s')
  {
    hide LocksOk, Counting, Unlisted, HashOf, Rep;
    CountingOf(s);
    LockKept(s.locks, s.ths, p, s'.ths[p], s'.ths);
    FooTable.Malloc(s.m, s.t, a, id, junk);
    MallocCounts(s.m.foo, s.ths, p, a, id, s'.ths);
    UnlistedNotThere(s, a);
    forall q | 0 <= q < |s.ths| && q != p ensures ThreadOk(s'.m, s'.locks, s'.t, s.ths[q]) {
      assert ThreadOk(s.m, s.locks, s.t, s.ths[q]);
      assert IsPrivate(s.ths[q].pc) ==> Addr(s.ths[q].pc) in s.m.foo by {
        if IsPrivate(s.ths[q].pc) { PrivateIsSole(s, q); }
      }
      hide ThreadOk;
      Undisturbed(s.m, s.locks, s.t, s'.m, s'.locks, s'.t, s.ths[q]);
    }
    StillPrivate(s.m, s.t, s.ths, p, s'.ths[p], s'.m, s'.t);
  }

  lemma UnlistedNotThere(s: State, a: nat)
    requires a !in s.m.foo && Inv(s)
    ensures a !in s.t.count
  {
    hide LocksOk, Counting, Unlisted, ThreadOk, Lists;
  }

  /** The other calls begin with nothing shared touched. */
  lemma StepInvoke(s: State, p: nat, th: Thread, s': State)
    requires p < |s.ths| && s.ths[p].pc.Idle? && th.refs == s.ths[p].refs && s' == s.(ths := s.ths[p := th])
    requires (th.call.Alloc? && th.pc == Done(NULL)) || (th.call.Find? && th.pc == FindHash(th.call.id))
             || (th.call.Hold? && th.pc == HoldF(th.call.a) && th.call.a in th.refs)
             || (th.call.Rele? && th.pc == ReleF(th.call.a) && th.call.a in th.refs)
    requires Inv(s)
    ensures Inv(s') && Refines(s, p, s')
  {
    hide LocksOk, Counting, Unlisted, HashOf, Rep;
    CountingOf(s);
    LockKept(s.locks, s.ths, p, th, s'.ths);
    Quiet(s, p, s.locks, th);
  }

  /** Handing a reference on changes no count. */
  lemma StepGive(s: State, p: nat, a: nat, to: nat, s': State)
    requires p < |s.ths| && to < |s.ths| && p != to && s.ths[p].pc.Idle? && a in s.ths[p].refs
    requires s' == s.(ths := s.ths[p := s.ths[p].(refs := s.ths[p].refs - multiset{a})]
                                  [to := s.ths[to].(refs := s.ths[to].refs + multiset{a})])
    requires Inv(s)
    ensures Inv(s')
  {
    hide ThreadOk, Rep, Counting, Refs, LocksOk, Unlisted;
    CountingOf(s);
    assert |s'.ths| == |s.ths|;
    assert forall q :: 0 <= q < |s.ths| ==> s'.ths[q].pc == s.ths[q].pc && s'.ths[q].call == s.ths[q].call;
    GiveCounts(s.ths, p, a, to, s'.ths);
    CountingSame(s.m.foo, s.ths, s'.ths);
    forall q | 0 <= q < |s.ths| ensures ThreadOk(s'.m, s'.locks, s'.t, s'.ths[q]) {
      if q == p { IdleIsOk(s'.m, s'.locks, s'.t, s'.ths[q]); }
      else { MoreRefs(s.m, s.locks, s.t, s.ths[q], s'.ths[q]); }
    }
    LocksSamePcs(s.locks, s.ths, s'.ths);
    SamePrivate(s, s');
  }

  lemma IdleIsOk(m: Memory, locks: map<int, nat>, t: Table, th: Thread)
    requires th.pc.Idle?
    ensures ThreadOk(m, locks, t, th)
  {
  }

  lemma MoreRefs(m: Memory, locks: map<int, nat>, t: Table, th: Thread, th': Thread)
    requires ThreadOk(m, locks, t, th) && th'.pc == th.pc && th'.call == th.call && th.refs <= th'.refs
    ensures ThreadOk(m, locks, t, th')
  {
    hide Searched, Walked, HashOf, First;
  }

  lemma GiveCounts(ths: seq<Thread>, p: nat, a: nat, to: nat, ths': seq<Thread>)
    requires p < |ths| && to < |ths| && p != to && a in ths[p].refs
    requires ths' == ths[p := ths[p].(refs := ths[p].refs - multiset{a})]
                        [to := ths[to].(refs := ths[to].refs + multiset{a})]
    ensures forall x: nat :: Refs(ths', x) == Refs(ths, x)
  {
    hide Refs;
    var th, th' := ths[p].(refs := ths[p].refs - multiset{a}), ths[to].(refs := ths[to].refs + multiset{a});
    var ths1 := ths[p := th];
    RefsPutAll(ths, p, th, ths1);
    RefsPutAll(ths1, to, th', ths');
  }

  lemma LocksSamePcs(locks: map<int, nat>, ths: seq<Thread>, ths': seq<Thread>)
    requires |ths'| == |ths| && (forall q :: 0 <= q < |ths| ==> ths'[q].pc == ths[q].pc) && LocksOk(locks, ths)
    ensures LocksOk(locks, ths')
  {
    hide Holds;
    forall l | l in locks ensures l >= 0 && locks[l] < |ths'| && Holds(ths'[locks[l]].pc, l) {
      assert ths'[locks[l]].pc == ths[locks[l]].pc;
    }
    forall q, l | 0 <= q < |ths'| && Holds(ths'[q].pc, l) ensures l in locks && locks[l] == q {
      assert Holds(ths[q].pc, l);
    }
  }

  lemma SamePrivate(s: State, s': State)
    requires s'.m == s.m && s'.t == s.t && |s'.ths| == |s.ths|
             && forall q :: 0 <= q < |s.ths| ==> s'.ths[q].pc == s.ths[q].pc
    requires Unlisted(s.m, s.t, s.ths)
    ensures Unlisted(s'.m, s'.t, s'.ths)
  {
    forall a | a in s.m.foo && a !in s.t.count ensures exists q: nat :: PrivateTo(s'.ths, q, a) {
      var q: nat :| PrivateTo(s.ths, q, a);
      assert PrivateTo(s'.ths, q, a);
    }
  }

  /** Every step of every thread keeps the invariant and refines the call's effect on the table. */
  lemma StepKeepsInv(s: State, p: nat, act: Action)
    requires Enabled(s, p, act)
    requires Inv(s)
    ensures Inv(Next(s, p, act)) && Refines(s, p, Next(s, p, act))
  {
    hide Rep, LocksOk, Counting, Unlisted, ThreadOk, Does, HashOf, Inv, Touches;
    var th, s' := s.ths[p], Next(s, p, act);
    match act {
      case Invoke(call, addr, junk) =>
        if call.Alloc? && addr != NULL {
          StepMalloc(s, p, call.id, addr, junk, s');
        } else {
          StepInvoke(s, p, s'.ths[p], s');
        }
      case Give(a, to) =>
        StepGive(s, p, a, to, s');
      case Go =>
        GoKeepsInv(s, p, s');
    }
  }

  lemma GoKeepsInv(s: State, p: nat, s': State)
    requires p < |s.ths| && s' == Put(s, p, After(s, p, s.ths[p]))
    requires Enabled(s, p, Go)
    requires Inv(s)
    ensures Inv(s') && Refines(s, p, s')
  {
    hide Rep, LocksOk, Counting, Unlisted, ThreadOk, Does, HashOf, Inv, Enabled, Refines;
    hide At, Lock, Unlock, Move, Counted, Obj, Freed, Dropped;
    var pc, r := s.ths[p].pc, After(s, p, s.ths[p]);
    assert !pc.Idle? by { CanGo(s, p); }
    LocksFollow(s, p, r, s'.ths);
    match pc {
      case AllocNext(a, id) => StepNext(s, p, a, id, s');
      case AllocHead(a, id) => StepHead(s, p, a, id, s');
      case HoldWrite(a, n) => StepHoldWrite(s, p, a, n, s');
      case FindWrite(a, n) => StepFindWrite(s, p, a, n, s');
      case ReleWrite(a, n) => StepReleWrite(s, p, a, n, ReleUnF(a), s');
      case ReleWrite2(a, n) => StepReleWrite(s, p, a, n, ReleUnF2(a), s');
      case ReleFree(a) => StepFree(s, p, a, s');
      case ReleWalk(a, l, i) =>
        if At(s.m.ptr, l) == a { StepUnlink(s, p, a, l, i, s'); } else { GoQuietly(s, p, r, s'); }
      case _ => GoQuietly(s, p, r, s');
    }
  }

  lemma CanGo(s: State, p: nat)
    requires Enabled(s, p, Go)
    ensures p < |s.ths| && !s.ths[p].pc.Idle?
  {
  }

  lemma GoQuietly(s: State, p: nat, r: Outcome, s': State)
    requires p < |s.ths| && r == After(s, p, s.ths[p]) && s' == Put(s, p, r)
    requires var pc := s.ths[p].pc;
             !pc.Idle? && !pc.AllocNext? && !pc.AllocHead? && !pc.HoldWrite? && !pc.FindWrite? && !pc.ReleWrite?
             && !pc.ReleWrite2? && !pc.ReleFree? && (pc.ReleWalk? ==> At(s.m.ptr, pc.l) != pc.a)
    requires Enabled(s, p, Go)
    requires Inv(s)
    ensures Inv(s') && Refines(s, p, s')
  {
    hide Inv, ThreadOk, After, Enabled, Refines, Does, IsQuiet, At;
    var pc := s.ths[p].pc;
    if pc.AllocHash? || pc.AllocF? || pc.AllocUnhash? || pc.AllocUnF? { QuietAlloc(s, p, r); }
    else if pc.HoldF? || pc.HoldRead? || pc.HoldUnF? || pc.Done? { QuietHold(s, p, r); }
    else if IsFind(pc) { QuietFind(s, p, r); }
    else if pc.ReleAgain? || pc.ReleWalk? { QuietWalk(s, p, r); }
    else if pc.ReleF? || pc.ReleTest? || pc.ReleLast? || pc.ReleHash? || pc.ReleF2? { QuietRele(s, p, r); }
    else { QuietEnd(s, p, r); }
    StepQuiet(s, p, r, s');
  }

  // ----- runs -----

  /** Empty chains, no object, and no thread has called anything. */
  ghost predicate Init(s: State) {
    && (forall c: nat :: c in s.m.ptr <==> c < NHASH) && (forall c: nat :: c < NHASH ==> s.m.ptr[c] == NULL)
    && s.m.foo == map[] && s.locks == map[] && s.t == Table([], map[])
    && forall p :: 0 <= p < |s.ths| ==> s.ths[p].pc.Idle? && s.ths[p].refs == multiset{}
  }

  lemma InitIsGood(s: State)
    requires Init(s)
    ensures Inv(s)
  {
    hide Refs, HashOf;
    forall a: nat ensures Refs(s.ths, a) == 0 { NoRefs(s.ths, a); }
    forall c | 0 <= c < NHASH ensures Path(s.m.ptr, List([], c)) {
      assert List([], c) == [c] && Chain.Linked(s.m.ptr, [c], 0);
    }
  }

  /** Who acts, and how, in which order. */
  type Trace = seq<(nat, Action)>

  ghost predicate Runs(s: State, tr: Trace)
    decreases |tr|
  {
    tr == [] || (Enabled(s, tr[0].0, tr[0].1) && Runs(Next(s, tr[0].0, tr[0].1), tr[1..]))
  }

  ghost function Last(s: State, tr: Trace): State
    requires Runs(s, tr)
    decreases |tr|
  {
    if tr == [] then s else Last(Next(s, tr[0].0, tr[0].1), tr[1..])
  }

  /** A step by p in which its call takes effect. */
  ghost function Effect(s: State, p: nat, act: Action): seq<Event<Call, nat>>
    requires Enabled(s, p, act)
  {
    var pc, th' := s.ths[p].pc, Next(s, p, act).ths[p];
    if Verdict(pc).Pending? && Verdict(th'.pc).Took? then [Event(p, th'.call, Verdict(th'.pc).res)] else []
  }

  /** A step by p in which its call returns. */
  ghost function Return(s: State, p: nat, act: Action): seq<Event<Call, nat>>
    requires p < |s.ths|
  {
    var th := s.ths[p];
    if act.Go? && th.pc.Done? then [Event(p, th.call, th.pc.res)] else []
  }

  /** The calls in the order they took effect, with the results they had. */
  ghost function Effects(s: State, tr: Trace): seq<Event<Call, nat>>
    requires Runs(s, tr)
    decreases |tr|
  {
    if tr == [] then [] else Effect(s, tr[0].0, tr[0].1) + Effects(Next(s, tr[0].0, tr[0].1), tr[1..])
  }

  /** The calls in the order they returned, with the results they returned. */
  ghost function Returns(s: State, tr: Trace): seq<Event<Call, nat>>
    requires Runs(s, tr)
    decreases |tr|
  {
    if tr == [] then [] else Return(s, tr[0].0, tr[0].1) + Returns(Next(s, tr[0].0, tr[0].1), tr[1..])
  }

  /** The calls that thread q makes. */
  function Made(tr: Trace, q: nat): seq<Call>
    decreases |tr|
  {
    if tr == [] then [] else MadeNow(tr[0].0, tr[0].1, q) + Made(tr[1..], q)
  }

  function MadeNow(p: nat, act: Action, q: nat): seq<Call> { if p == q && act.Invoke? then [act.call] else [] }

  /** What thread q is in the middle of. */
  function InMiddle(ths: seq<Thread>, q: nat): Midway<Call, nat>
    requires q < |ths|
  {
    var th := ths[q];
    match Verdict(th.pc)
    case Pending => Midway(if th.pc.Idle? then [] else [th.call], [])
    case Took(res) => Midway([], [Event(q, th.call, res)])
  }

  /** The account of thread q over a run. */
  ghost predicate AccountIsRight(s: State, tr: Trace, q: nat)
    requires Runs(s, tr) && q < |s.ths| && q < |Last(s, tr).ths|
  {
    Accounted(q, InMiddle(s.ths, q), Made(tr, q), Effects(s, tr), Returns(s, tr),
              InMiddle(Last(s, tr).ths, q))
  }

  /** One step of p in the account of q. */
  lemma StepAccounts(s: State, p: nat, act: Action, q: nat)
    requires p < |s.ths| && q < |s.ths| && Enabled(s, p, act)
    requires Refines(s, p, Next(s, p, act))
    ensures |Next(s, p, act).ths| == |s.ths|
    ensures Accounted(q, InMiddle(s.ths, q), MadeNow(p, act, q), Effect(s, p, act), Return(s, p, act),
                      InMiddle(Next(s, p, act).ths, q))
  {
    hide Does, Accounted;
    var s' := Next(s, p, act);
    StepOf(s, p, act, q);
    OneStep(q, InMiddle(s.ths, q), MadeNow(p, act, q), Effect(s, p, act), Return(s, p, act), InMiddle(s'.ths, q));
  }

  lemma StepOf(s: State, p: nat, act: Action, q: nat)
    requires p < |s.ths| && q < |s.ths| && Enabled(s, p, act)
    ensures var s' := Next(s, p, act);
            && |s'.ths| == |s.ths|
            && (q != p ==> s'.ths[q].pc == s.ths[q].pc && s'.ths[q].call == s.ths[q].call)
            && (act.Invoke? ==> s.ths[p].pc.Idle? && s'.ths[p].call == act.call && !s'.ths[p].pc.Idle?)
            && (act.Give? ==> s'.ths[p].pc == s.ths[p].pc && s'.ths[p].call == s.ths[p].call)
            && (act.Go? ==> (s'.ths[p].pc.Idle? <==> s.ths[p].pc.Done?))
  {
    hide HashOf, At, Obj, IsLive, Counted, Dropped, Touches, Wanted, Freed;
  }

  /**
   * Every run of any number of threads keeps the invariant, and its calls have the results
   * and the effect they would have one at a time in the order of their effects.  Each call a
   * thread makes is one of these events, and returns the event's result.
   */
  lemma {:induction false} RunsAreAtomic(s: State, tr: Trace)
    requires Inv(s) && Runs(s, tr)
    ensures Inv(Last(s, tr)) && Sequentially(s.t, Effects(s, tr), Last(s, tr).t) && |Last(s, tr).ths| == |s.ths|
    ensures forall q :: 0 <= q < |s.ths| ==> AccountIsRight(s, tr, q)
    decreases |tr|
  {
    hide Inv, Enabled, Next, Does, Verdict, Refines, Accounted, InMiddle, Return;
    if tr != [] {
      var p, act, s' := tr[0].0, tr[0].1, Next(s, tr[0].0, tr[0].1);
      NextSizes(s, p, act);
      StepKeepsInv(s, p, act);
      RunsAreAtomic(s', tr[1..]);
      EffectFirst(s, p, act, Effects(s', tr[1..]), Last(s, tr).t);
      forall q | 0 <= q < |s.ths| ensures AccountIsRight(s, tr, q) {
        StepAccounts(s, p, act, q);
        assert AccountIsRight(s', tr[1..], q);
        AccountedOn(q, InMiddle(s.ths, q), MadeNow(p, act, q), Effect(s, p, act), Return(s, p, act),
                    InMiddle(s'.ths, q), Made(tr[1..], q), Effects(s', tr[1..]), Returns(s', tr[1..]),
                    InMiddle(Last(s, tr).ths, q));
      }
    } else {
      forall q | 0 <= q < |s.ths| ensures AccountIsRight(s, tr, q) {
        OneStep(q, InMiddle(s.ths, q), [], [], [], InMiddle(s.ths, q));
      }
    }
  }

  lemma EffectFirst(s: State, p: nat, act: Action, events: seq<Event<Call, nat>>, t': Table)
    requires Enabled(s, p, act) && p < |s.ths| && p < |Next(s, p, act).ths| && Refines(s, p, Next(s, p, act))
    requires Sequentially(Next(s, p, act).t, events, t')
    ensures Sequentially(s.t, Effect(s, p, act) + events, t')
  {
    hide Enabled, Next, Does, Verdict, Sequentially;
    var s' := Next(s, p, act);
    if Effect(s, p, act) != [] {
      SequentiallyFirst(s.t, Event(p, s'.ths[p].call, Verdict(s'.ths[p].pc).res), s'.t, events, t');
    } else {
      assert [] + events == events;
    }
  }

  lemma NextSizes(s: State, p: nat, act: Action)
    requires Enabled(s, p, act)
    ensures p < |s.ths| && |Next(s, p, act).ths| == |s.ths|
  {
    hide After, Begun;
  }

  /** From the empty table on: what holds of every reachable state. */
  lemma ReachableIsGood(s: State, tr: Trace)
    requires Init(s) && Runs(s, tr)
    ensures Inv(Last(s, tr)) && Sequentially(Table([], map[]), Effects(s, tr), Last(s, tr).t)
    ensures forall q :: 0 <= q < |s.ths| ==>
              By(Returns(s, tr), q) <= By(Effects(s, tr), q) && Calls(Effects(s, tr), q) <= Made(tr, q)
  {
    hide Inv, Runs, Last, Effects, Returns, Accounted;
    InitIsGood(s);
    RunsAreAtomic(s, tr);
    forall q | 0 <= q < |s.ths|
      ensures By(Returns(s, tr), q) <= By(Effects(s, tr), q) && Calls(Effects(s, tr), q) <= Made(tr, q)
    {
      assert AccountIsRight(s, tr, q) && InMiddle(s.ths, q) == Midway([], []);
      FromIdle(q, Made(tr, q), Effects(s, tr), Returns(s, tr), InMiddle(Last(s, tr).ths, q));
    }
  }

  // ----- results by history, and by malloc -----

  /** In every run from the empty table on, each call has the result that the calls before it ask for. */
  lemma ResultsFit(s: State, tr: Trace, k: nat)
    requires Init(s) && Runs(s, tr) && k < |Effects(s, tr)|
    ensures FitsHistory(Effects(s, tr)[..k], Effects(s, tr)[k])
  {
    hide Inv, Runs, Last, Effects, Sequentially, FitsHistory;
    ReachableIsGood(s, tr);
    ResultsFitHistory(Effects(s, tr), Last(s, tr).t, k);
  }

  /** And at its end an object in the table has as many references as were given out and not taken back. */
  lemma CountsFit(s: State, tr: Trace, a: nat)
    requires Init(s) && Runs(s, tr)
    ensures var s' := Last(s, tr);
            && (a in s'.t.count <==> Given(Effects(s, tr), a) > 0)
            && (a in s'.t.count ==> a in s'.m.foo && s'.m.foo[a].count == Given(Effects(s, tr), a))
  {
    hide Inv, Runs, Last, Effects, Sequentially, Given;
    ReachableIsGood(s, tr);
    TableIsHistory(Effects(s, tr), Last(s, tr).t);
    if a in Last(s, tr).t.count { InTable(Last(s, tr), a); }
  }

  /** What malloc gave to the calls of foo_alloc that thread q makes, with their ids. */
  function Mallocs(tr: Trace, q: nat): seq<(int, nat)>
    decreases |tr|
  {
    if tr == [] then [] else MallocNow(tr[0].0, tr[0].1, q) + Mallocs(tr[1..], q)
  }

  function MallocNow(p: nat, act: Action, q: nat): seq<(int, nat)> {
    if p == q && act.Invoke? && act.call.Alloc? then [(act.call.id, act.addr)] else []
  }

  /** The object of a foo_alloc that has not taken effect. */
  function InHand(pc: Pc): seq<(int, nat)> {
    if pc.AllocHash? || pc.AllocNext? || pc.AllocHead? then [(pc.id, pc.a)] else []
  }

  lemma StepAllocates(s: State, p: nat, act: Action, q: nat)
    requires p < |s.ths| && q < |s.ths| && Enabled(s, p, act)
    requires Inv(s)
    ensures |Next(s, p, act).ths| == |s.ths|
    ensures InHand(s.ths[q].pc) + MallocNow(p, act, q)
            == Allocated(Effect(s, p, act), q) + InHand(Next(s, p, act).ths[q].pc)
  {
    hide Inv, After, Touches, Wanted;
    StepOf(s, p, act, q);
    if p == q && act.Go? {
      StepOf(s, p, act, p);
      if InHand(s.ths[p].pc) != [] { AllocGoes(s, p); } else { NoAlloc(s, p); }
      assert Next(s, p, act).ths[p] == After(s, p, s.ths[p]).th;
    }
  }

  lemma AllocGoes(s: State, p: nat)
    requires p < |s.ths| && InHand(s.ths[p].pc) != []
    requires Inv(s)
    ensures var pc, th' := s.ths[p].pc, After(s, p, s.ths[p]).th;
            && th'.call == Alloc(pc.id) && Verdict(pc).Pending?
            && (if pc.AllocHead? then Verdict(th'.pc) == Took(pc.a) && InHand(th'.pc) == []
                else Verdict(th'.pc).Pending? && InHand(th'.pc) == InHand(pc))
  {
    hide Rep, LocksOk, Counting, Unlisted, HashOf;
    assert ThreadOk(s.m, s.locks, s.t, s.ths[p]);
  }

  lemma NoAlloc(s: State, p: nat)
    requires p < |s.ths| && InHand(s.ths[p].pc) == [] && !s.ths[p].pc.Idle?
    requires Inv(s)
    ensures var th' := After(s, p, s.ths[p]).th;
            InHand(th'.pc) == [] && (Verdict(s.ths[p].pc).Pending? ==> !th'.call.Alloc?)
  {
    hide Rep, LocksOk, Counting, Unlisted;
    NoAllocNext(s, p, s.ths[p]);
    hide After;
    assert ThreadOk(s.m, s.locks, s.t, s.ths[p]);
  }

  lemma NoAllocNext(s: State, p: nat, th: Thread)
    requires InHand(th.pc) == []
    ensures InHand(After(s, p, th).th.pc) == [] && After(s, p, th).th.call == th.call
  {
    hide HashOf, At, Obj, IsLive, Counted, Dropped, Freed;
  }

  /** In every run: each foo_alloc of a thread has the result that its malloc gave it. */
  lemma {:induction false} AllocsGetMallocs(s: State, tr: Trace, q: nat)
    requires q < |s.ths| && Runs(s, tr)
    requires Inv(s)
    ensures |Last(s, tr).ths| == |s.ths|
    ensures InHand(s.ths[q].pc) + Mallocs(tr, q) == Allocated(Effects(s, tr), q) + InHand(Last(s, tr).ths[q].pc)
    decreases |tr|
  {
    hide Inv, Enabled, Next, Effect, InHand, Refines;
    if tr != [] {
      var p, act, s' := tr[0].0, tr[0].1, Next(s, tr[0].0, tr[0].1);
      NextSizes(s, p, act);
      StepKeepsInv(s, p, act);
      StepAllocates(s, p, act, q);
      AllocsGetMallocs(s', tr[1..], q);
      AllocatedBoth(Effect(s, p, act), Effects(s', tr[1..]), q);
      Carried(InHand(s.ths[q].pc), MallocNow(p, act, q), Allocated(Effect(s, p, act), q), InHand(s'.ths[q].pc),
              Mallocs(tr[1..], q), Allocated(Effects(s', tr[1..]), q), InHand(Last(s, tr).ths[q].pc));
    }
  }

  /** From the empty table on: what the foo_alloc calls of a thread return is, in order, what malloc gave them. */
  lemma AllocReturnsMalloc(s: State, tr: Trace, q: nat)
    requires Init(s) && Runs(s, tr) && q < |s.ths|
    ensures Allocated(Returns(s, tr), q) <= Allocated(Effects(s, tr), q) <= Mallocs(tr, q)
  {
    hide Inv, Runs, Last, Effects, Returns, Sequentially, Allocated;
    InitIsGood(s);
    ReachableIsGood(s, tr);
    AllocsGetMallocs(s, tr, q);
    AllocatedPrefix(Returns(s, tr), Effects(s, tr), q);
    assert InHand(s.ths[q].pc) == [] && [] + Mallocs(tr, q) == Mallocs(tr, q);
  }

  // ----- what the invariant says of memory -----

  /** No thread is ever about to touch an object that is not in memory. */
  lemma NoStepTouchesFreed(s: State, p: nat, x: nat)
    requires p < |s.ths| && Touches(s.ths[p].pc, x)
    requires Inv(s)
    ensures x in s.m.foo
  {
    hide LocksOk, Unlisted, Rep, HashOf, List, First;
    var pc := s.ths[p].pc;
    CountingOf(s);
    assert ThreadOk(s.m, s.locks, s.t, s.ths[p]);
    hide Counting;
    if x in s.ths[p].refs { RefIsCounted(s.m.foo, s.ths, p, x); }
    if pc.FindAt? { SearchOn(s.m, s.t, pc.id, pc.fp, pc.i); }
    if pc.FindF? || pc.FindRead? || pc.FindWrite? { FirstIsListed(s, p); }
    if pc.ReleWalk? && x == pc.l && pc.i > 0 { ListHas(s.m, s.t, HashOf(s.m.foo[pc.a].id), pc.i - 1); }
    if pc.ReleWalk? && x == pc.l && pc.i == 0 { ListStarts(s.t.live, HashOf(s.m.foo[pc.a].id)); }
  }

  lemma ListStarts(live: seq<Ref>, c: nat)
    ensures List(live, c)[0] == c
  {
  }

  /**
   * An object is in the table exactly as long as it has references that are not its maker's
   * or its last owner's alone; outside the table exactly one thread has it, and that thread
   * will link it or free it, once.
   */
  lemma OneOwnerOutside(s: State, a: nat) returns (p: nat)
    requires a in s.m.foo && a !in s.t.count
    requires Inv(s)
    ensures PrivateTo(s.ths, p, a) && s.m.foo[a].count == 1
    ensures forall q :: 0 <= q < |s.ths| && q != p ==> a !in s.ths[q].refs && !PrivateTo(s.ths, q, a)
  {
    hide LocksOk, Rep, HashOf, ThreadOk, Counting;
    p :| PrivateTo(s.ths, p, a);
    CountingOf(s);
    PrivateIsSole(s, p);
    forall q | 0 <= q < |s.ths| && q != p ensures a !in s.ths[q].refs && !PrivateTo(s.ths, q, a) {
      if a in s.ths[q].refs { Shared(s.m.foo, s.ths, p, q, a); }
      if PrivateTo(s.ths, q, a) { PrivateIsSole(s, q); }
    }
  }

  // ----- progress -----

  /** The order of locking: an f_lock after hashlock. */
  function Level(pc: Pc): (n: nat)
    ensures n <= 2
  {
    if HoldsF(pc) then 2 else if HoldsHash(pc) then 1 else 0
  }

  /** Whoever has the lock a thread wants has locked further than that thread. */
  lemma HolderIsAhead(s: State, p: nat)
    requires p < |s.ths| && Wanted(s.ths[p].pc) in s.locks
    requires Inv(s)
    ensures var q := s.locks[Wanted(s.ths[p].pc)];
            q < |s.ths| && Level(s.ths[q].pc) > Level(s.ths[p].pc) && !s.ths[q].pc.Idle?
  {
    hide Rep, Counting, Unlisted, ThreadOk;
    var l := Wanted(s.ths[p].pc);
    assert Holds(s.ths[s.locks[l]].pc, l);
    if l == HASHLOCK && !(s.ths[p].pc.AllocHash? || s.ths[p].pc.FindHash? || s.ths[p].pc.ReleHash?) {
      NoStepTouchesFreed(s, p, NULL);
      AllocatedAbove(s, NULL);
    }
  }

  /** Deadlock freedom: as long as some thread is inside a call, some thread can go on. */
  lemma {:induction false} SomeoneCanGo(s: State, p: nat) returns (q: nat)
    requires p < |s.ths| && !s.ths[p].pc.Idle?
    requires Inv(s)
    ensures Enabled(s, q, Go)
    decreases 2 - Level(s.ths[p].pc)
  {
    hide Inv, Level, Wanted, Touches;
    if Wanted(s.ths[p].pc) in s.locks {
      HolderIsAhead(s, p);
      q := SomeoneCanGo(s, s.locks[Wanted(s.ths[p].pc)]);
    } else {
      forall x | Touches(s.ths[p].pc, x) ensures x in s.m.foo { NoStepTouchesFreed(s, p, x); }
      q := p;
    }
  }

  /** How far a call still has to go, the steps along a chain counted as one, */
  function Stage(pc: Pc): nat {
    match pc
    case Idle => 0
    case Done(_) => 1
    case AllocHash(_, _) => 7
    case AllocNext(_, _) => 6
    case AllocHead(_, _) => 5
    case AllocF(_) => 4
    case AllocUnhash(_) => 3
    case AllocUnF(_) => 2
    case HoldF(_) => 5
    case HoldRead(_) => 4
    case HoldWrite(_, _) => 3
    case HoldUnF(_) => 2
    case FindHash(_) => 8
    case FindAt(_, _, _) => 7
    case FindF(_) => 6
    case FindRead(_) => 5
    case FindWrite(_, _) => 4
    case FindUnF(_) => 3
    case FindUnhash(_) => 2
    case ReleF(_) => 11
    case ReleTest(_) => 10
    case ReleWrite(_, _) => 3
    case ReleUnF(_) => 2
    case ReleLast(_) => 9
    case ReleHash(_) => 8
    case ReleF2(_) => 7
    case ReleAgain(_) => 6
    case ReleWrite2(_, _) => 4
    case ReleUnF2(_) => 3
    case ReleUnhash => 2
    case ReleWalk(_, _, _) => 5
    case ReleGone(_) => 4
    case ReleUnF3(_) => 3
    case ReleFree(_) => 2
  }

  /** and how much of the chain is left. */
  function ChainLeft(pc: Pc, t: Table): int {
    if pc.FindAt? || pc.ReleWalk? then |t.live| + 1 - pc.i else 0
  }

  /** Every call returns after finitely many steps of its own. */
  lemma StepsRunOut(s: State, p: nat)
    requires Enabled(s, p, Go)
    requires Inv(s)
    ensures var pc, s' := s.ths[p].pc, Next(s, p, Go);
            var pc' := s'.ths[p].pc;
            Stage(pc') < Stage(pc)
            || (Stage(pc') == Stage(pc) && s'.t == s.t && 0 <= ChainLeft(pc', s'.t) < ChainLeft(pc, s.t))
  {
    hide Inv, After;
    var r, s' := After(s, p, s.ths[p]), Next(s, p, Go);
    StageFalls(s, p, s.ths[p]);
    GoKeepsInv(s, p, s');
    if r.th.pc.FindAt? || r.th.pc.ReleWalk? { AtMost(s', p); }
  }

  /**
   * Nor do the steps of others give a call more to do: whoever is on a chain has hashlock, and so
   * nobody changes it.
   */
  lemma OthersLeaveIt(s: State, p: nat, act: Action, q: nat)
    requires p < |s.ths| && q < |s.ths| && p != q && Enabled(s, p, act)
    requires Inv(s)
    ensures |Next(s, p, act).ths| == |s.ths|
    ensures var pc, s' := s.ths[q].pc, Next(s, p, act);
            var pc' := s'.ths[q].pc;
            Stage(pc') == Stage(pc) && ChainLeft(pc', s'.t) == ChainLeft(pc, s.t)
  {
    hide Rep, LocksOk, Counting, Unlisted, ThreadOk, Stage;
    StepOf(s, p, act, q);
    if HoldsHash(s.ths[q].pc) {
      if HoldsHash(s.ths[p].pc) {
        OneHolder(s.locks, s.ths, p, q, HASHLOCK);
      } else {
        KeepsLive(s, p, act);
      }
    }
  }

  /** Without hashlock nobody changes a chain. */
  lemma KeepsLive(s: State, p: nat, act: Action)
    requires Enabled(s, p, act) && !HoldsHash(s.ths[p].pc)
    ensures Next(s, p, act).t.live == s.t.live
  {
    hide HashOf, At, Obj, IsLive, Dropped, Touches, Wanted, Freed;
  }

  predicate IsRele(pc: Pc) {
    pc.ReleF? || pc.ReleTest? || pc.ReleWrite? || pc.ReleUnF?
  }

  /** The window and the locks after it, */
  predicate IsWindow(pc: Pc) { pc.ReleLast? || pc.ReleHash? || pc.ReleF2? }

  /** the recheck and what follows it, */
  predicate IsAgain(pc: Pc) { pc.ReleAgain? || pc.ReleWalk? || pc.ReleWrite2? }

  /** and the rest. */
  predicate IsLast(pc: Pc) { pc.ReleUnF2? || pc.ReleUnhash? || pc.ReleGone? || pc.ReleUnF3? || pc.ReleFree? }

  predicate IsFind(pc: Pc) {
    pc.FindHash? || pc.FindAt? || pc.FindF? || pc.FindRead? || pc.FindWrite? || pc.FindUnF? || pc.FindUnhash?
  }

  /** Each step ends a stage, or goes one cell further along the chain. */
  ghost predicate StageEnds(s: State, th: Thread, r: Outcome) {
    || Stage(r.th.pc) < Stage(th.pc)
    || (r.t == s.t && r.th.pc.FindAt? && th.pc.FindAt? && r.th.pc.i == th.pc.i + 1)
    || (r.t == s.t && r.th.pc.ReleWalk? && th.pc.ReleWalk? && r.th.pc.i == th.pc.i + 1)
  }

  lemma StageFalls(s: State, p: nat, th: Thread)
    requires !th.pc.Idle?
    ensures StageEnds(s, th, After(s, p, th))
  {
    hide Stage, After, StageEnds;
    if IsRele(th.pc) { ReleFalls(s, p, th); } else if IsWindow(th.pc) { WindowFalls(s, p, th); }
    else if IsAgain(th.pc) { AgainFalls(s, p, th); }
    else if IsLast(th.pc) { LastFalls(s, p, th); }
    else if IsFind(th.pc) { FindFalls(s, p, th); } else { OtherFalls(s, p, th); }
  }

  lemma ReleFalls(s: State, p: nat, th: Thread)
    requires IsRele(th.pc)
    ensures StageEnds(s, th, After(s, p, th))
  {
    hide HashOf, IsLive, Freed, Obj, At, Counted, Dropped;
  }

  lemma WindowFalls(s: State, p: nat, th: Thread)
    requires IsWindow(th.pc)
    ensures StageEnds(s, th, After(s, p, th))
  {
    hide HashOf, IsLive, Freed, Obj, At, Counted, Dropped;
  }

  lemma AgainFalls(s: State, p: nat, th: Thread)
    requires IsAgain(th.pc)
    ensures StageEnds(s, th, After(s, p, th))
  {
    hide HashOf, IsLive, Freed, Obj, At, Counted, Dropped;
  }

  lemma LastFalls(s: State, p: nat, th: Thread)
    requires IsLast(th.pc)
    ensures StageEnds(s, th, After(s, p, th))
  {
    hide HashOf, IsLive, Freed, Obj, At, Counted, Dropped;
  }

  lemma FindFalls(s: State, p: nat, th: Thread)
    requires IsFind(th.pc)
    ensures StageEnds(s, th, After(s, p, th))
  {
    hide HashOf, IsLive, Freed, Obj, At, Counted, Dropped;
  }

  lemma OtherFalls(s: State, p: nat, th: Thread)
    requires !th.pc.Idle? && !IsRele(th.pc) && !IsWindow(th.pc) && !IsAgain(th.pc) && !IsLast(th.pc) && !IsFind(th.pc)
    ensures StageEnds(s, th, After(s, p, th))
  {
    hide HashOf, IsLive, Freed, Obj, At, Counted, Dropped;
  }

  lemma AtMost(s: State, p: nat)
    requires p < |s.ths| && (s.ths[p].pc.FindAt? || s.ths[p].pc.ReleWalk?)
    requires Inv(s)
    ensures s.ths[p].pc.i <= |s.t.live|
  {
    hide Rep, LocksOk, Counting, Unlisted, HashOf;
    assert ThreadOk(s.m, s.locks, s.t, s.ths[p]);
  }
}
