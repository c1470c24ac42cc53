/**
 * The table under one lock: each call is one critical section under hashlock.  First the
 * critical sections as methods on memory, then any number of threads that run them.
 */
module Mutex3 {
  import opened Chain
  import opened FooTable
  import opened FooRefs
  import opened Histories
  import opened FooHistory

  // ----- the critical sections -----

  /** What a critical section leaves; last is set when the caller must free the object. */
  datatype Outcome = Outcome(m: Memory, t: Table, res: nat, last: bool)

  /** The cell before an object on its chain. */
  function Before(p: seq<nat>, a: nat): nat {
    if p == [] then NULL else if |p| == 1 || p[1] == a then p[0] else Before(p[1..], a)
  }

  function SetCount(m: Memory, a: nat, n: int): Memory {
    m.(foo := if a in m.foo then m.foo[a := m.foo[a].(count := n)] else m.foo)
  }

  function CountOf(m: Memory, a: nat): int { if a in m.foo then m.foo[a].count else 0 }

  function IdOf(m: Memory, a: nat): int { if a in m.foo then m.foo[a].id else 0 }

  function Section(m: Memory, t: Table, call: Call, fp: nat): Outcome {
    match call
    case Alloc(id) =>
      Outcome(m.(ptr := m.ptr[fp := At(m.ptr, HashOf(id))][HashOf(id) := fp]),
              Table([Ref(fp, id)] + t.live, t.count[fp := 1]), fp, false)
    case Find(id) =>
      var k := First(t.live, id);
      if k == |t.live| then Outcome(m, t, NULL, false)
      else Raised(m, t, t.live[k].addr, t.live[k].addr)
    case Hold(a) => Raised(m, t, a, NULL)
    case Rele(a) =>
      var n := CountOf(m, a) - 1;
      if n != 0 then Outcome(SetCount(m, a, n), Counted(t, a, n), NULL, false)
      else Outcome(SetCount(m.(ptr := m.ptr[Before(List(t.live, HashOf(IdOf(m, a))), a) := At(m.ptr, a)]), a, 0),
                   if IsLive(t.live, a) then Dropped(t, a) else t, NULL, true)
  }

  function Raised(m: Memory, t: Table, a: nat, res: nat): Outcome {
    Outcome(SetCount(m, a, CountOf(m, a) + 1), Counted(t, a, CountOf(m, a) + 1), res, false)
  }

  /** What a caller must have: for foo_alloc a new object, to hold or release an object of the table. */
  predicate MayEnter(m: Memory, t: Table, call: Call, fp: nat) {
    match call
    case Alloc(id) => fp in m.foo && fp !in t.count && m.foo[fp] == Foo(id, 1)
    case Find(_) => true
    case Hold(a) => a in t.count
    case Rele(a) => a in t.count
  }

  lemma {:induction false} BeforeIs(p: seq<nat>, a: nat, i: nat)
    requires i + 1 < |p| && p[i + 1] == a && a !in p[..i + 1]
    ensures Before(p, a) == p[i]
  {
    if i > 0 {
      assert p[1] in p[..i + 1];
      assert p[1..][..i] == p[..i + 1][1..];
      BeforeIs(p[1..], a, i - 1);
    }
  }

  /** An object of the table comes somewhere on its chain, and after its head. */
  lemma OnChain(m: Memory, t: Table, a: nat) returns (i: nat)
    requires a in t.count
    requires Rep(m, t)
    ensures a in m.foo && m.foo[a].count == t.count[a] && IsLive(t.live, a) && a in m.ptr && a >= NHASH
    ensures var p := List(t.live, HashOf(m.foo[a].id)); i + 1 < |p| && p[i + 1] == a && Before(p, a) == p[i]
  {
    hide HashOf, Lists, IsLive;
    OnItsList(m, t, a);
    var p := List(t.live, HashOf(m.foo[a].id));
    assert p[0] != a;
    hide List;
    i := FirstPlace(p, a, 0);
    BeforeIs(p, a, i);
  }

  lemma {:induction false} FirstPlace(p: seq<nat>, a: nat, k: nat) returns (i: nat)
    requires a in p && k < |p| && a !in p[..k + 1]
    ensures i + 1 < |p| && p[i + 1] == a && a !in p[..i + 1]
    decreases |p| - k
  {
    NotYet(p, a, k);
    if p[k + 1] == a { i := k; } else { i := FirstPlace(p, a, k + 1); }
  }

  /** Changing what the table knows nothing of. */
  lemma RecountDropped(m: Memory, t: Table, a: nat, n: int)
    requires a !in t.count
    requires Rep(m, t)
    ensures Rep(SetCount(m, a, n), t)
  {
    hide Path, List;
  }

  /** Every critical section keeps the chains and does to the table what the call does alone. */
  lemma SectionDoes(m: Memory, t: Table, call: Call, fp: nat, r: Outcome)
    requires MayEnter(m, t, call, fp) && r == Section(m, t, call, fp)
    requires Rep(m, t)
    ensures Rep(r.m, r.t) && Does(t, call, r.res, r.t)
  {
    hide Rep, Does, Section;
    match call {
      case Alloc(id) => AllocDoes(m, t, id, fp, r);
      case Find(id) => FindDoes(m, t, id, fp, r);
      case Hold(a) => HoldDoes(m, t, a, fp, r);
      case Rele(a) => ReleDoes(m, t, a, fp, r);
    }
  }

  lemma HoldDoes(m: Memory, t: Table, a: nat, fp: nat, r: Outcome)
    requires a in t.count && r == Section(m, t, Hold(a), fp)
    requires Rep(m, t)
    ensures Rep(r.m, r.t) && Does(t, Hold(a), r.res, r.t)
  {
    hide Rep, HashOf, List, Before, IsLive;
    var i := OnChain(m, t, a);
    Recount(m, t, a, t.count[a] + 1);
  }

  lemma AllocDoes(m: Memory, t: Table, id: int, fp: nat, r: Outcome)
    requires MayEnter(m, t, Alloc(id), fp) && r == Section(m, t, Alloc(id), fp)
    requires Rep(m, t)
    ensures Rep(r.m, r.t) && Does(t, Alloc(id), r.res, r.t)
  {
    hide HashOf, Lists, Alive;
    assert HashOf(id) in m.ptr && fp != NULL;
    LinkFirst(m, t, fp);
    assert r.m == m.(ptr := HeadLinked(m.ptr, fp, HashOf(id)));
  }

  lemma FindDoes(m: Memory, t: Table, id: int, fp: nat, r: Outcome)
    requires r == Section(m, t, Find(id), fp)
    requires Rep(m, t)
    ensures Rep(r.m, r.t) && Does(t, Find(id), r.res, r.t)
  {
    hide First, Rep;
    var k := First(t.live, id);
    if k < |t.live| {
      LiveCount(m, t, k);
      Recount(m, t, t.live[k].addr, t.count[t.live[k].addr] + 1);
    }
  }

  lemma LiveCount(m: Memory, t: Table, k: nat)
    requires k < |t.live|
    requires Rep(m, t)
    ensures var a := t.live[k].addr; a in t.count && a in m.foo && m.foo[a].count == t.count[a]
  {
    hide Lists, Cells, IsLive;
    assert t.live[k] in t.live;
  }

  lemma ReleDoes(m: Memory, t: Table, a: nat, fp: nat, r: Outcome)
    requires a in t.count && r == Section(m, t, Rele(a), fp)
    requires Rep(m, t)
    ensures Rep(r.m, r.t) && Does(t, Rele(a), r.res, r.t)
  {
    hide Rep, HashOf, List, Before, IsLive, Dropped;
    var i := OnChain(m, t, a);
    if t.count[a] == 1 {
      assert r.m == SetCount(m.(ptr := m.ptr[List(t.live, HashOf(m.foo[a].id))[i] := m.ptr[a]]), a, 0);
      hide Section;
      Unlink(m, t, a, i + 1);
      DroppedIsOut(t, a);
      RecountDropped(m.(ptr := m.ptr[List(t.live, HashOf(m.foo[a].id))[i] := m.ptr[a]]), Dropped(t, a), a, 0);
    } else {
      Recount(m, t, a, t.count[a] - 1);
    }
  }

  lemma DroppedIsOut(t: Table, a: nat)
    requires IsLive(t.live, a)
    ensures a !in Dropped(t, a).count
  {
  }

  // ----- the critical sections in place -----

  /** The shared memory.  Each method runs with hashlock held from its beginning to its end. */
  class Foos {
    var m: Memory
    ghost var t: Table

    ghost predicate Valid()
      reads this
    {
      Rep(m, t)
    }

    constructor ()
      ensures Valid() && t == Table([], map[]) && m.foo == map[]
    {
      var ptr: map<nat, nat> := map[];
      var c := 0;
      while c < NHASH
        invariant c <= NHASH && (forall l: nat :: l in ptr <==> l < c) && forall l: nat :: l < c ==> ptr[l] == NULL
      {
        ptr, c := ptr[c := NULL], c + 1;
      }
      m, t := Memory(ptr, map[]), Table([], map[]);
      EmptyIsRep(ptr);
    }

    /** foo_alloc, once malloc has given fp. */
    method Link(fp: nat, id: int)
      requires Valid() && fp in m.foo && fp !in t.count && m.foo[fp] == Foo(id, 1)
      modifies this
      ensures Valid() && Does(old(t), Alloc(id), fp, t)
      ensures Outcome(m, t, fp, false) == Section(old(m), old(t), Alloc(id), fp)
    {
      ghost var r := Section(m, t, Alloc(id), fp);
      SectionDoes(m, t, Alloc(id), fp, r);
      var idx := HashOf(id);
      m := m.(ptr := m.ptr[fp := m.ptr[idx]]);
      m := m.(ptr := m.ptr[idx := fp]);
      t := r.t;
    }

    method FooAlloc(id: int, addr: nat, junk: nat) returns (fp: nat)
      requires Valid() && (addr == NULL || (addr >= NHASH && addr !in m.foo))
      modifies this
      ensures Valid() && fp == addr && Does(old(t), Alloc(id), fp, t)
      ensures m.foo == if addr == NULL then old(m.foo) else old(m.foo)[addr := Foo(id, 1)]
    {
      fp := addr;
      if fp != NULL {
        assert fp !in t.count;
        Malloc(m, t, fp, id, junk);
        m := Memory(m.ptr[fp := junk], m.foo[fp := Foo(id, 1)]);
        Link(fp, id);
      }
    }

    method FooHold(fp: nat)
      requires Valid() && fp in t.count
      modifies this
      ensures Valid() && Does(old(t), Hold(fp), NULL, t)
      ensures Outcome(m, t, NULL, false) == Section(old(m), old(t), Hold(fp), NULL)
    {
      ghost var r := Section(m, t, Hold(fp), NULL);
      SectionDoes(m, t, Hold(fp), NULL, r);
      m := m.(foo := m.foo[fp := m.foo[fp].(count := m.foo[fp].count + 1)]);
      t := r.t;
    }

    method FooFind(id: int) returns (fp: nat)
      requires Valid()
      modifies this
      ensures Valid() && Does(old(t), Find(id), fp, t)
      ensures Outcome(m, t, fp, false) == Section(old(m), old(t), Find(id), NULL)
    {
      hide HashOf, Rep, First, Bucket, Searched;
      ghost var r := Section(m, t, Find(id), NULL);
      SectionDoes(m, t, Find(id), NULL, r);
      SearchStart(m, t, id);
      HeadIsCell(m, t, HashOf(id));
      fp := m.ptr[HashOf(id)];
      ghost var i := 0;
      while fp != NULL
        invariant Searched(t, id, fp, i) && Rep(m, t) && m == old(m) && t == old(t)
        decreases |t.live| + 1 - i
      {
        SearchOn(m, t, id, fp, i);
        SearchBound(t, id, fp, i);
        if m.foo[fp].id == id {
          m := m.(foo := m.foo[fp := m.foo[fp].(count := m.foo[fp].count + 1)]);
          t := r.t;
          return;
        }
        ObjectIsCell(m, t, fp);
        fp, i := m.ptr[fp], i + 1;
      }
      SearchEnd(m, t, id, i);
    }

    /** The critical section of foo_rele; the caller frees the object when it was the last reference. */
    method Release(fp: nat) returns (last: bool)
      requires Valid() && fp in t.count
      modifies this
      ensures Valid() && Does(old(t), Rele(fp), NULL, t)
      ensures Outcome(m, t, NULL, last) == Section(old(m), old(t), Rele(fp), NULL)
    {
      hide HashOf, Rep, First, Bucket, Walked, IsLive, List, Before;
      ghost var r := Section(m, t, Rele(fp), NULL);
      SectionDoes(m, t, Rele(fp), NULL, r);
      ghost var j := OnChain(m, t, fp);
      var n := m.foo[fp].count - 1;
      m := m.(foo := m.foo[fp := m.foo[fp].(count := n)]);
      last := n == 0;
      if last {
        ghost var m0, p := old(m), List(t.live, HashOf(m.foo[fp].id));
        WalkStart(m0, t, fp);
        var l := HashOf(m.foo[fp].id);
        HeadIsCell(m0, t, l);
        ghost var i := 0;
        WalkOn(m0, t, fp, l, i);
        while m.ptr[l] != fp
          invariant Walked(m0, t, fp, l, i) && l in m.ptr && t == old(t)
          invariant m.ptr == m0.ptr && m.foo == old(m.foo)[fp := old(m.foo)[fp].(count := 0)]
          invariant i < |p|
          decreases |p| - i
        {
          WalkOn(m0, t, fp, l, i);
          ListIsCell(m0, t, HashOf(m.foo[fp].id), i + 1);
          l, i := m.ptr[l], i + 1;
        }
        WalkFound(m0, t, fp, l, i);
        m := m.(ptr := m.ptr[l := m.ptr[fp]]);
      }
      t := r.t;
    }

    method FooRele(fp: nat)
      requires Valid() && fp in t.count
      modifies this
      ensures Valid() && Does(old(t), Rele(fp), NULL, t)
      ensures m.foo == if old(t).count[fp] == 1 then old(m.foo) - {fp}
                       else old(m.foo)[fp := old(m.foo)[fp].(count := old(t).count[fp] - 1)]
    {
      hide HashOf, List, Before, IsLive, Path, Lists;
      var last := Release(fp);
      if last {
        Free(m, t, fp);
        m := Freed(m, fp);
      }
    }
  }

  lemma EmptyIsRep(ptr: map<nat, nat>)
    requires (forall l: nat :: l in ptr <==> l < NHASH) && forall l: nat :: l < NHASH ==> ptr[l] == NULL
    ensures Rep(Memory(ptr, map[]), Table([], map[]))
  {
    hide HashOf;
    forall c | 0 <= c < NHASH ensures Path(ptr, List([], c)) { assert List([], c) == [c] && Chain.Linked(ptr, [c], 0); }
  }

  lemma HeadIsCell(m: Memory, t: Table, c: nat)
    requires c < NHASH && Rep(m, t)
    ensures c in m.ptr
  {
  }

  lemma ObjectIsCell(m: Memory, t: Table, a: nat)
    requires a in m.foo && Rep(m, t)
    ensures a in m.ptr
  {
  }

  lemma ListIsCell(m: Memory, t: Table, c: nat, i: nat)
    requires c < NHASH && i < |List(t.live, c)| && Rep(m, t)
    ensures List(t.live, c)[i] in m.ptr
  {
    hide HashOf, List;
  }

  lemma SearchBound(t: Table, id: int, fp: nat, i: nat)
    requires Searched(t, id, fp, i)
    ensures i <= |t.live|
  {
    hide HashOf;
  }

  lemma WalkFound(m: Memory, t: Table, a: nat, l: nat, i: nat)
    requires Walked(m, t, a, l, i) && At(m.ptr, l) == a
    requires Rep(m, t)
    ensures Before(List(t.live, HashOf(m.foo[a].id)), a) == l
  {
    WalkOn(m, t, a, l, i);
    hide HashOf, List, Rep;
    BeforeIs(List(t.live, HashOf(m.foo[a].id)), a, i);
  }

  // ----- any number of threads -----

  /** Enter is about to lock hashlock, fp being what malloc gave; Gone has unlocked it and must free. */
  datatype Pc = Idle | Enter(fp: nat) | Gone(a: nat) | Done(res: nat)

  type Thread = FooRefs.Thread<Pc>

  datatype State = State(m: Memory, t: Table, ths: seq<Thread>)

  datatype Action = Invoke(call: Call, addr: nat, junk: nat) | Go

  /** The object a step names, to lock it up, count it, or free it. */
  predicate Touches(th: Thread, x: nat) {
    match th.pc
    case Enter(fp) =>
      (match th.call
       case Alloc(_) => x == fp
       case Find(_) => false
       case Hold(a) => x == a
       case Rele(a) => x == a)
    case Gone(a) => x == a
    case _ => false
  }

  ghost predicate Enabled(s: State, p: nat, act: Action) {
    && p < |s.ths|
    && var th := s.ths[p];
    match act
    case Invoke(call, addr, _) =>
      && th.pc.Idle?
      && (call.Alloc? ==> addr == NULL || (addr >= NHASH && addr !in s.m.foo))
      && (call.Hold? ==> call.a in th.refs)
      && (call.Rele? ==> call.a in th.refs)
    case Go => !th.pc.Idle? && forall x :: Touches(th, x) ==> x in s.m.foo
  }

  /** The references a thread owns after its critical section. */
  function RefsAfter(th: Thread, r: Outcome): multiset<nat> {
    match th.call
    case Alloc(_) => th.refs
    case Find(_) => if r.res == NULL then th.refs else th.refs + multiset{r.res}
    case Hold(a) => th.refs + multiset{a}
    case Rele(a) => th.refs - multiset{a}
  }

  ghost function Next(s: State, p: nat, act: Action): State
    requires Enabled(s, p, act)
  {
    var th := s.ths[p];
    match act
    case Invoke(call, addr, junk) =>
      if !call.Alloc? then s.(ths := s.ths[p := FooRefs.Thread(call, Enter(NULL), th.refs)])
      else if addr == NULL then s.(ths := s.ths[p := FooRefs.Thread(call, Done(NULL), th.refs)])
      else State(Memory(s.m.ptr[addr := junk], s.m.foo[addr := Foo(call.id, 1)]), s.t,
                 s.ths[p := FooRefs.Thread(call, Enter(addr), th.refs + multiset{addr})])
    case Go =>
      match th.pc
      case Enter(fp) =>
        var r := Section(s.m, s.t, th.call, fp);
        State(r.m, r.t, s.ths[p := FooRefs.Thread(th.call, if r.last then Gone(th.call.a) else Done(r.res),
                                                  RefsAfter(th, r))])
      case Gone(a) => State(Freed(s.m, a), s.t, s.ths[p := th.(pc := Done(NULL))])
      case Done(_) => s.(ths := s.ths[p := th.(pc := Idle)])
  }

  // ----- the invariant -----

  predicate Private(th: Thread, a: nat) {
    (th.pc.Enter? && th.call.Alloc? && th.pc.fp == a) || (th.pc.Gone? && th.pc.a == a)
  }

  predicate PrivateTo(ths: seq<Thread>, p: nat, a: nat) { p < |ths| && Private(ths[p], a) }

  ghost predicate Unlisted(m: Memory, t: Table, ths: seq<Thread>) {
    forall a :: a in m.foo && a !in t.count ==> exists p: nat :: PrivateTo(ths, p, a)
  }

  predicate ThreadOk(m: Memory, t: Table, th: Thread) {
    match th.pc
    case Idle => true
    case Enter(fp) =>
      (match th.call
       case Alloc(id) => fp in th.refs && MayEnter(m, t, th.call, fp)
       case Find(_) => true
       case Hold(a) => a in th.refs
       case Rele(a) => a in th.refs)
    case Gone(a) => th.call.Rele? && a !in t.count && a in m.foo && m.foo[a].count == 0
    case Done(_) => true
  }

  /** No two threads are to free the same object. */
  ghost predicate FreedOnce(ths: seq<Thread>) {
    forall p, q :: 0 <= p < |ths| && 0 <= q < |ths| && p != q && ths[p].pc.Gone? ==> ths[q].pc != ths[p].pc
  }

  ghost predicate Inv(s: State) {
    && Rep(s.m, s.t)
    && Counting(s.m.foo, s.ths)
    && Unlisted(s.m, s.t, s.ths)
    && FreedOnce(s.ths)
    && forall p :: 0 <= p < |s.ths| ==> ThreadOk(s.m, s.t, s.ths[p])
  }

  /** An object somebody refers to, and did not just make, is in the table. */
  lemma Listed(s: State, p: nat, a: nat)
    requires p < |s.ths| && a in s.ths[p].refs && !Private(s.ths[p], a)
    requires Inv(s)
    ensures a in s.t.count && a in s.m.foo && s.t.count[a] == s.m.foo[a].count && a >= NHASH
  {
    hide Lists, Refs, FreedOnce;
    RefIsCounted(s.m.foo, s.ths, p, a);
    if a !in s.t.count {
      var q: nat :| PrivateTo(s.ths, q, a);
      if s.ths[q].pc.Enter? { Shared(s.m.foo, s.ths, p, q, a); }
      assert false;
    }
  }

  /** The memory and the table change for one object; the other threads rely on nothing else. */
  predicate Sparing(m: Memory, t: Table, m': Memory, t': Table, th: Thread) {
    forall a :: Private(th, a) && a in m.foo && a !in t.count ==> a in m'.foo && m'.foo[a] == m.foo[a] && a !in t'.count
  }

  lemma Undisturbed(m: Memory, t: Table, m': Memory, t': Table, th: Thread)
    requires ThreadOk(m, t, th) && Sparing(m, t, m', t', th)
    ensures ThreadOk(m', t', th)
  {
    if th.pc.Enter? && th.call.Alloc? { assert Private(th, th.pc.fp); }
    if th.pc.Gone? { assert Private(th, th.pc.a); }
  }

  // ----- one step after another -----

  function Verdict(pc: Pc): Effect {
    match pc
    case Gone(_) => Took(NULL)
    case Done(res) => Took(res)
    case _ => Pending
  }

  /** A call takes effect in one step, doing there what it does alone; then it keeps its result until it returns. */
  ghost predicate Refines(s: State, p: nat, s': State)
    requires p < |s.ths| && p < |s'.ths|
  {
    var th, th' := s.ths[p], s'.ths[p];
    && (!th.pc.Idle? ==> th'.call == th.call)
    && (if Verdict(th.pc).Pending? && Verdict(th'.pc).Took? then Does(s.t, th'.call, Verdict(th'.pc).res, s'.t)
        else s'.t == s.t && (Verdict(th'.pc) == Verdict(th.pc) || th'.pc.Idle?))
  }

  /** The object whose count a critical section changes, if any. */
  function Target(t: Table, call: Call): nat {
    match call
    case Alloc(_) => NULL
    case Find(id) => if First(t.live, id) < |t.live| then t.live[First(t.live, id)].addr else NULL
    case Hold(a) => a
    case Rele(a) => a
  }

  /** A critical section changes one count, by what its thread's references change. */
  lemma SectionCounts(m: Memory, t: Table, th: Thread, fp: nat, r: Outcome)
    requires MayEnter(m, t, th.call, fp) && r == Section(m, t, th.call, fp) && th.pc == Enter(fp)
    requires ThreadOk(m, t, th)
    requires Rep(m, t)
    ensures var a, refs := Target(t, th.call), RefsAfter(th, r);
            if a == NULL then r.m.foo == m.foo && refs == th.refs
            else a in m.foo && a in t.count && (forall x :: x != a ==> refs[x] == th.refs[x])
                 && r.m.foo == m.foo[a := m.foo[a].(count := m.foo[a].count + refs[a] - th.refs[a])]
  {
    hide Lists, HashOf, Before, List, First, IsLive, Dropped;
    if th.call.Find? && First(t.live, th.call.id) < |t.live| { LiveCount(m, t, First(t.live, th.call.id)); }
  }

  /** It puts the new object into the table, or takes one out and hands it to its thread to free. */
  lemma SectionLists(m: Memory, t: Table, call: Call, fp: nat, r: Outcome)
    requires MayEnter(m, t, call, fp) && r == Section(m, t, call, fp)
    requires Rep(m, t)
    ensures forall a :: a in r.t.count
                        <==> (a in t.count || (call.Alloc? && a == fp)) && !(r.last && call.Rele? && a == call.a)
    ensures r.last ==> (r.res == NULL && call.Rele? && call.a in t.count && call.a in r.m.foo
                        && r.m.foo[call.a].count == 0)
  {
    hide Lists, HashOf, Before, List, First;
    if call.Find? && First(t.live, call.id) < |t.live| { LiveCount(m, t, First(t.live, call.id)); }
  }

  lemma MayGoOn(s: State, p: nat)
    requires p < |s.ths| && s.ths[p].pc.Enter?
    requires Inv(s)
    ensures MayEnter(s.m, s.t, s.ths[p].call, s.ths[p].pc.fp)
  {
    hide Rep, Counting, Unlisted, FreedOnce;
    var th := s.ths[p];
    assert ThreadOk(s.m, s.t, th);
    if th.call.Hold? { Listed(s, p, th.call.a); }
    if th.call.Rele? { Listed(s, p, th.call.a); }
  }

  /** The critical section: the point where a call takes effect. */
  lemma StepSection(s: State, p: nat, fp: nat, r: Outcome, s': State)
    requires p < |s.ths| && s.ths[p].pc == Enter(fp) && r == Section(s.m, s.t, s.ths[p].call, fp)
    requires s' == State(r.m, r.t, s.ths[p := FooRefs.Thread(s.ths[p].call,
                                                             if r.last then Gone(s.ths[p].call.a) else Done(r.res),
                                                             RefsAfter(s.ths[p], r))])
    requires Inv(s)
    ensures Inv(s') && Refines(s, p, s')
  {
    hide Rep, Counting, Section, RefsAfter, Does, Unlisted, FreedOnce;
    var th := s.ths[p];
    assert ThreadOk(s.m, s.t, th);
    MayGoOn(s, p);
    SectionDoes(s.m, s.t, th.call, fp, r);
    SectionCounts(s.m, s.t, th, fp, r);
    SectionLists(s.m, s.t, th.call, fp, r);
    var a := Target(s.t, th.call);
    if a != NULL {
      CountingPut(s.m.foo, s.ths, p, a, s.m.foo[a].count + s'.ths[p].refs[a] - th.refs[a], s'.ths);
    } else {
      RefsPutAll(s.ths, p, s'.ths[p], s'.ths);
      CountingSame(s.m.foo, s.ths, s'.ths);
    }
    forall q | 0 <= q < |s.ths| && q != p ensures ThreadOk(s'.m, s'.t, s.ths[q]) {
      assert ThreadOk(s.m, s.t, s.ths[q]);
      SectionSpares(s, p, q, s');
      Undisturbed(s.m, s.t, s'.m, s'.t, s.ths[q]);
    }
    StillPrivate(s, p, s');
    StillFreedOnce(s, p, s');
  }

  lemma SectionSpares(s: State, p: nat, q: nat, s': State)
    requires p < |s.ths| && q < |s.ths| && p != q && s.ths[p].pc.Enter?
    requires s'.m.foo.Keys == s.m.foo.Keys
    requires forall x :: x in s.m.foo && x !in s.t.count ==> s'.m.foo[x] == s.m.foo[x]
    requires forall x :: x in s'.t.count && x !in s.t.count ==> s.ths[p].call.Alloc? && x == s.ths[p].pc.fp
    requires Inv(s)
    ensures Sparing(s.m, s.t, s'.m, s'.t, s.ths[q])
  {
    hide Rep, Counting, Unlisted, FreedOnce;
    assert ThreadOk(s.m, s.t, s.ths[p]) && ThreadOk(s.m, s.t, s.ths[q]);
    forall x | Private(s.ths[q], x) && x in s.m.foo && x !in s.t.count ensures x !in s'.t.count {
      if s.ths[p].call.Alloc? && x == s.ths[p].pc.fp && s.ths[q].pc.Enter? { Shared(s.m.foo, s.ths, p, q, x); }
    }
  }

  /** Objects stay private to whom they were private, when the step does not list or free them. */
  lemma StillPrivate(s: State, p: nat, s': State)
    requires p < |s.ths| == |s'.ths| && s'.ths == s.ths[p := s'.ths[p]] && Unlisted(s.m, s.t, s.ths)
    requires forall a :: a in s'.m.foo && a !in s'.t.count ==>
               ((a in s.m.foo && a !in s.t.count && !Private(s.ths[p], a)) || Private(s'.ths[p], a))
    ensures Unlisted(s'.m, s'.t, s'.ths)
  {
    forall a | a in s'.m.foo && a !in s'.t.count ensures exists q: nat :: PrivateTo(s'.ths, q, a) {
      if Private(s'.ths[p], a) {
        assert PrivateTo(s'.ths, p, a);
      } else {
        var q: nat :| PrivateTo(s.ths, q, a);
        assert PrivateTo(s'.ths, q, a);
      }
    }
  }

  lemma StillFreedOnce(s: State, p: nat, s': State)
    requires p < |s.ths| == |s'.ths| && s'.ths == s.ths[p := s'.ths[p]]
    requires s'.ths[p].pc.Gone? ==> s'.ths[p].pc.a in s.t.count
    requires Inv(s)
    ensures FreedOnce(s'.ths)
  {
    hide Rep, Counting, Unlisted;
    forall q | 0 <= q < |s.ths| && q != p && s'.ths[p].pc.Gone? ensures s.ths[q].pc != s'.ths[p].pc {
      assert ThreadOk(s.m, s.t, s.ths[q]);
    }
  }

  /** free, by the one thread that took the object out of the table. */
  lemma StepFree(s: State, p: nat, a: nat, s': State)
    requires p < |s.ths| && s.ths[p].pc == Gone(a)
    requires s' == State(Freed(s.m, a), s.t, s.ths[p := s.ths[p].(pc := Done(NULL))])
    requires Inv(s)
    ensures Inv(s') && Refines(s, p, s')
  {
    assert ThreadOk(s.m, s.t, s.ths[p]);
    hide Rep, Counting, Unlisted;
    Free(s.m, s.t, a);
    FreeCounts(s.m.foo, s.ths, p, a, s'.ths);
    forall q | 0 <= q < |s.ths| && q != p ensures ThreadOk(s'.m, s'.t, s.ths[q]) {
      assert ThreadOk(s.m, s.t, s.ths[q]) && s.ths[q].pc != Gone(a);
      assert !Private(s.ths[q], a);
      Undisturbed(s.m, s.t, s'.m, s'.t, s.ths[q]);
    }
    hide FreedOnce;
    StillPrivate(s, p, s');
    StillFreedOnce(s, p, s');
  }

  lemma FreeCounts(foo: map<nat, Foo>, ths: seq<Thread>, p: nat, a: nat, ths': seq<Thread>)
    requires p < |ths| == |ths'| && ths' == ths[p := ths'[p]] && ths'[p].refs == ths[p].refs
    requires a in foo && foo[a].count == 0
    requires Counting(foo, ths)
    ensures Counting(foo - {a}, ths')
  {
    hide Refs;
    RefsPutAll(ths, p, ths'[p], ths');
  }

  lemma StepMalloc(s: State, p: nat, id: int, a: nat, junk: nat, s': State)
    requires p < |s.ths| && s.ths[p].pc.Idle? && a >= NHASH && a !in s.m.foo
    requires s' == State(Memory(s.m.ptr[a := junk], s.m.foo[a := Foo(id, 1)]), s.t,
                         s.ths[p := FooRefs.Thread(Alloc(id), Enter(a), s.ths[p].refs + multiset{a})])
    requires Inv(s)
    ensures Inv(s') && Refines(s, p, s')
  {
    hide Rep, Counting, Unlisted, FreedOnce;
    NotInTable(s.m, s.t, a);
    Malloc(s.m, s.t, a, id, junk);
    MallocCounts(s.m.foo, s.ths, p, a, id, s'.ths);
    forall q | 0 <= q < |s.ths| && q != p ensures ThreadOk(s'.m, s'.t, s.ths[q]) {
      assert ThreadOk(s.m, s.t, s.ths[q]);
      Undisturbed(s.m, s.t, s'.m, s'.t, s.ths[q]);
    }
    StillPrivate(s, p, s');
    StillFreedOnce(s, p, s');
  }

  lemma NotInTable(m: Memory, t: Table, a: nat)
    requires a !in m.foo && Rep(m, t)
    ensures a !in t.count
  {
  }

  lemma StepQuiet(s: State, p: nat, th: Thread, s': State)
    requires p < |s.ths| && s' == s.(ths := s.ths[p := th]) && th.refs == s.ths[p].refs && !th.pc.Gone?
    requires (s.ths[p].pc.Done? && th.call == s.ths[p].call && th.pc.Idle?)
             || (s.ths[p].pc.Idle? && ((th.pc == Done(NULL) && th.call.Alloc?)
                                       || (th.pc == Enter(NULL) && !th.call.Alloc?)))
    requires ThreadOk(s.m, s.t, th)
    requires Inv(s)
    ensures Inv(s') && Refines(s, p, s')
  {
    hide Rep, Counting, Unlisted, FreedOnce;
    RefsPutAll(s.ths, p, th, s'.ths);
    CountingSame(s.m.foo, s.ths, s'.ths);
    StillPrivate(s, p, s') by { UnlistedOwner(s); }
    StillFreedOnce(s, p, s');
  }

  lemma UnlistedOwner(s: State)
    requires Inv(s)
    ensures Unlisted(s.m, s.t, s.ths)
  {
    hide Rep, Counting, Unlisted, FreedOnce, ThreadOk;
  }

  /** Every step of every thread keeps the invariant and refines the call's effect on the table. */
  lemma StepKeepsInv(s: State, p: nat, act: Action)
    requires Enabled(s, p, act)
    requires Inv(s)
    ensures Inv(Next(s, p, act)) && Refines(s, p, Next(s, p, act))
  {
    hide Rep, Counting, Unlisted, FreedOnce, Refines, Section, RefsAfter, Freed;
    var th, s' := s.ths[p], Next(s, p, act);
    assert ThreadOk(s.m, s.t, th);
    match act {
      case Invoke(call, addr, junk) =>
        if call.Alloc? && addr != NULL {
          StepMalloc(s, p, call.id, addr, junk, s');
        } else {
          StepQuiet(s, p, s'.ths[p], s');
        }
      case Go =>
        match th.pc {
          case Enter(fp) => StepSection(s, p, fp, Section(s.m, s.t, th.call, fp), s');
          case Gone(a) => StepFree(s, p, a, s');
          case Done(_) => StepQuiet(s, p, s'.ths[p], s');
        }
    }
  }

  // ----- runs -----

  ghost predicate Init(s: State) {
    && (forall c: nat :: c in s.m.ptr <==> c < NHASH) && (forall c: nat :: c < NHASH ==> s.m.ptr[c] == NULL)
    && s.m.foo == map[] && s.t == Table([], map[])
    && forall p :: 0 <= p < |s.ths| ==> s.ths[p].pc.Idle? && s.ths[p].refs == multiset{}
  }

  lemma InitIsGood(s: State)
    requires Init(s)
    ensures Inv(s)
  {
    hide Refs, Rep;
    forall a: nat ensures Refs(s.ths, a) == 0 { NoRefs(s.ths, a); }
    EmptyIsRep(s.m.ptr);
  }

  type Trace = seq<(nat, Action)>

  ghost predicate Runs(s: State, tr: Trace)
    decreases |tr|
  {
    tr == [] || (Enabled(s, tr[0].0, tr[0].1) && Runs(Next(s, tr[0].0, tr[0].1), tr[1..]))
  }

  ghost function Last(s: State, tr: Trace): State
    requires Runs(s, tr)
    decreases |tr|
  {
    if tr == [] then s else Last(Next(s, tr[0].0, tr[0].1), tr[1..])
  }

  /** A step by p in which its call takes effect. */
  ghost function Effect(s: State, p: nat, act: Action): seq<Event<Call, nat>>
    requires Enabled(s, p, act)
  {
    var pc, th' := s.ths[p].pc, Next(s, p, act).ths[p];
    if Verdict(pc).Pending? && Verdict(th'.pc).Took? then [Event(p, th'.call, Verdict(th'.pc).res)] else []
  }

  /** A step by p in which its call returns. */
  ghost function Return(s: State, p: nat, act: Action): seq<Event<Call, nat>>
    requires p < |s.ths|
  {
    var th := s.ths[p];
    if act.Go? && th.pc.Done? then [Event(p, th.call, th.pc.res)] else []
  }

  /** The calls in the order they took effect, with the results they had. */
  ghost function Effects(s: State, tr: Trace): seq<Event<Call, nat>>
    requires Runs(s, tr)
    decreases |tr|
  {
    if tr == [] then [] else Effect(s, tr[0].0, tr[0].1) + Effects(Next(s, tr[0].0, tr[0].1), tr[1..])
  }

  /** The calls in the order they returned, with the results they returned. */
  ghost function Returns(s: State, tr: Trace): seq<Event<Call, nat>>
    requires Runs(s, tr)
    decreases |tr|
  {
    if tr == [] then [] else Return(s, tr[0].0, tr[0].1) + Returns(Next(s, tr[0].0, tr[0].1), tr[1..])
  }

  /** The calls that thread q makes. */
  function Made(tr: Trace, q: nat): seq<Call>
    decreases |tr|
  {
    if tr == [] then [] else MadeNow(tr[0].0, tr[0].1, q) + Made(tr[1..], q)
  }

  function MadeNow(p: nat, act: Action, q: nat): seq<Call> { if p == q && act.Invoke? then [act.call] else [] }

  /** What thread q is in the middle of. */
  function InMiddle(ths: seq<Thread>, q: nat): Midway<Call, nat>
    requires q < |ths|
  {
    var th := ths[q];
    match Verdict(th.pc)
    case Pending => Midway(if th.pc.Idle? then [] else [th.call], [])
    case Took(res) => Midway([], [Event(q, th.call, res)])
  }

  /** The account of thread q over a run. */
  ghost predicate AccountIsRight(s: State, tr: Trace, q: nat)
    requires Runs(s, tr) && q < |s.ths| && q < |Last(s, tr).ths|
  {
    Accounted(q, InMiddle(s.ths, q), Made(tr, q), Effects(s, tr), Returns(s, tr),
              InMiddle(Last(s, tr).ths, q))
  }

  /** One step of p in the account of q. */
  lemma StepAccounts(s: State, p: nat, act: Action, q: nat)
    requires p < |s.ths| && q < |s.ths| && Enabled(s, p, act)
    requires Refines(s, p, Next(s, p, act))
    ensures |Next(s, p, act).ths| == |s.ths|
    ensures Accounted(q, InMiddle(s.ths, q), MadeNow(p, act, q), Effect(s, p, act), Return(s, p, act),
                      InMiddle(Next(s, p, act).ths, q))
  {
    hide Does, Accounted;
    var s' := Next(s, p, act);
    StepOf(s, p, act, q);
    OneStep(q, InMiddle(s.ths, q), MadeNow(p, act, q), Effect(s, p, act), Return(s, p, act), InMiddle(s'.ths, q));
  }

  lemma StepOf(s: State, p: nat, act: Action, q: nat)
    requires p < |s.ths| && q < |s.ths| && Enabled(s, p, act)
    ensures var s' := Next(s, p, act);
            && |s'.ths| == |s.ths|
            && (q != p ==> s'.ths[q].pc == s.ths[q].pc && s'.ths[q].call == s.ths[q].call)
            && (act.Invoke? ==> s.ths[p].pc.Idle? && s'.ths[p].call == act.call && !s'.ths[p].pc.Idle?)
            && (act.Go? ==> (s'.ths[p].pc.Idle? <==> s.ths[p].pc.Done?))
  {
  }

  /**
   * Every run of any number of threads keeps the invariant, and its calls have the results
   * and the effect they would have one at a time in the order of their effects.  Each call a
   * thread makes is one of these events, and returns the event's result, and no thread is
   * ever stuck.
   */
  lemma {:induction false} RunsAreAtomic(s: State, tr: Trace)
    requires Inv(s) && Runs(s, tr)
    ensures Inv(Last(s, tr)) && Sequentially(s.t, Effects(s, tr), Last(s, tr).t) && |Last(s, tr).ths| == |s.ths|
    ensures forall q :: 0 <= q < |s.ths| ==> AccountIsRight(s, tr, q)
    ensures forall p :: 0 <= p < |Last(s, tr).ths| && !Last(s, tr).ths[p].pc.Idle? ==> Enabled(Last(s, tr), p, Go)
    decreases |tr|
  {
    hide Inv, Enabled, Next, Does, Verdict, Refines, Accounted, InMiddle, Return;
    if tr != [] {
      var p, act, s' := tr[0].0, tr[0].1, Next(s, tr[0].0, tr[0].1);
      NextSizes(s, p, act);
      StepKeepsInv(s, p, act);
      RunsAreAtomic(s', tr[1..]);
      EffectFirst(s, p, act, Effects(s', tr[1..]), Last(s, tr).t);
      forall q | 0 <= q < |s.ths| ensures AccountIsRight(s, tr, q) {
        StepAccounts(s, p, act, q);
        assert AccountIsRight(s', tr[1..], q);
        AccountedOn(q, InMiddle(s.ths, q), MadeNow(p, act, q), Effect(s, p, act), Return(s, p, act),
                    InMiddle(s'.ths, q), Made(tr[1..], q), Effects(s', tr[1..]), Returns(s', tr[1..]),
                    InMiddle(Last(s, tr).ths, q));
      }
    } else {
      forall q | 0 <= q < |s.ths| ensures AccountIsRight(s, tr, q) {
        OneStep(q, InMiddle(s.ths, q), [], [], [], InMiddle(s.ths, q));
      }
      forall p | 0 <= p < |s.ths| && !s.ths[p].pc.Idle? ensures Enabled(s, p, Go) { EveryoneCanGo(s, p); }
    }
  }

  lemma EffectFirst(s: State, p: nat, act: Action, events: seq<Event<Call, nat>>, t': Table)
    requires Enabled(s, p, act) && p < |s.ths| && p < |Next(s, p, act).ths| && Refines(s, p, Next(s, p, act))
    requires Sequentially(Next(s, p, act).t, events, t')
    ensures Sequentially(s.t, Effect(s, p, act) + events, t')
  {
    hide Enabled, Next, Does, Verdict, Sequentially;
    var s' := Next(s, p, act);
    if Effect(s, p, act) != [] {
      SequentiallyFirst(s.t, Event(p, s'.ths[p].call, Verdict(s'.ths[p].pc).res), s'.t, events, t');
    } else {
      assert [] + events == events;
    }
  }

  lemma NextSizes(s: State, p: nat, act: Action)
    requires Enabled(s, p, act)
    ensures p < |s.ths| && |Next(s, p, act).ths| == |s.ths|
  {
    hide Section;
  }

  /** From the empty table on: what holds of every reachable state. */
  lemma ReachableIsGood(s: State, tr: Trace)
    requires Init(s) && Runs(s, tr)
    ensures Inv(Last(s, tr)) && Sequentially(Table([], map[]), Effects(s, tr), Last(s, tr).t)
    ensures forall q :: 0 <= q < |s.ths| ==>
              By(Returns(s, tr), q) <= By(Effects(s, tr), q) && Calls(Effects(s, tr), q) <= Made(tr, q)
  {
    hide Inv, Runs, Last, Effects, Returns, Accounted;
    InitIsGood(s);
    RunsAreAtomic(s, tr);
    forall q | 0 <= q < |s.ths|
      ensures By(Returns(s, tr), q) <= By(Effects(s, tr), q) && Calls(Effects(s, tr), q) <= Made(tr, q)
    {
      assert AccountIsRight(s, tr, q) && InMiddle(s.ths, q) == Midway([], []);
      FromIdle(q, Made(tr, q), Effects(s, tr), Returns(s, tr), InMiddle(Last(s, tr).ths, q));
    }
  }

  // ----- results by history, and by malloc -----

  /** In every run from the empty table on, each call has the result that the calls before it ask for. */
  lemma ResultsFit(s: State, tr: Trace, k: nat)
    requires Init(s) && Runs(s, tr) && k < |Effects(s, tr)|
    ensures FitsHistory(Effects(s, tr)[..k], Effects(s, tr)[k])
  {
    hide Inv, Runs, Last, Effects, Sequentially, FitsHistory;
    ReachableIsGood(s, tr);
    ResultsFitHistory(Effects(s, tr), Last(s, tr).t, k);
  }

  /** And at its end an object in the table has as many references as were given out and not taken back. */
  lemma CountsFit(s: State, tr: Trace, a: nat)
    requires Init(s) && Runs(s, tr)
    ensures var s' := Last(s, tr);
            && (a in s'.t.count <==> Given(Effects(s, tr), a) > 0)
            && (a in s'.t.count ==> a in s'.m.foo && s'.m.foo[a].count == Given(Effects(s, tr), a))
  {
    hide Inv, Runs, Last, Effects, Sequentially, Given;
    ReachableIsGood(s, tr);
    TableIsHistory(Effects(s, tr), Last(s, tr).t);
    if a in Last(s, tr).t.count { InMemory(Last(s, tr), a); }
  }

  lemma InMemory(s: State, a: nat)
    requires Inv(s) && a in s.t.count
    ensures a in s.m.foo && s.m.foo[a].count == s.t.count[a]
  {
    hide Counting, Unlisted, Lists;
  }

  /** What malloc gave to the calls of foo_alloc that thread q makes, with their ids. */
  function Mallocs(tr: Trace, q: nat): seq<(int, nat)>
    decreases |tr|
  {
    if tr == [] then [] else MallocNow(tr[0].0, tr[0].1, q) + Mallocs(tr[1..], q)
  }

  function MallocNow(p: nat, act: Action, q: nat): seq<(int, nat)> {
    if p == q && act.Invoke? && act.call.Alloc? then [(act.call.id, act.addr)] else []
  }

  /** The object of a foo_alloc that has not taken effect. */
  function InHand(th: Thread): seq<(int, nat)> {
    if th.pc.Enter? && th.call.Alloc? then [(th.call.id, th.pc.fp)] else []
  }

  lemma StepAllocates(s: State, p: nat, act: Action, q: nat)
    requires p < |s.ths| && q < |s.ths| && Enabled(s, p, act)
    requires Inv(s)
    ensures |Next(s, p, act).ths| == |s.ths|
    ensures InHand(s.ths[q]) + MallocNow(p, act, q)
            == Allocated(Effect(s, p, act), q) + InHand(Next(s, p, act).ths[q])
  {
    hide Rep, Counting, Unlisted, HashOf;
    StepOf(s, p, act, q);
    assert ThreadOk(s.m, s.t, s.ths[p]);
  }

  /** In every run: each foo_alloc of a thread has the result that its malloc gave it. */
  lemma {:induction false} AllocsGetMallocs(s: State, tr: Trace, q: nat)
    requires q < |s.ths| && Runs(s, tr)
    requires Inv(s)
    ensures |Last(s, tr).ths| == |s.ths|
    ensures InHand(s.ths[q]) + Mallocs(tr, q) == Allocated(Effects(s, tr), q) + InHand(Last(s, tr).ths[q])
    decreases |tr|
  {
    hide Inv, Enabled, Next, Effect, InHand, Refines;
    if tr != [] {
      var p, act, s' := tr[0].0, tr[0].1, Next(s, tr[0].0, tr[0].1);
      NextSizes(s, p, act);
      StepKeepsInv(s, p, act);
      StepAllocates(s, p, act, q);
      AllocsGetMallocs(s', tr[1..], q);
      AllocatedBoth(Effect(s, p, act), Effects(s', tr[1..]), q);
      Carried(InHand(s.ths[q]), MallocNow(p, act, q), Allocated(Effect(s, p, act), q), InHand(s'.ths[q]),
              Mallocs(tr[1..], q), Allocated(Effects(s', tr[1..]), q), InHand(Last(s, tr).ths[q]));
    }
  }

  /** From the empty table on: what the foo_alloc calls of a thread return is, in order, what malloc gave them. */
  lemma AllocReturnsMalloc(s: State, tr: Trace, q: nat)
    requires Init(s) && Runs(s, tr) && q < |s.ths|
    ensures Allocated(Returns(s, tr), q) <= Allocated(Effects(s, tr), q) <= Mallocs(tr, q)
  {
    hide Inv, Runs, Last, Effects, Returns, Sequentially, Allocated;
    InitIsGood(s);
    ReachableIsGood(s, tr);
    AllocsGetMallocs(s, tr, q);
    AllocatedPrefix(Returns(s, tr), Effects(s, tr), q);
    assert InHand(s.ths[q]) == [] && [] + Mallocs(tr, q) == Mallocs(tr, q);
  }

  /** No thread is ever about to touch an object that is not in memory, so every thread can go on. */
  lemma EveryoneCanGo(s: State, p: nat)
    requires p < |s.ths| && !s.ths[p].pc.Idle?
    requires Inv(s)
    ensures Enabled(s, p, Go)
  {
    hide Rep, Counting, Unlisted, FreedOnce;
    var th := s.ths[p];
    assert ThreadOk(s.m, s.t, th);
    if th.pc.Enter? && th.call.Hold? { Listed(s, p, th.call.a); }
    if th.pc.Enter? && th.call.Rele? { Listed(s, p, th.call.a); }
  }
}
