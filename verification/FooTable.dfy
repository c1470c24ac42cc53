/**
 * Reference-counted objects under integer ids: the table as its callers see it, one operation
 * at a time, and how 29 linked hash chains in memory stand for it.
 */
module FooTable {
  import opened Chain
  import opened Histories

  const NHASH := 29
  const NULL := 0

  /** HASH: the id as an unsigned long, modulo the number of chains. */
  function HashOf(id: int): (c: nat)
    ensures c < NHASH
  {
    (id % 0x1_0000_0000_0000_0000) % NHASH
  }

  // ----- the table, one operation at a time -----

  datatype Ref = Ref(addr: nat, id: int)

  /** The objects that can be found, the newest first, and how many references each has. */
  datatype Table = Table(live: seq<Ref>, count: map<nat, int>)

  datatype Call = Alloc(id: int) | Find(id: int) | Hold(a: nat) | Rele(a: nat)

  /** The newest object with this id; |live| when there is none. */
  function First(live: seq<Ref>, id: int): (k: nat)
    ensures k <= |live| && (k < |live| ==> live[k].id == id)
    ensures forall j :: 0 <= j < k ==> live[j].id != id
  {
    if live == [] || live[0].id == id then 0 else 1 + First(live[1..], id)
  }

  /** Where an object is among the live ones. */
  function IndexOf(live: seq<Ref>, a: nat): (k: nat)
    ensures k <= |live| && (k < |live| ==> live[k].addr == a)
    ensures forall j :: 0 <= j < k ==> live[j].addr != a
  {
    if live == [] || live[0].addr == a then 0 else 1 + IndexOf(live[1..], a)
  }

  function Drop(live: seq<Ref>, k: nat): seq<Ref>
    requires k < |live|
  {
    live[..k] + live[k + 1..]
  }

  /** What one call, running alone, may return and make of the table; no result is NULL. */
  ghost predicate Does(t: Table, call: Call, res: nat, t': Table) {
    match call
    case Alloc(id) =>
      if res == NULL then t' == t                                  // out of memory
      else res !in t.count && t' == Table([Ref(res, id)] + t.live, t.count[res := 1])
    case Find(id) =>
      var k := First(t.live, id);
      if k == |t.live| then res == NULL && t' == t
      else res == t.live[k].addr && res in t.count && t' == Counted(t, res, t.count[res] + 1)
    case Hold(a) => res == NULL && a in t.count && t' == Counted(t, a, t.count[a] + 1)
    case Rele(a) =>
      && res == NULL && a in t.count && IsLive(t.live, a)
      && t' == if t.count[a] == 1 then Dropped(t, a) else Counted(t, a, t.count[a] - 1)
  }

  function Counted(t: Table, a: nat, n: int): Table { t.(count := t.count[a := n]) }

  function Dropped(t: Table, a: nat): Table
    requires IsLive(t.live, a)
  {
    Table(Drop(t.live, IndexOf(t.live, a)), t.count - {a})
  }

  /** One after the other, the events are possible and lead from t to t'. */
  ghost predicate Sequentially(t: Table, events: seq<Event<Call, nat>>, t': Table)
    decreases |events|
  {
    if events == [] then t == t'
    else exists t1 :: Does(t, events[0].op, events[0].res, t1) && Sequentially(t1, events[1..], t')
  }

  lemma SequentiallyFirst(t: Table, e: Event<Call, nat>, t1: Table, events: seq<Event<Call, nat>>, t': Table)
    requires Does(t, e.op, e.res, t1) && Sequentially(t1, events, t')
    ensures Sequentially(t, [e] + events, t')
  {
    assert ([e] + events)[1..] == events;
  }

  // ----- the same table as linked chains -----

  datatype Foo = Foo(id: int, count: int)

  /** Cell c < NHASH is fh[c]; the cell at an object's address is its f_next. */
  datatype Memory = Memory(ptr: map<nat, nat>, foo: map<nat, Foo>)

  /** The live objects of one chain, the newest first. */
  function Bucket(live: seq<Ref>, c: nat): (b: seq<Ref>)
    ensures |b| <= |live| && forall r :: r in b ==> r in live && HashOf(r.id) == c
  {
    if live == [] then []
    else (if HashOf(live[0].id) == c then [live[0]] else []) + Bucket(live[1..], c)
  }

  /** Chain c as the cells it goes through. */
  function List(live: seq<Ref>, c: nat): seq<nat> { Through(c, Bucket(live, c)) }

  function Through(c: nat, b: seq<Ref>): seq<nat> {
    seq(|b| + 1, i requires 0 <= i < |b| + 1 => if i == 0 then c else b[i - 1].addr)
  }

  ghost predicate Cells(m: Memory) {
    && (forall l: nat :: l in m.ptr <==> l < NHASH || l in m.foo)
    && (forall a :: a in m.foo ==> a >= NHASH)
  }

  ghost predicate Lists(ptr: map<nat, nat>, live: seq<Ref>) {
    forall c :: 0 <= c < NHASH ==> Path(ptr, List(live, c))
  }

  /** The objects of the table are in memory, each once, with their id and count. */
  ghost predicate Alive(foo: map<nat, Foo>, t: Table) {
    && Distinct(t.live)
    && (forall r :: r in t.live ==> r.addr in t.count && r.addr in foo && foo[r.addr].id == r.id)
    && (forall a :: a in t.count ==> a in foo && foo[a].count == t.count[a] && IsLive(t.live, a))
  }

  ghost predicate Distinct(live: seq<Ref>) {
    forall j, k :: 0 <= j < k < |live| ==> live[j].addr != live[k].addr
  }

  predicate IsLive(live: seq<Ref>, a: nat) { IndexOf(live, a) < |live| }

  /** The memory represents the table; further objects may be private to a thread. */
  ghost predicate Rep(m: Memory, t: Table) {
    Cells(m) && Lists(m.ptr, t.live) && Alive(m.foo, t)
  }

  // ----- chains and the one list -----

  lemma {:induction false} BucketConcat(a: seq<Ref>, b: seq<Ref>, c: nat)
    ensures Bucket(a + b, c) == Bucket(a, c) + Bucket(b, c)
  {
    if a == [] {
      assert a + b == b;
    } else {
      assert (a + b)[1..] == a[1..] + b;
      BucketConcat(a[1..], b, c);
    }
  }

  /** An object's place in its chain. */
  function Rank(live: seq<Ref>, k: nat): nat
    requires k < |live|
  {
    |Bucket(live[..k], HashOf(live[k].id))|
  }

  lemma BucketAround(live: seq<Ref>, k: nat, c: nat)
    requires k < |live|
    ensures Bucket(live, c)
            == Bucket(live[..k], c) + (if HashOf(live[k].id) == c then [live[k]] else []) + Bucket(live[k + 1..], c)
    ensures Bucket(Drop(live, k), c) == Bucket(live[..k], c) + Bucket(live[k + 1..], c)
  {
    var x, y := live[..k], live[k..];
    assert live == x + y && y[0] == live[k] && y[1..] == live[k + 1..];
    BucketConcat(x, y, c);
    BucketConcat(x, y[1..], c);
    assert Bucket(y, c) == (if HashOf(live[k].id) == c then [live[k]] else []) + Bucket(y[1..], c);
  }

  /** Searching one chain finds the newest object of all with the id. */
  lemma {:induction false} BucketFirst(live: seq<Ref>, id: int)
    ensures var b, k, i := Bucket(live, HashOf(id)), First(live, id), First(Bucket(live, HashOf(id)), id);
            (k == |live| <==> i == |b|) && (k < |live| ==> b[i] == live[k])
  {
    hide HashOf;
    if live != [] {
      var b := Bucket(live, HashOf(id));
      BucketFirst(live[1..], id);
      if HashOf(live[0].id) == HashOf(id) {
        assert b[0] == live[0] && b[1..] == Bucket(live[1..], HashOf(id));
      } else {
        assert b == Bucket(live[1..], HashOf(id));
      }
    }
  }

  /** The first element of a sequence that has the id, from having seen those before it. */
  lemma {:induction false} FirstIs(b: seq<Ref>, id: int, i: nat)
    requires i <= |b| && (i < |b| ==> b[i].id == id) && forall j :: 0 <= j < i ==> b[j].id != id
    ensures First(b, id) == i
  {
    var k := First(b, id);
    assert k >= i && (i < |b| ==> k <= i);
  }

  lemma {:induction false} InBucket(live: seq<Ref>, r: Ref)
    requires r in live
    ensures r in Bucket(live, HashOf(r.id))
  {
    hide HashOf;
    if live[0] != r { InBucket(live[1..], r); }
  }

  // ----- what each write does -----

  /** foo_alloc's two stores: the new object points to the first one, the head to the new object. */
  function HeadLinked(ptr: map<nat, nat>, a: nat, c: nat): map<nat, nat>
    requires c in ptr
  {
    ptr[a := ptr[c]][c := a]
  }

  lemma ListPush(live: seq<Ref>, r: Ref, c: nat)
    ensures List([r] + live, c) == if HashOf(r.id) == c then PushFront(List(live, c), r.addr) else List(live, c)
  {
    hide HashOf;
    assert ([r] + live)[1..] == live;
  }

  lemma LinkFirst(m: Memory, t: Table, a: nat)
    requires a in m.foo && a !in t.count && m.foo[a].count == 1
    requires Rep(m, t)
    ensures Rep(m.(ptr := HeadLinked(m.ptr, a, HashOf(m.foo[a].id))),
                Table([Ref(a, m.foo[a].id)] + t.live, t.count[a := 1]))
  {
    var c, r := HashOf(m.foo[a].id), Ref(a, m.foo[a].id);
    var ptr' := HeadLinked(m.ptr, a, c);
    hide HashOf;
    forall d | 0 <= d < NHASH ensures Path(ptr', List([r] + t.live, d)) {
      var p := List(t.live, d);
      NotOnList(m, t, a, d);
      ListPush(t.live, r, d);
      if d == c {
        PathPush(m.ptr, p, a);
      } else {
        OffList(m, t, c, d);
        PathFrame(m.ptr, p, a, m.ptr[c]);
        PathFrame(m.ptr[a := m.ptr[c]], p, c, a);
      }
    }
    LivePush(m.foo, t, a);
  }

  lemma LivePush(foo: map<nat, Foo>, t: Table, a: nat)
    requires a in foo && a !in t.count && foo[a].count == 1 && Alive(foo, t)
    ensures Alive(foo, Table([Ref(a, foo[a].id)] + t.live, t.count[a := 1]))
  {
    var live' := [Ref(a, foo[a].id)] + t.live;
    assert live'[1..] == t.live;
  }

  /** An object that cannot be found is on no chain. */
  lemma NotOnList(m: Memory, t: Table, a: nat, c: nat)
    requires a >= NHASH && a !in t.count && c < NHASH && Rep(m, t)
    ensures a !in List(t.live, c)
  {
    hide HashOf;
    forall i | 0 <= i < |List(t.live, c)| ensures List(t.live, c)[i] != a {
      if i > 0 { assert Bucket(t.live, c)[i - 1] in t.live; }
    }
  }

  /** A chain does not pass through another chain's head. */
  lemma OffList(m: Memory, t: Table, c: nat, d: nat)
    requires c < NHASH && c != d && Rep(m, t)
    ensures c !in List(t.live, d)
  {
    hide HashOf;
    forall i | 0 <= i < |List(t.live, d)| ensures List(t.live, d)[i] != c {
      if i > 0 { assert Bucket(t.live, d)[i - 1] in t.live; }
    }
  }

  lemma ListDrop(live: seq<Ref>, k: nat, c: nat)
    requires k < |live|
    ensures HashOf(live[k].id) != c ==> List(Drop(live, k), c) == List(live, c)
    ensures HashOf(live[k].id) == c ==>
              (Rank(live, k) + 1 < |List(live, c)| && List(live, c)[Rank(live, k) + 1] == live[k].addr
               && List(Drop(live, k), c) == Without(List(live, c), Rank(live, k) + 1))
  {
    hide HashOf, Bucket, Through, Drop;
    BucketAround(live, k, c);
    var x, y := Bucket(live[..k], c), Bucket(live[k + 1..], c);
    if HashOf(live[k].id) == c {
      ThroughDrop(c, x, live[k], y);
    } else {
      assert x + [] + y == x + y;
    }
  }

  lemma ThroughDrop(c: nat, x: seq<Ref>, r: Ref, y: seq<Ref>)
    ensures |x| + 1 < |Through(c, x + [r] + y)| && Through(c, x + [r] + y)[|x| + 1] == r.addr
    ensures Through(c, x + y) == Without(Through(c, x + [r] + y), |x| + 1)
  {
    var b := x + [r] + y;
    var p, q := Through(c, b), Through(c, x + y);
    forall i | 0 <= i < |q| ensures q[i] == Without(p, |x| + 1)[i] {
      if i > |x| { assert q[i] == y[i - 1 - |x|].addr == b[i].addr == p[i + 1]; }
    }
    assert |q| == |Without(p, |x| + 1)|;
    assert q == Without(p, |x| + 1);
  }

  /** Taking an object off its chain, given the cell that points to it. */
  lemma Unlink(m: Memory, t: Table, a: nat, i: nat)
    requires a in t.count && a in m.foo && IsLive(t.live, a) && a in m.ptr
    requires 0 < i < |List(t.live, HashOf(m.foo[a].id))| && List(t.live, HashOf(m.foo[a].id))[i] == a
    requires Rep(m, t)
    ensures Rep(m.(ptr := m.ptr[List(t.live, HashOf(m.foo[a].id))[i - 1] := m.ptr[a]]), Dropped(t, a))
  {
    var k := IndexOf(t.live, a);
    assert t.live[k] in t.live;
    var c := HashOf(m.foo[a].id);
    var p := List(t.live, c);
    assert Path(m.ptr, p);
    hide HashOf, List, Drop, Rank, Bucket, Distinct, Alive, Without, Path, Lists;
    var ptr' := m.ptr[p[i - 1] := m.ptr[a]];
    forall d | 0 <= d < NHASH ensures Path(ptr', List(Drop(t.live, k), d)) {
      UnlinkList(m, t, k, i, c, d);
    }
    assert Lists(ptr', Drop(t.live, k)) by { ListsAll(ptr', Drop(t.live, k)); }
    assert p[i - 1] in m.ptr by { PathCell(m.ptr, p, i - 1); }
    LiveDrop(m.foo, t, a);
  }

  lemma ListsAll(ptr: map<nat, nat>, live: seq<Ref>)
    requires forall c :: 0 <= c < NHASH ==> Path(ptr, List(live, c))
    ensures Lists(ptr, live)
  {
  }

  lemma PathCell(ptr: map<nat, nat>, p: seq<nat>, i: nat)
    requires Path(ptr, p) && i < |p|
    ensures p[i] in ptr && ptr[p[i]] == Next(p, i)
  {
    assert Chain.Linked(ptr, p, i);
  }

  lemma UnlinkList(m: Memory, t: Table, k: nat, i: nat, c: nat, d: nat)
    requires k < |t.live| && c == HashOf(t.live[k].id) && d < NHASH
    requires 0 < i < |List(t.live, c)| && List(t.live, c)[i] == t.live[k].addr && t.live[k].addr in m.ptr
    requires Rep(m, t)
    ensures Path(m.ptr[List(t.live, c)[i - 1] := m.ptr[t.live[k].addr]], List(Drop(t.live, k), d))
  {
    hide HashOf, List, Drop, Bucket, Distinct, Alive, Without, Path, Rank, Cells;
    var p, q := List(t.live, c), List(t.live, d);
    assert Path(m.ptr, p) && Path(m.ptr, q);
    hide Lists;
    ListDrop(t.live, k, c);
    ListDrop(t.live, k, d);
    if d == c {
      PathPlace(m.ptr, p, i, Rank(t.live, k) + 1);
      PathRemove(m.ptr, p, i);
    } else {
      ListsApart(m, t, c, d, i - 1);
      PathFrame(m.ptr, q, p[i - 1], m.ptr[t.live[k].addr]);
    }
  }

  /** No cell is on two chains. */
  lemma ListsApart(m: Memory, t: Table, c: nat, d: nat, i: nat)
    requires c < NHASH && d < NHASH && c != d && i < |List(t.live, c)| && Rep(m, t)
    ensures List(t.live, c)[i] !in List(t.live, d)
  {
    hide HashOf;
    var l := List(t.live, c)[i];
    if i == 0 { OffList(m, t, c, d); return; }
    assert Bucket(t.live, c)[i - 1] in t.live;
    forall j | 0 <= j < |List(t.live, d)| ensures List(t.live, d)[j] != l {
      if j > 0 { assert Bucket(t.live, d)[j - 1] in t.live; }
    }
  }

  lemma LiveDrop(foo: map<nat, Foo>, t: Table, a: nat)
    requires IsLive(t.live, a) && Alive(foo, t)
    ensures Alive(foo, Dropped(t, a))
  {
    var k := IndexOf(t.live, a);
    var live' := Drop(t.live, k);
    DropKeeps(t.live, k);
    hide Drop, Distinct, IndexOf;
    forall b | b in t.count && b != a ensures IsLive(live', b) {
      StaysLive(t.live, live', b);
    }
  }

  lemma StaysLive(live: seq<Ref>, live': seq<Ref>, b: nat)
    requires IsLive(live, b) && forall r :: r in live && r.addr == b ==> r in live'
    ensures IsLive(live', b)
  {
    assert live[IndexOf(live, b)] in live';
  }

  lemma DropKeeps(live: seq<Ref>, k: nat)
    requires k < |live| && Distinct(live)
    ensures Distinct(Drop(live, k))
    ensures forall r :: r in Drop(live, k) <==> r in live && r.addr != live[k].addr
  {
    var live' := Drop(live, k);
    forall r | r in live && r.addr != live[k].addr ensures r in live' {
      var j :| 0 <= j < |live| && live[j] == r;
      assert live'[if j < k then j else j - 1] == r;
    }
  }

  /** Changing the count of an object in the table. */
  lemma Recount(m: Memory, t: Table, a: nat, n: int)
    requires a in t.count && a in m.foo && Rep(m, t)
    ensures Rep(m.(foo := m.foo[a := m.foo[a].(count := n)]), Counted(t, a, n))
  {
    hide Path;
  }

  /** Memory from malloc, at a free address and with any content in f_next. */
  lemma Malloc(m: Memory, t: Table, a: nat, id: int, junk: nat)
    requires a >= NHASH && a !in m.foo && Rep(m, t)
    ensures Rep(Memory(m.ptr[a := junk], m.foo[a := Foo(id, 1)]), t)
  {
    ListsSame(m, t, m.ptr[a := junk], a);
  }

  lemma ListsSame(m: Memory, t: Table, ptr': map<nat, nat>, a: nat)
    requires a >= NHASH && a !in t.count && Rep(m, t)
    requires forall l :: l in m.ptr && l != a ==> l in ptr' && ptr'[l] == m.ptr[l]
    ensures Lists(ptr', t.live)
  {
    hide HashOf;
    forall c | 0 <= c < NHASH ensures Path(ptr', List(t.live, c)) {
      NotOnList(m, t, a, c);
      var p := List(t.live, c);
      hide List;
      forall i | 0 <= i < |p| ensures p[i] in ptr' && Chain.Linked(ptr', p, i) { assert Chain.Linked(m.ptr, p, i); }
    }
  }

  function Freed(m: Memory, a: nat): Memory { Memory(m.ptr - {a}, m.foo - {a}) }

  /** Freeing an object that is on no chain. */
  lemma Free(m: Memory, t: Table, a: nat)
    requires a in m.foo && a !in t.count && Rep(m, t)
    ensures Rep(Freed(m, a), t)
  {
    ListsSame(m, t, m.ptr - {a}, a);
  }

  // ----- walking a chain -----

  function At(ptr: map<nat, nat>, l: nat): nat { if l in ptr then ptr[l] else NULL }

  predicate HasCount(m: Memory, a: nat, n: int) { a in m.foo && m.foo[a].count == n }

  /** The search has come to fp, and nothing before it has the id. */
  ghost predicate Searched(t: Table, id: int, fp: nat, i: nat) {
    var c := HashOf(id);
    && i < |List(t.live, c)| && fp == Chain.Next(List(t.live, c), i)
    && forall j :: 0 <= j < i ==> Bucket(t.live, c)[j].id != id
  }

  /** The walk to the cell before the object has come to cell l, and has not passed the object. */
  ghost predicate Walked(m: Memory, t: Table, a: nat, l: nat, i: nat) {
    && HasCount(m, a, 1) && a in t.count
    && var p := List(t.live, HashOf(m.foo[a].id));
    i < |p| && p[i] == l && a !in p[..i + 1]
  }

  lemma ListCell(m: Memory, t: Table, c: nat, i: nat)
    requires c < NHASH && i < |List(t.live, c)|
    requires Rep(m, t)
    ensures At(m.ptr, List(t.live, c)[i]) == Chain.Next(List(t.live, c), i)
    ensures i + 1 < |List(t.live, c)| ==> List(t.live, c)[i + 1] != NULL
  {
    hide HashOf, Cells, Alive, List, Path;
    var p := List(t.live, c);
    assert Path(m.ptr, p);
    PathCell(m.ptr, p, i);
    if i + 1 < |p| { PathNonNull(m.ptr, p, i + 1); }
  }

  lemma PathNonNull(ptr: map<nat, nat>, p: seq<nat>, i: nat)
    requires Path(ptr, p) && 0 < i < |p|
    ensures p[i] != NULL
  {
  }

  lemma SearchStart(m: Memory, t: Table, id: int)
    requires Rep(m, t)
    ensures Searched(t, id, At(m.ptr, HashOf(id)), 0)
  {
    hide HashOf, Cells, Alive, Lists;
    ListCell(m, t, HashOf(id), 0);
  }

  /** The object the search has come to, if any, and where it goes on from there. */
  lemma SearchOn(m: Memory, t: Table, id: int, fp: nat, i: nat)
    requires Searched(t, id, fp, i) && fp != NULL
    requires Rep(m, t)
    ensures fp in m.foo
    ensures m.foo[fp].id != id ==> Searched(t, id, At(m.ptr, fp), i + 1)
    ensures m.foo[fp].id == id ==> First(t.live, id) < |t.live| && t.live[First(t.live, id)].addr == fp
  {
    hide HashOf, Rep, First, List, Bucket;
    var c := HashOf(id);
    var b := Bucket(t.live, c);
    ListHas(m, t, c, i);
    ListCell(m, t, c, i + 1);
    if m.foo[fp].id == id {
      FirstIs(b, id, i);
      BucketFirst(t.live, id);
    }
  }

  lemma ListHas(m: Memory, t: Table, c: nat, i: nat)
    requires i + 1 < |List(t.live, c)|
    requires Rep(m, t)
    ensures |List(t.live, c)| == |Bucket(t.live, c)| + 1
    ensures var r := Bucket(t.live, c)[i];
            List(t.live, c)[i + 1] == r.addr && r.addr in m.foo && m.foo[r.addr].id == r.id
  {
    hide HashOf, Cells, Lists, Bucket, IsLive, Distinct;
    assert Bucket(t.live, c)[i] in t.live;
  }

  lemma SearchEnd(m: Memory, t: Table, id: int, i: nat)
    requires Searched(t, id, NULL, i)
    requires Rep(m, t)
    ensures First(t.live, id) == |t.live|
  {
    hide HashOf, Cells, Lists, Alive, First;
    var c := HashOf(id);
    ListCell(m, t, c, i);
    FirstIs(Bucket(t.live, c), id, i);
    BucketFirst(t.live, id);
  }

  lemma WalkStart(m: Memory, t: Table, a: nat)
    requires a in t.count && HasCount(m, a, 1)
    requires Rep(m, t)
    ensures Walked(m, t, a, HashOf(m.foo[a].id), 0)
  {
    hide HashOf, Lists;
  }

  /** The walk goes on to a cell of the same chain, or has the cell that points to the object. */
  lemma WalkOn(m: Memory, t: Table, a: nat, l: nat, i: nat)
    requires Walked(m, t, a, l, i)
    requires Rep(m, t)
    ensures i + 1 < |List(t.live, HashOf(m.foo[a].id))|
    ensures At(m.ptr, l) == List(t.live, HashOf(m.foo[a].id))[i + 1]
    ensures At(m.ptr, l) != a ==> Walked(m, t, a, At(m.ptr, l), i + 1)
  {
    var c := HashOf(m.foo[a].id);
    OnItsList(m, t, a);
    ListCell(m, t, c, i);
    hide HashOf, Rep, List;
    NotYet(List(t.live, c), a, i);
  }

  lemma NotYet(p: seq<nat>, a: nat, i: nat)
    requires a in p && i < |p| && a !in p[..i + 1]
    ensures i + 1 < |p| && (p[i + 1] != a ==> a !in p[..i + 2])
  {
    assert p[..|p|] == p;
    if i + 1 < |p| { assert p[..i + 2] == p[..i + 1] + [p[i + 1]]; }
  }

  lemma OnItsList(m: Memory, t: Table, a: nat)
    requires a in t.count && a in m.foo
    requires Rep(m, t)
    ensures a in List(t.live, HashOf(m.foo[a].id))
  {
    hide Cells, Lists, HashOf, IndexOf;
    assert IsLive(t.live, a);
    var r := t.live[IndexOf(t.live, a)];
    assert r in t.live;
    InBucket(t.live, r);
    var b := Bucket(t.live, HashOf(r.id));
    var j :| 0 <= j < |b| && b[j] == r;
    assert List(t.live, HashOf(r.id))[j + 1] == a;
  }
}
