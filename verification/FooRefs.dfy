/** Threads, the references they own, and the counts that must agree with them. */
module FooRefs {
  import opened FooTable

  /** refs are the references the thread owns, those of its call included. */
  datatype Thread<Pc> = Thread(call: Call, pc: Pc, refs: multiset<nat>)

  /** Whether a call has taken effect, and with what result. */
  datatype Effect = Pending | Took(res: nat)

  /** All references to an object there are. */
  function Refs<Pc>(ths: seq<Thread<Pc>>, a: nat): nat {
    if ths == [] then 0 else ths[0].refs[a] + Refs(ths[1..], a)
  }

  /** f_count is the number of outstanding references, and only objects in memory are referred to. */
  ghost predicate Counting<Pc>(foo: map<nat, Foo>, ths: seq<Thread<Pc>>) {
    && (forall a :: a in foo ==> foo[a].count == Refs(ths, a))
    && (forall a: nat :: Refs(ths, a) > 0 ==> a in foo)
  }

  lemma {:induction false} RefsOf<Pc>(ths: seq<Thread<Pc>>, p: nat, a: nat)
    requires p < |ths|
    ensures ths[p].refs[a] <= Refs(ths, a)
  {
    if p > 0 { RefsOf(ths[1..], p - 1, a); }
  }

  lemma {:induction false} RefsOfTwo<Pc>(ths: seq<Thread<Pc>>, p: nat, q: nat, a: nat)
    requires p < q < |ths|
    ensures ths[p].refs[a] + ths[q].refs[a] <= Refs(ths, a)
  {
    if p > 0 { RefsOfTwo(ths[1..], p - 1, q - 1, a); } else { RefsOf(ths[1..], q - 1, a); }
  }

  lemma {:induction false} RefsPut<Pc>(ths: seq<Thread<Pc>>, p: nat, th: Thread<Pc>, a: nat)
    requires p < |ths|
    ensures Refs(ths[p := th], a) == Refs(ths, a) - ths[p].refs[a] + th.refs[a]
  {
    var ths' := ths[p := th];
    if p == 0 {
      assert ths'[1..] == ths[1..];
    } else {
      assert ths'[1..] == ths[1..][p - 1 := th];
      RefsPut(ths[1..], p - 1, th, a);
    }
  }

  lemma RefsPutAll<Pc>(ths: seq<Thread<Pc>>, p: nat, th: Thread<Pc>, ths': seq<Thread<Pc>>)
    requires p < |ths| && ths' == ths[p := th]
    ensures forall a: nat :: Refs(ths', a) == Refs(ths, a) - ths[p].refs[a] + th.refs[a]
  {
    forall a: nat ensures Refs(ths', a) == Refs(ths, a) - ths[p].refs[a] + th.refs[a] { RefsPut(ths, p, th, a); }
  }

  /** Whoever refers to an object is counted. */
  lemma RefIsCounted<Pc>(foo: map<nat, Foo>, ths: seq<Thread<Pc>>, p: nat, a: nat)
    requires Counting(foo, ths) && p < |ths| && a in ths[p].refs
    ensures a in foo && foo[a].count >= ths[p].refs[a] >= 1
  {
    RefsOf(ths, p, a);
  }

  /** An object two threads refer to has more than one reference. */
  lemma Shared<Pc>(foo: map<nat, Foo>, ths: seq<Thread<Pc>>, p: nat, q: nat, a: nat)
    requires Counting(foo, ths) && p < |ths| && q < |ths| && p != q && a in ths[p].refs && a in ths[q].refs
    ensures a in foo && foo[a].count >= 2
  {
    if p < q { RefsOfTwo(ths, p, q, a); } else { RefsOfTwo(ths, q, p, a); }
  }

  lemma CountingSame<Pc>(foo: map<nat, Foo>, ths: seq<Thread<Pc>>, ths': seq<Thread<Pc>>)
    requires (forall a: nat :: Refs(ths', a) == Refs(ths, a)) && Counting(foo, ths)
    ensures Counting(foo, ths')
  {
    hide Refs;
  }

  lemma MallocCounts<Pc>(foo: map<nat, Foo>, ths: seq<Thread<Pc>>, p: nat, a: nat, id: int, ths': seq<Thread<Pc>>)
    requires p < |ths| == |ths'| && ths' == ths[p := ths'[p]] && ths'[p].refs == ths[p].refs + multiset{a}
    requires a !in foo
    requires Counting(foo, ths)
    ensures Counting(foo[a := Foo(id, 1)], ths')
  {
    hide Refs;
    RefsPutAll(ths, p, ths'[p], ths');
    assert Refs(ths, a) == 0;
  }

  lemma FreedCounts<Pc>(foo: map<nat, Foo>, ths: seq<Thread<Pc>>, p: nat, a: nat, ths': seq<Thread<Pc>>)
    requires p < |ths| == |ths'| && ths' == ths[p := ths'[p]] && ths'[p].refs == ths[p].refs - multiset{a}
    requires a in ths[p].refs && a in foo && foo[a].count == 1
    requires Counting(foo, ths)
    ensures Counting(foo - {a}, ths')
  {
    hide Refs;
    RefsPutAll(ths, p, ths'[p], ths');
  }

  lemma CountingPut<Pc>(foo: map<nat, Foo>, ths: seq<Thread<Pc>>, p: nat, a: nat, n: int, ths': seq<Thread<Pc>>)
    requires p < |ths| == |ths'| && ths' == ths[p := ths'[p]] && a in foo
    requires n == foo[a].count + ths'[p].refs[a] - ths[p].refs[a]
    requires forall x :: x != a ==> ths'[p].refs[x] == ths[p].refs[x]
    requires Counting(foo, ths)
    ensures Counting(foo[a := foo[a].(count := n)], ths')
  {
    hide Refs;
    RefsPutAll(ths, p, ths'[p], ths');
  }

  lemma {:induction false} NoRefs<Pc>(ths: seq<Thread<Pc>>, a: nat)
    requires forall p :: 0 <= p < |ths| ==> ths[p].refs == multiset{}
    ensures Refs(ths, a) == 0
  {
    if ths != [] { NoRefs(ths[1..], a); }
  }
}
