/** The table by its history: what the calls so far say about every object and every id. */
module FooHistory {
  import opened Histories
  import opened FooTable

  type History = seq<Event<Call, nat>>

  /** The reference to an object that one event gives out, or takes back. */
  function GivenBy(e: Event<Call, nat>, a: nat): int {
    match e.op
    case Alloc(_) => if a != NULL && e.res == a then 1 else 0
    case Find(_) => if a != NULL && e.res == a then 1 else 0
    case Hold(b) => if b == a then 1 else 0
    case Rele(b) => if b == a then -1 else 0
  }

  /** All those given out so far, less those taken back. */
  function Given(events: History, a: nat): int {
    if events == [] then 0 else Given(events[..|events| - 1], a) + GivenBy(events[|events| - 1], a)
  }

  /** Event j made an object that still has references: the last one made at its address. */
  predicate MadeLive(events: History, j: nat) {
    && j < |events| && events[j].op.Alloc? && events[j].res != NULL && Given(events, events[j].res) > 0
    && forall i :: j < i < |events| && events[i].op.Alloc? ==> events[i].res != events[j].res
  }

  /** The objects made by the first n events that still have references, the newest first. */
  function Lives(events: History, n: nat): seq<Ref>
    requires n <= |events|
  {
    if n == 0 then []
    else if MadeLive(events, n - 1) then [Ref(events[n - 1].res, events[n - 1].op.id)] + Lives(events, n - 1)
    else Lives(events, n - 1)
  }

  /** The objects in the table are those with references, and it counts them rightly. */
  ghost predicate CountsTell(events: History, t: Table) {
    && (forall a: nat :: a in t.count <==> Given(events, a) > 0)
    && (forall a: nat :: a in t.count ==> t.count[a] == Given(events, a))
    && (forall a: nat :: Given(events, a) >= 0)
  }

  // ----- every table is what its history says -----

  lemma GivenMore(events: History, e: Event<Call, nat>, a: nat)
    ensures Given(events + [e], a) == Given(events, a) + GivenBy(e, a)
  {
    assert (events + [e])[..|events|] == events;
  }

  /** An event that leaves each object with or without references leaves the objects made before it alone. */
  lemma {:induction false} LivesKept(events: History, e: Event<Call, nat>, n: nat)
    requires n <= |events|
    requires forall j :: 0 <= j < n && MadeLive(events, j) ==> MadeLive(events + [e], j)
    requires forall j :: 0 <= j < n && MadeLive(events + [e], j) ==> MadeLive(events, j)
    ensures Lives(events + [e], n) == Lives(events, n)
  {
    hide MadeLive;
    if n > 0 { LivesKept(events, e, n - 1); }
  }

  /** The last reference but one, or any other event about another object: who is live stays live. */
  lemma LiveStays(events: History, e: Event<Call, nat>, j: nat)
    requires j < |events| && events[j].op.Alloc?
    requires Given(events, events[j].res) > 0 <==> Given(events + [e], events[j].res) > 0
    requires e.op.Alloc? ==> e.res != events[j].res || e.res == NULL
    ensures MadeLive(events, j) <==> MadeLive(events + [e], j)
  {
    hide Given;
    var events' := events + [e];
    assert events'[j] == events[j] && events'[|events|] == e;
    assert forall i :: 0 <= i < |events| ==> events'[i] == events[i];
  }

  /** An address that is used again: the object made there before was dead already. */
  lemma Reused(events: History, e: Event<Call, nat>, j: nat)
    requires j < |events| && events[j].op.Alloc? && e.op.Alloc? && e.res == events[j].res
    requires Given(events, e.res) <= 0
    ensures !MadeLive(events, j) && !MadeLive(events + [e], j)
  {
    hide Given;
    assert (events + [e])[j] == events[j] && (events + [e])[|events|] == e;
  }

  /** All but the new object, if one is made. */
  lemma OthersLive(events: History, e: Event<Call, nat>)
    requires forall a: nat :: Given(events, a) > 0 && !(e.op.Alloc? && e.res == a) ==> Given(events + [e], a) > 0
    requires forall a: nat :: Given(events + [e], a) > 0 && !(e.op.Alloc? && e.res == a) ==> Given(events, a) > 0
    requires e.op.Alloc? ==> Given(events, e.res) <= 0 && (e.res == NULL ==> Given(events + [e], e.res) <= 0)
    ensures Lives(events + [e], |events|) == Lives(events, |events|)
  {
    hide Given, MadeLive;
    forall j | 0 <= j < |events| ensures MadeLive(events, j) <==> MadeLive(events + [e], j) {
      AllocOf(events, j);
      AllocOf(events + [e], j);
      assert (events + [e])[j] == events[j];
      if events[j].op.Alloc? {
        if e.op.Alloc? && e.res == events[j].res { Reused(events, e, j); } else { LiveStays(events, e, j); }
      }
    }
    LivesKept(events, e, |events|);
  }

  lemma AllocOf(events: History, j: nat)
    ensures MadeLive(events, j) ==> j < |events| && events[j].op.Alloc?
  {
  }

  /** The event that gives back the last reference takes that object and no other off the list. */
  lemma {:induction false} LivesDrop(events: History, a: nat, e: Event<Call, nat>, n: nat)
    requires n <= |events| && e.op == Rele(a) && Given(events, a) == 1
    requires forall b: nat :: Given(events + [e], b) == Given(events, b) - if a == b then 1 else 0
    ensures var l, k := Lives(events, n), IndexOf(Lives(events, n), a);
            Lives(events + [e], n) == if k < |l| then Drop(l, k) else l
  {
    hide Given;
    if n > 0 {
      LivesDrop(events, a, e, n - 1);
      var l := Lives(events, n - 1);
      assert (events + [e])[n - 1] == events[n - 1];
      if MadeLive(events, n - 1) && events[n - 1].res == a {
        OlderGone(events, n - 1, n - 1);
        assert Lives(events, n)[1..] == l;
      } else if MadeLive(events, n - 1) {
        LiveStays(events, e, n - 1);
        var r := Ref(events[n - 1].res, events[n - 1].op.id);
        DropNext(r, l, a);
      } else if events[n - 1].op.Alloc? && events[n - 1].res != a {
        LiveStays(events, e, n - 1);
      }
    }
  }

  lemma DropNext(r: Ref, l: seq<Ref>, a: nat)
    requires r.addr != a
    ensures var k, k' := IndexOf(l, a), IndexOf([r] + l, a);
            (k' < 1 + |l| <==> k < |l|) && (k < |l| ==> Drop([r] + l, k') == [r] + Drop(l, k))
  {
    assert ([r] + l)[1..] == l;
  }

  /** Of two objects made at one address the older one is not live. */
  lemma {:induction false} OlderGone(events: History, j: nat, n: nat)
    requires n <= j && MadeLive(events, j)
    ensures IndexOf(Lives(events, n), events[j].res) == |Lives(events, n)|
  {
    hide Given;
    if n > 0 {
      OlderGone(events, j, n - 1);
      assert MadeLive(events, n - 1) ==> events[n - 1].res != events[j].res;
    }
  }

  lemma CountsGrow(events: History, e: Event<Call, nat>, t: Table, t': Table)
    requires CountsTell(events, t) && Given(events, NULL) <= 0 && Does(t, e.op, e.res, t')
    ensures CountsTell(events + [e], t') && Given(events + [e], NULL) <= 0
    ensures forall a: nat :: Given(events + [e], a) == Given(events, a) + GivenBy(e, a)
  {
    hide First, IndexOf, Given;
    forall a: nat ensures Given(events + [e], a) == Given(events, a) + GivenBy(e, a) { GivenMore(events, e, a); }
  }

  lemma LivesGrow(events: History, e: Event<Call, nat>, t: Table, t': Table)
    requires CountsTell(events, t) && t.live == Lives(events, |events|) && Does(t, e.op, e.res, t')
    requires Given(events, NULL) <= 0 && forall a: nat :: Given(events + [e], a) == Given(events, a) + GivenBy(e, a)
    ensures t'.live == Lives(events + [e], |events| + 1)
  {
    hide First, IndexOf, Given, Drop;
    var events', n := events + [e], |events|;
    assert events'[n] == e && MadeLive(events', n) <==> e.op.Alloc? && e.res != NULL;
    if e.op.Rele? && t.count[e.op.a] == 1 {
      LivesDrop(events, e.op.a, e, n);
    } else {
      OthersLive(events, e);
    }
  }

  /** Any calls that are possible one after the other leave the table that their history tells. */
  lemma {:induction false} TableIsHistory(events: History, t: Table)
    requires Sequentially(Table([], map[]), events, t)
    ensures CountsTell(events, t) && t.live == Lives(events, |events|) && Given(events, NULL) <= 0
    decreases |events|
  {
    hide Does, CountsTell, Given;
    if events == [] {
      NothingGiven(t);
    } else {
      var n := |events| - 1;
      var t1 := SequentiallyLast(Table([], map[]), events, t);
      TableIsHistory(events[..n], t1);
      CountsGrow(events[..n], events[n], t1, t);
      LivesGrow(events[..n], events[n], t1, t);
      assert events[..n] + [events[n]] == events;
    }
  }

  lemma NothingGiven(t: Table)
    requires t == Table([], map[])
    ensures CountsTell([], t) && Given([], NULL) == 0
  {
  }

  lemma {:induction false} SequentiallyLast(t: Table, events: History, t': Table) returns (t1: Table)
    requires Sequentially(t, events, t') && events != []
    ensures var n := |events| - 1; Sequentially(t, events[..n], t1) && Does(t1, events[n].op, events[n].res, t')
    decreases |events|
  {
    hide Does;
    var n := |events| - 1;
    var t0: Table :| Does(t, events[0].op, events[0].res, t0) && Sequentially(t0, events[1..], t');
    if n == 0 {
      t1 := t;
    } else {
      t1 := SequentiallyLast(t0, events[1..], t');
      assert events[1..][..n - 1] == events[..n][1..] && events[..n][0] == events[0];
    }
  }

  // ----- what each call returns -----

  /** A found object is the newest made under its id that still has references; none is found when there is none. */
  ghost predicate FindsNewest(events: History, id: int, res: nat) {
    if res == NULL then forall j: nat :: MadeLive(events, j) ==> events[j].op.id != id
    else exists j: nat :: (MadeLive(events, j) && events[j].op.id == id && events[j].res == res
                           && forall i: nat :: j < i && MadeLive(events, i) ==> events[i].op.id != id)
  }

  lemma {:induction false} FirstIsNewest(events: History, id: int, n: nat) returns (j: nat)
    requires n <= |events|
    ensures var l, k := Lives(events, n), First(Lives(events, n), id);
            && j <= n
            && (forall i: nat :: j < i < n && MadeLive(events, i) ==> events[i].op.id != id)
            && if k < |l| then j < n && MadeLive(events, j) && events[j].op.id == id && events[j].res == l[k].addr
               else forall i: nat :: i < n && MadeLive(events, i) ==> events[i].op.id != id
  {
    hide Given;
    if n == 0 {
      j := 0;
    } else if MadeLive(events, n - 1) && events[n - 1].op.id == id {
      j := n - 1;
    } else {
      j := FirstIsNewest(events, id, n - 1);
    }
  }

  /** A new object is at an address nobody refers to; one held or released is referred to. */
  ghost predicate FitsHistory(before: History, e: Event<Call, nat>) {
    match e.op
    case Alloc(_) => e.res == NULL || Given(before, e.res) == 0
    case Find(id) => FindsNewest(before, id, e.res)
    case Hold(a) => e.res == NULL && Given(before, a) > 0
    case Rele(a) => e.res == NULL && Given(before, a) > 0
  }

  /** Of any calls that are possible one after the other, each has the result its history asks for. */
  lemma {:induction false} ResultsFitHistory(events: History, t: Table, k: nat)
    requires Sequentially(Table([], map[]), events, t) && k < |events|
    ensures FitsHistory(events[..k], events[k])
    decreases |events|
  {
    hide Does, FitsHistory;
    var n := |events| - 1;
    var t1 := SequentiallyLast(Table([], map[]), events, t);
    if k == n {
      TableIsHistory(events[..n], t1);
      LastFits(events[..n], events[n], t1, t);
    } else {
      ResultsFitHistory(events[..n], t1, k);
      assert events[..n][..k] == events[..k] && events[..n][k] == events[k];
    }
  }

  lemma LastFits(before: History, e: Event<Call, nat>, t: Table, t': Table)
    requires CountsTell(before, t) && t.live == Lives(before, |before|) && Does(t, e.op, e.res, t')
    ensures FitsHistory(before, e)
  {
    hide Given, Lives, MadeLive;
    if e.op.Find? {
      var j := FirstIsNewest(before, e.op.id, |before|);
      if First(t.live, e.op.id) < |t.live| { NewestIs(before, e.op.id, j); } else { NoneIs(before, e.op.id); }
    }
  }

  lemma NewestIs(before: History, id: int, j: nat)
    requires MadeLive(before, j) && before[j].op.id == id
    requires forall i: nat :: j < i < |before| && MadeLive(before, i) ==> before[i].op.id != id
    ensures FindsNewest(before, id, before[j].res)
  {
    hide Given;
    assert forall i: nat :: MadeLive(before, i) ==> i < |before|;
  }

  lemma NoneIs(before: History, id: int)
    requires forall i: nat :: i < |before| && MadeLive(before, i) ==> before[i].op.id != id
    ensures FindsNewest(before, id, NULL)
  {
    hide Given;
    assert forall i: nat :: MadeLive(before, i) ==> i < |before|;
  }

  // ----- what malloc gave -----

  /** The objects that thread q's calls of foo_alloc made, or NULL where they made none, with their ids. */
  function Allocated(events: History, q: nat): seq<(int, nat)> {
    if events == [] then []
    else (if events[0].who == q && events[0].op.Alloc? then [(events[0].op.id, events[0].res)] else [])
         + Allocated(events[1..], q)
  }

  lemma {:induction false} AllocatedBoth(a: History, b: History, q: nat)
    ensures Allocated(a + b, q) == Allocated(a, q) + Allocated(b, q)
  {
    if a == [] {
      assert a + b == b;
    } else {
      assert (a + b)[0] == a[0] && (a + b)[1..] == a[1..] + b;
      AllocatedBoth(a[1..], b, q);
    }
  }

  lemma {:induction false} AllocatedBy(events: History, q: nat)
    ensures Allocated(By(events, q), q) == Allocated(events, q)
  {
    if events != [] {
      AllocatedBy(events[1..], q);
      var first := if events[0].who == q then [events[0]] else [];
      AllocatedBoth(first, By(events[1..], q), q);
    }
  }

  lemma AllocatedPrefix(a: History, b: History, q: nat)
    requires By(a, q) <= By(b, q)
    ensures Allocated(a, q) <= Allocated(b, q)
  {
    var n := |By(a, q)|;
    assert By(b, q) == By(a, q) + By(b, q)[n..];
    AllocatedBy(a, q);
    AllocatedBy(b, q);
    AllocatedBoth(By(a, q), By(b, q)[n..], q);
  }
}
