/** What several processes did, one event after another. */
module Histories {
  /** A call by a process, with its result. */
  datatype Event<O, R> = Event(who: nat, op: O, res: R)

  /** The events of process p, */
  function By<O, R>(events: seq<Event<O, R>>, p: nat): seq<Event<O, R>> {
    if events == [] then [] else (if events[0].who == p then [events[0]] else []) + By(events[1..], p)
  }

  /** and the calls they are of. */
  function Calls<O, R>(events: seq<Event<O, R>>, p: nat): seq<O> {
    if events == [] then [] else (if events[0].who == p then [events[0].op] else []) + Calls(events[1..], p)
  }

  lemma {:induction false} ByBoth<O, R>(a: seq<Event<O, R>>, b: seq<Event<O, R>>, p: nat)
    ensures By(a + b, p) == By(a, p) + By(b, p)
  {
    if a == [] {
      assert a + b == b;
    } else {
      assert (a + b)[0] == a[0] && (a + b)[1..] == a[1..] + b;
      ByBoth(a[1..], b, p);
      Grouped(if a[0].who == p then [a[0]] else [], By(a[1..], p), By(b, p));
    }
  }

  lemma {:induction false} CallsBoth<O, R>(a: seq<Event<O, R>>, b: seq<Event<O, R>>, p: nat)
    ensures Calls(a + b, p) == Calls(a, p) + Calls(b, p)
  {
    if a == [] {
      assert a + b == b;
    } else {
      assert (a + b)[0] == a[0] && (a + b)[1..] == a[1..] + b;
      CallsBoth(a[1..], b, p);
      Grouped(if a[0].who == p then [a[0].op] else [], Calls(a[1..], p), Calls(b, p));
    }
  }

  lemma Grouped<T>(a: seq<T>, b: seq<T>, c: seq<T>)
    ensures (a + b) + c == a + (b + c)
  {
  }

  lemma Carried<T>(x0: seq<T>, a1: seq<T>, b1: seq<T>, x1: seq<T>, a2: seq<T>, b2: seq<T>, x2: seq<T>)
    requires x0 + a1 == b1 + x1 && x1 + a2 == b2 + x2
    ensures x0 + (a1 + a2) == (b1 + b2) + x2
  {
    Grouped(x0, a1, a2);
    Grouped(b1, x1, a2);
    Grouped(b1, b2, x2);
  }

  /** What a process is in the middle of: a call that has not taken effect, or one whose result it has yet to return. */
  datatype Midway<O, R> = Midway(open: seq<O>, due: seq<Event<O, R>>)

  /**
   * Each call that process p makes takes effect once, or is still open at the end; each that
   * takes effect is returned from once, with the result it had, or still due.  In order.
   */
  ghost predicate Accounted<O, R>(p: nat, before: Midway<O, R>, calls: seq<O>, effects: seq<Event<O, R>>,
                                  returned: seq<Event<O, R>>, after: Midway<O, R>) {
    && before.open + calls == Calls(effects, p) + after.open
    && before.due + By(effects, p) == By(returned, p) + after.due
  }

  /** From idle on: what is returned has taken effect, and what takes effect has been called, in order. */
  lemma FromIdle<O, R>(p: nat, calls: seq<O>, effects: seq<Event<O, R>>, returned: seq<Event<O, R>>,
                       after: Midway<O, R>)
    requires Accounted(p, Midway([], []), calls, effects, returned, after)
    ensures By(returned, p) <= By(effects, p) && Calls(effects, p) <= calls
  {
    hide By, Calls;
    assert [] + calls == calls && [] + By(effects, p) == By(effects, p);
  }

  /** One account after another. */
  lemma AccountedOn<O, R>(p: nat, m0: Midway<O, R>, c1: seq<O>, e1: seq<Event<O, R>>, r1: seq<Event<O, R>>,
                          m1: Midway<O, R>, c2: seq<O>, e2: seq<Event<O, R>>, r2: seq<Event<O, R>>, m2: Midway<O, R>)
    requires Accounted(p, m0, c1, e1, r1, m1) && Accounted(p, m1, c2, e2, r2, m2)
    ensures Accounted(p, m0, c1 + c2, e1 + e2, r1 + r2, m2)
  {
    hide By, Calls;
    ByBoth(e1, e2, p);
    ByBoth(r1, r2, p);
    CallsBoth(e1, e2, p);
    Carried(m0.open, c1, Calls(e1, p), m1.open, c2, Calls(e2, p), m2.open);
    Carried(m0.due, By(e1, p), By(r1, p), m1.due, By(e2, p), By(r2, p), m2.due);
  }

  /** Of at most one event each: the account of one step, read off it. */
  lemma OneStep<O, R>(p: nat, m0: Midway<O, R>, calls: seq<O>, effects: seq<Event<O, R>>, returned: seq<Event<O, R>>,
                      m1: Midway<O, R>)
    requires |effects| <= 1 && |returned| <= 1
    requires m0.open + calls == (if effects != [] && effects[0].who == p then [effects[0].op] else []) + m1.open
    requires m0.due + (if effects != [] && effects[0].who == p then effects else [])
             == (if returned != [] && returned[0].who == p then returned else []) + m1.due
    ensures Accounted(p, m0, calls, effects, returned, m1)
  {
    if effects != [] { assert effects[1..] == []; }
    if returned != [] { assert returned[1..] == []; }
    assert By(effects, p) == (if effects != [] && effects[0].who == p then effects else []);
    assert By(returned, p) == (if returned != [] && returned[0].who == p then returned else []);
  }
}
