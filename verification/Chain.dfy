/**
 * Singly linked lists through numbered pointer cells.  ptr[l] is what the cell at
 * location l holds; a location is a list head (a hash bucket, the free list) or a
 * list element.  The value 0 ends a list.
 */
module Chain {

  /** p[0] is a head; the cells of p point from one to the next and the last holds 0. */
  ghost predicate Path(ptr: map<nat, nat>, p: seq<nat>) {
    && |p| > 0
    && (forall i :: 0 <= i < |p| ==> p[i] in ptr)
    && (forall i :: 0 <= i < |p| ==> Linked(ptr, p, i))
    && (forall i :: 0 < i < |p| ==> p[i] != 0)
  }

  /** Cell i of p points to the next one. */
  ghost predicate Linked(ptr: map<nat, nat>, p: seq<nat>, i: nat)
    requires i < |p|
  {
    p[i] in ptr && ptr[p[i]] == Next(p, i)
  }

  function Next(p: seq<nat>, i: nat): nat
    requires i < |p|
  {
    if i + 1 < |p| then p[i + 1] else 0
  }

  ghost predicate NoDup(p: seq<nat>) {
    forall i, j :: 0 <= i < j < |p| ==> p[i] != p[j]
  }

  function Without(p: seq<nat>, i: nat): seq<nat>
    requires i < |p|
  {
    p[..i] + p[i + 1..]
  }

  function PushFront(p: seq<nat>, o: nat): seq<nat>
    requires |p| > 0
  {
    [p[0], o] + p[1..]
  }

  /** A path that ends cannot visit a cell twice: every list is acyclic. */
  lemma PathVisitsOnce(ptr: map<nat, nat>, p: seq<nat>)
    requires Path(ptr, p)
    ensures NoDup(p)
  {
    forall i, j | 0 <= i < j < |p| ensures p[i] != p[j] { VisitsOnce(ptr, p, i, j); }
  }

  lemma {:induction false} VisitsOnce(ptr: map<nat, nat>, p: seq<nat>, i: nat, j: nat)
    requires Path(ptr, p) && i < j < |p|
    ensures p[i] != p[j]
    decreases |p| - j
  {
    if p[i] == p[j] {
      assert Linked(ptr, p, i) && Linked(ptr, p, j);
      if j + 1 < |p| { VisitsOnce(ptr, p, i + 1, j + 1); }
    }
  }

  lemma PathPlace(ptr: map<nat, nat>, p: seq<nat>, i: nat, j: nat)
    requires Path(ptr, p) && i < |p| && j < |p| && p[i] == p[j]
    ensures i == j
  {
    if i < j { VisitsOnce(ptr, p, i, j); } else if j < i { VisitsOnce(ptr, p, j, i); }
  }

  lemma PathTail(ptr: map<nat, nat>, p: seq<nat>)
    requires Path(ptr, p) && |p| > 1
    ensures Path(ptr, p[1..])
  {
    forall i | 0 <= i < |p| - 1 ensures Linked(ptr, p[1..], i) { assert Linked(ptr, p, i + 1); }
  }

  /** What follows a given cell is determined by the pointers alone. */
  lemma {:induction false} PathUnique(ptr: map<nat, nat>, p: seq<nat>, q: seq<nat>)
    requires Path(ptr, p) && Path(ptr, q) && p[0] == q[0]
    ensures p == q
    decreases |p|
  {
    assert Linked(ptr, p, 0) && Linked(ptr, q, 0);
    if |p| > 1 {
      PathTail(ptr, p);
      PathTail(ptr, q);
      PathUnique(ptr, p[1..], q[1..]);
      assert p == [p[0]] + p[1..] && q == [q[0]] + q[1..];
    } else {
      assert |q| == 1;
    }
  }

  /** Writing a cell that is not on a path leaves the path as it was. */
  lemma PathFrame(ptr: map<nat, nat>, p: seq<nat>, l: nat, v: nat)
    requires Path(ptr, p) && l !in p
    ensures Path(ptr[l := v], p)
  {
    var m := ptr[l := v];
    forall i | 0 <= i < |p| ensures Linked(m, p, i) { assert Linked(ptr, p, i); }
  }

  /** Copying an element's cell into the one before it takes the element off the list. */
  lemma PathRemove(ptr: map<nat, nat>, p: seq<nat>, i: nat)
    requires Path(ptr, p) && 0 < i < |p|
    ensures Path(ptr[p[i - 1] := ptr[p[i]]], Without(p, i))
    ensures forall o :: o in Without(p, i) <==> o in p && o != p[i]
  {
    PathVisitsOnce(ptr, p);
    var q := Without(p, i);
    forall k | 0 <= k < |q| ensures q[k] in ptr && Linked(ptr[p[i - 1] := ptr[p[i]]], q, k) {
      assert Linked(ptr, p, i);
      if k < i { assert Linked(ptr, p, k); } else { assert Linked(ptr, p, k + 1); }
    }
    forall o | o in p && o != p[i] ensures o in q {
      var k :| 0 <= k < |p| && p[k] == o;
      assert q[if k < i then k else k - 1] == o;
    }
  }

  /** Pointing the new element at the first one and the head at the new element links it in. */
  lemma PathPush(ptr: map<nat, nat>, p: seq<nat>, o: nat)
    requires Path(ptr, p) && o !in p && o != 0
    ensures Path(ptr[o := ptr[p[0]]][p[0] := o], PushFront(p, o))
    ensures forall x :: x in PushFront(p, o) <==> x in p || x == o
  {
    PathVisitsOnce(ptr, p);
    var q := PushFront(p, o);
    var m := ptr[o := ptr[p[0]]][p[0] := o];
    assert Linked(ptr, p, 0);
    forall k | 0 <= k < |q| ensures q[k] in m && Linked(m, q, k) {
      if k > 1 { assert Linked(ptr, p, k - 1); }
    }
    forall x | x in p ensures x in q {
      var k :| 0 <= k < |p| && p[k] == x;
      assert q[if k == 0 then 0 else k + 1] == x;
    }
  }

  /** The pointers after element i of p has become the first element of q. */
  function Moved(ptr: map<nat, nat>, p: seq<nat>, i: nat, q: seq<nat>): map<nat, nat>
    requires 0 < i < |p| && |q| > 0 && p[i] in ptr && q[0] in ptr
  {
    ptr[p[i] := ptr[q[0]]][q[0] := p[i]][p[i - 1] := ptr[p[i]]]
  }

  /** Moving an element between two lists takes it off one and puts it first on the other. */
  lemma PathMove(ptr: map<nat, nat>, p: seq<nat>, i: nat, q: seq<nat>)
    requires Path(ptr, p) && Path(ptr, q) && 0 < i < |p|
    requires p[i] !in q && p[i - 1] !in q && q[0] !in p
    ensures Path(Moved(ptr, p, i, q), Without(p, i))
    ensures Path(Moved(ptr, p, i, q), PushFront(q, p[i]))
    ensures forall x :: (x in Without(p, i) <==> x in p && x != p[i])
                        && (x in PushFront(q, p[i]) <==> x in q || x == p[i])
  {
    var o, prev := p[i], p[i - 1];
    PathVisitsOnce(ptr, p);
    var m1 := ptr[prev := ptr[o]];
    PathRemove(ptr, p, i);
    PathFrame(ptr, q, prev, ptr[o]);
    PathPush(m1, q, o);
    var m2 := m1[o := m1[q[0]]];
    assert o != prev && q[0] in q && q[0] != prev;
    assert Moved(ptr, p, i, q) == m2[q[0] := o];
    PathFrame(m1, Without(p, i), o, m1[q[0]]);
    PathFrame(m2, Without(p, i), q[0], o);
  }

  lemma PathMoveFrame(ptr: map<nat, nat>, p: seq<nat>, i: nat, q: seq<nat>, r: seq<nat>)
    requires Path(ptr, r) && 0 < i < |p| && |q| > 0 && p[i] in ptr && q[0] in ptr
    requires p[i] !in r && p[i - 1] !in r && q[0] !in r
    ensures Path(Moved(ptr, p, i, q), r)
  {
    PathFrame(ptr, r, p[i], ptr[q[0]]);
    PathFrame(ptr[p[i] := ptr[q[0]]], r, q[0], p[i]);
    PathFrame(ptr[p[i] := ptr[q[0]]][q[0] := p[i]], r, p[i - 1], ptr[p[i]]);
  }
}
