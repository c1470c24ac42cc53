/** The merge of the slices that the threads have sorted. */
module Merge {
  import opened Options

  const LONG_MAX := 0x7fff_ffff_ffff_ffff

  /** Where slice i begins, when each has t numbers. */
  function Lo(i: nat, t: nat): nat { i * t }

  lemma LoNext(i: nat, t: nat)
    ensures Lo(0, t) == 0 && Lo(i + 1, t) == Lo(i, t) + t
  {
  }

  lemma {:induction false} LoWithin(i: nat, n: nat, t: nat)
    requires i < n
    ensures Lo(i, t) + t <= Lo(n, t)
    decreases n - i
  {
    LoNext(i, t);
    if i + 1 < n { LoWithin(i + 1, n, t); }
  }

  predicate Sorted(s: seq<int>) { forall i, j :: 0 <= i < j < |s| ==> s[i] <= s[j] }

  ghost predicate SliceSorted(nums: seq<int>, i: nat, t: nat) {
    Lo(i, t) + t <= |nums| && Sorted(nums[Lo(i, t)..Lo(i, t) + t])
  }

  ghost predicate SlicesSorted(nums: seq<int>, n: nat, t: nat) { forall i :: 0 <= i < n ==> SliceSorted(nums, i, t) }

  /** No number equals the sentinel. */
  predicate Below(nums: seq<int>) { forall i :: 0 <= i < |nums| ==> nums[i] < LONG_MAX }

  // ----- the rounds of the merge -----

  /** Slice i still has a number. */
  predicate Has(idx: seq<nat>, t: nat, i: nat)
    requires i < |idx|
  {
    idx[i] < Lo(i, t) + t
  }

  /** Slice i has a next number that the sentinel does not hide. */
  predicate Shows(nums: seq<int>, idx: seq<nat>, t: nat, i: nat) {
    i < |idx| && Has(idx, t, i) && idx[i] < |nums| && nums[idx[i]] < LONG_MAX
  }

  /** The inner loop over the first k slices: the first of those with the least next number shown. */
  function Least(nums: seq<int>, idx: seq<nat>, t: nat, k: nat): (m: Option<nat>)
    requires k <= |idx|
    ensures m.Some? ==> m.value < k && Shows(nums, idx, t, m.value)
  {
    if k == 0 then None
    else
      var m := Least(nums, idx, t, k - 1);
      if Shows(nums, idx, t, k - 1) && (m.None? || nums[idx[k - 1]] < nums[idx[m.value]]) then Some(k - 1) else m
  }

  /** minidx after the inner loop; it keeps its old value when no slice shows a number, and has none at first. */
  function Pick(nums: seq<int>, idx: seq<nat>, t: nat, last: Option<nat>): Option<nat> {
    var m := Least(nums, idx, t, |idx|);
    if m.Some? then m else last
  }

  /** What n more rounds write; None when one of them uses minidx unset or reads beyond the numbers. */
  function Rest(nums: seq<int>, idx: seq<nat>, t: nat, last: Option<nat>, n: nat): Option<seq<int>>
    decreases n
  {
    if n == 0 then Some([])
    else
      var m := Pick(nums, idx, t, last);
      if m.None? || m.value >= |idx| || idx[m.value] >= |nums| then None
      else Prepend([nums[idx[m.value]]], Rest(nums, idx[m.value := idx[m.value] + 1], t, m, n - 1))
  }

  function Prepend(s: seq<int>, r: Option<seq<int>>): Option<seq<int>> {
    if r.None? then None else Some(s + r.value)
  }

  function Starts(nthr: nat, t: nat): seq<nat> { seq(nthr, i requires 0 <= i < nthr => Lo(i, t)) }

  /** The whole of snums, or None where the merge goes wrong on the way. */
  function Merged(nums: seq<int>, nthr: nat, t: nat): Option<seq<int>> {
    Rest(nums, Starts(nthr, t), t, None, |nums|)
  }

  lemma {:induction false} LeastIs(nums: seq<int>, idx: seq<nat>, t: nat, k: nat, i: nat)
    requires i < k <= |idx| && Shows(nums, idx, t, i)
    ensures var m := Least(nums, idx, t, k);
            m.Some? && (nums[idx[m.value]] < nums[idx[i]] || (nums[idx[m.value]] == nums[idx[i]] && m.value <= i))
  {
    if i < k - 1 { LeastIs(nums, idx, t, k - 1, i); }
  }

  /** The inner loop in place. */
  method PickHead(nums: array<int>, idx: array<nat>, t: nat, last: Option<nat>) returns (minidx: Option<nat>)
    requires Lo(idx.Length, t) <= nums.Length
    ensures minidx == Pick(nums[..], idx[..], t, last)
  {
    var num := LONG_MAX;
    minidx := last;
    var i := 0;
    ghost var ns, use := nums[..], idx[..];
    while i < idx.Length
      invariant i <= idx.Length
      invariant var m := Least(ns, use, t, i);
                minidx == (if m.Some? then m else last) && num == (if m.Some? then ns[use[m.value]] else LONG_MAX)
    {
      LoWithin(i, idx.Length, t);
      assert use[i] == idx[i] && (idx[i] < nums.Length ==> ns[use[i]] == nums[idx[i]]);
      if idx[i] < Lo(i, t) + t && nums[idx[i]] < num {
        num := nums[idx[i]];
        minidx := Some(i);
      }
      i := i + 1;
    }
  }

  /** One round; ok is false when minidx is unset or the slice it names has run out of numbers altogether. */
  method Round(nums: array<int>, snums: array<int>, idx: array<nat>, t: nat, sidx: nat, last: Option<nat>)
    returns (minidx: Option<nat>, ok: bool)
    requires Lo(idx.Length, t) == nums.Length && sidx < snums.Length && nums != snums
    requires last.Some? ==> last.value < idx.Length
    modifies snums, idx
    ensures minidx == Pick(nums[..], old(idx[..]), t, last) && (minidx.Some? ==> minidx.value < idx.Length)
    ensures ok == (minidx.Some? && old(idx[..])[minidx.value] < nums.Length)
    ensures ok ==>
              (var k := old(idx[..])[minidx.value];
               snums[..sidx + 1] == old(snums[..sidx]) + [nums[..][k]]
               && idx[..] == old(idx[..])[minidx.value := k + 1])
  {
    minidx := PickHead(nums, idx, t, last);
    PickIs(nums[..], idx[..], t, last);
    hide Pick, Lo;
    ok := minidx.Some? && idx[minidx.value] < nums.Length;
    if ok {
      snums[sidx] := nums[idx[minidx.value]];
      idx[minidx.value] := idx[minidx.value] + 1;
    }
  }

  /** merge, for any number of slices of any length; ok is false where the original's behaviour is undefined. */
  method MergeSlices(nums: array<int>, snums: array<int>, nthr: nat, t: nat) returns (ok: bool)
    requires nums.Length == snums.Length == Lo(nthr, t) && nums != snums
    modifies snums
    ensures ok == Merged(nums[..], nthr, t).Some?
    ensures ok ==> snums[..] == Merged(nums[..], nthr, t).value
    ensures SlicesSorted(nums[..], nthr, t) && Below(nums[..]) ==> ok && Right(nums[..], Some(snums[..]))
    ensures SlicesSorted(nums[..], nthr, t)
            && (forall j :: 0 <= j < nums.Length ==> nums[j] < 0x7fff_ffff_ffff_ffff) ==>
              ok && multiset(snums[..]) == multiset(nums[..])
              && forall j, k :: 0 <= j < k < snums.Length ==> snums[j] <= snums[k]
  {
    hide Lo, Rest, Pick, SlicesSorted, Merged, Right, Below;
    ghost var all := nums[..];
    BelowIsRight(all, nthr, t);
    BelowIs(all);
    var idx := new nat[nthr](i => Lo(i, t));
    assert idx[..] == Starts(nthr, t);
    var sidx, minidx: Option<nat> := 0, None;
    ghost var out := [];
    MergedIs(all, nthr, t);
    PrependNothing(Rest(all, idx[..], t, minidx, |all|));
    hide Prepend;
    while sidx < nums.Length
      invariant sidx <= nums.Length && nums[..] == all && (minidx.Some? ==> minidx.value < nthr)
      invariant snums[..sidx] == out
      invariant Merged(all, nthr, t) == Prepend(out, Rest(all, idx[..], t, minidx, |all| - sidx))
      modifies snums, idx
    {
      RestNext(all, idx[..], t, minidx, |all| - sidx, out);
      minidx, ok := Round(nums, snums, idx, t, sidx, minidx);
      if !ok {
        return;
      }
      out := snums[..sidx + 1];
      sidx := sidx + 1;
    }
    ok := true;
    RestEnds(all, idx[..], t, minidx, out);
    assert snums[..sidx] == snums[..];
    RightIs(all, snums[..]);
  }

  lemma BelowIs(nums: seq<int>)
    ensures (forall j :: 0 <= j < |nums| ==> nums[j] < 0x7fff_ffff_ffff_ffff) ==> Below(nums)
  {
  }

  lemma RightIs(nums: seq<int>, out: seq<int>)
    ensures Right(nums, Some(out)) ==>
              multiset(out) == multiset(nums) && forall j, k :: 0 <= j < k < |out| ==> out[j] <= out[k]
  {
  }

  lemma MergedIs(nums: seq<int>, nthr: nat, t: nat)
    ensures Merged(nums, nthr, t) == Rest(nums, Starts(nthr, t), t, None, |nums|)
  {
  }

  lemma BelowIsRight(nums: seq<int>, nthr: nat, t: nat)
    requires |nums| == Lo(nthr, t)
    ensures SlicesSorted(nums, nthr, t) && Below(nums) ==>
              (Merged(nums, nthr, t).Some? && Right(nums, Some(Merged(nums, nthr, t).value)))
  {
    hide Lo, SlicesSorted, Merged;
    if SlicesSorted(nums, nthr, t) && Below(nums) { RightExactly(nums, nthr, t); }
  }

  lemma PrependNothing(r: Option<seq<int>>)
    ensures Prepend([], r) == r
  {
    if r.Some? { assert [] + r.value == r.value; }
  }

  lemma PickIs(nums: seq<int>, idx: seq<nat>, t: nat, last: Option<nat>)
    ensures var m := Pick(nums, idx, t, last); m == last || (m.Some? && m.value < |idx|)
  {
  }

  lemma RestNext(nums: seq<int>, idx: seq<nat>, t: nat, last: Option<nat>, n: nat, out: seq<int>)
    requires n > 0
    ensures var m := Pick(nums, idx, t, last);
            Prepend(out, Rest(nums, idx, t, last, n))
            == if m.None? || m.value >= |idx| || idx[m.value] >= |nums| then None
               else Prepend(out + [nums[idx[m.value]]], Rest(nums, idx[m.value := idx[m.value] + 1], t, m, n - 1))
  {
    hide Pick, Least;
    var m := Pick(nums, idx, t, last);
    if !(m.None? || m.value >= |idx| || idx[m.value] >= |nums|) {
      var x, r := [nums[idx[m.value]]], Rest(nums, idx[m.value := idx[m.value] + 1], t, m, n - 1);
      if r.Some? { assert out + (x + r.value) == (out + x) + r.value; }
    }
  }

  lemma RestEnds(nums: seq<int>, idx: seq<nat>, t: nat, last: Option<nat>, out: seq<int>)
    ensures Prepend(out, Rest(nums, idx, t, last, 0)) == Some(out)
  {
    assert out + [] == out;
  }

  // ----- what is left in the slices -----

  /** idx[i] is where slice i has been used up to. */
  predicate InSlices(idx: seq<nat>, t: nat) { forall i :: 0 <= i < |idx| ==> Lo(i, t) <= idx[i] <= Lo(i, t) + t }

  /** The numbers still to come, of the first k slices. */
  ghost function LeftOver(nums: seq<int>, idx: seq<nat>, t: nat, k: nat): multiset<int>
    requires k <= |idx| && InSlices(idx, t) && Lo(|idx|, t) <= |nums|
  {
    if k == 0 then multiset{}
    else
      LoWithin(k - 1, |idx|, t);
      LeftOver(nums, idx, t, k - 1) + multiset(nums[idx[k - 1]..Lo(k - 1, t) + t])
  }

  lemma LeftNext(nums: seq<int>, idx: seq<nat>, t: nat, k: nat)
    requires k <= |idx| && InSlices(idx, t) && Lo(|idx|, t) <= |nums|
    ensures k == 0 ==> LeftOver(nums, idx, t, k) == multiset{}
    ensures k > 0 ==>
              (idx[k - 1] <= Lo(k - 1, t) + t <= |nums|
               && LeftOver(nums, idx, t, k)
                  == LeftOver(nums, idx, t, k - 1) + multiset(nums[idx[k - 1]..Lo(k - 1, t) + t]))
  {
    hide Lo;
    if k > 0 { LoWithin(k - 1, |idx|, t); }
  }

  lemma {:induction false} LeftAtStart(nums: seq<int>, nthr: nat, t: nat, k: nat)
    requires k <= nthr && Lo(nthr, t) <= |nums|
    ensures InSlices(Starts(nthr, t), t) && Lo(k, t) <= |nums|
    ensures LeftOver(nums, Starts(nthr, t), t, k) == multiset(nums[..Lo(k, t)])
  {
    hide Lo, LeftOver;
    LeftNext(nums, Starts(nthr, t), t, k);
    LoNext(0, t);
    if k < nthr { LoWithin(k, nthr, t); }
    if k > 0 {
      LoNext(k - 1, t);
      LeftAtStart(nums, nthr, t, k - 1);
      SplitAt(nums, Lo(k - 1, t), Lo(k, t));
    }
  }

  lemma SplitAt(nums: seq<int>, i: nat, j: nat)
    requires i <= j <= |nums|
    ensures multiset(nums[..j]) == multiset(nums[..i]) + multiset(nums[i..j])
  {
    assert nums[..j] == nums[..i] + nums[i..j];
  }

  /** Using the next number of slice m. */
  lemma {:induction false} LeftStep(nums: seq<int>, idx: seq<nat>, t: nat, k: nat, m: nat)
    requires k <= |idx| && InSlices(idx, t) && Lo(|idx|, t) <= |nums| && m < |idx| && Has(idx, t, m)
    ensures InSlices(idx[m := idx[m] + 1], t) && idx[m] < |nums|
    ensures LeftOver(nums, idx, t, k)
            == LeftOver(nums, idx[m := idx[m] + 1], t, k) + if m < k then multiset{nums[idx[m]]} else multiset{}
  {
    hide Lo, LeftOver;
    LoWithin(m, |idx|, t);
    var idx' := idx[m := idx[m] + 1];
    assert InSlices(idx', t);
    hide InSlices;
    LeftNext(nums, idx, t, k);
    LeftNext(nums, idx', t, k);
    if k > 0 {
      LeftStep(nums, idx, t, k - 1, m);
      var rest := multiset(nums[idx'[k - 1]..Lo(k - 1, t) + t]);
      if m == k - 1 { SliceFirst(nums, idx[m], Lo(m, t) + t); }
      Regroup(LeftOver(nums, idx', t, k - 1), rest, nums[idx[m]]);
    }
  }

  lemma Regroup(a: multiset<int>, b: multiset<int>, v: int)
    ensures a + multiset{v} + b == a + b + multiset{v} == a + (b + multiset{v})
  {
  }

  lemma SliceFirst(nums: seq<int>, lo: nat, hi: nat)
    requires lo < hi <= |nums|
    ensures multiset(nums[lo..hi]) == multiset(nums[lo + 1..hi]) + multiset{nums[lo]}
  {
    assert nums[lo..hi] == [nums[lo]] + nums[lo + 1..hi];
  }

  /** A number still to come is somewhere in a slice. */
  lemma {:induction false} LeftHas(nums: seq<int>, idx: seq<nat>, t: nat, k: nat, x: int) returns (i: nat, j: nat)
    requires k <= |idx| && InSlices(idx, t) && Lo(|idx|, t) <= |nums| && x in LeftOver(nums, idx, t, k)
    ensures i < k && idx[i] <= j < Lo(i, t) + t && j < |nums| && nums[j] == x
  {
    hide Lo;
    LeftNext(nums, idx, t, k);
    var s := nums[idx[k - 1]..Lo(k - 1, t) + t];
    if x in s {
      var h :| 0 <= h < |s| && s[h] == x;
      i, j := k - 1, idx[k - 1] + h;
    } else {
      i, j := LeftHas(nums, idx, t, k - 1, x);
    }
  }

  // ----- when every round finds a slice -----

  /** Each of the next n rounds finds a slice that shows a number. */
  predicate AlwaysFinds(nums: seq<int>, idx: seq<nat>, t: nat, n: nat)
    decreases n
  {
    n == 0
    || (var m := Least(nums, idx, t, |idx|);
        m.Some? && AlwaysFinds(nums, idx[m.value := idx[m.value] + 1], t, n - 1))
  }

  lemma {:induction false} FindsWhileLeft(nums: seq<int>, idx: seq<nat>, t: nat, n: nat)
    requires InSlices(idx, t) && Lo(|idx|, t) <= |nums| && |LeftOver(nums, idx, t, |idx|)| == n
    ensures AlwaysFinds(nums, idx, t, n) <==> forall x :: x in LeftOver(nums, idx, t, |idx|) ==> x < LONG_MAX
    decreases n
  {
    hide Lo, LeftOver, InSlices;
    var m, left := Least(nums, idx, t, |idx|), LeftOver(nums, idx, t, |idx|);
    if n == 0 {
      assert left == multiset{};
    } else if m.Some? {
      LeftStep(nums, idx, t, |idx|, m.value);
      var idx' := idx[m.value := idx[m.value] + 1];
      var left' := LeftOver(nums, idx', t, |idx'|);
      assert forall x :: x in left <==> x in left' || x == nums[idx[m.value]];
      FindsWhileLeft(nums, idx', t, n - 1);
    } else {
      var x := AnyOf(left);
      HiddenLeft(nums, idx, t, x);
    }
  }

  lemma AnyOf(s: multiset<int>) returns (x: int)
    requires |s| > 0
    ensures x in s
  {
    assert (forall y :: y !in s) ==> s == multiset{};
    x :| x in s;
  }

  /** When no slice shows a number, one that is still to come is the sentinel's or there is a larger one before it. */
  lemma HiddenLeft(nums: seq<int>, idx: seq<nat>, t: nat, x: int)
    requires InSlices(idx, t) && Lo(|idx|, t) <= |nums| && x in LeftOver(nums, idx, t, |idx|)
    requires Least(nums, idx, t, |idx|).None?
    ensures exists y :: y in LeftOver(nums, idx, t, |idx|) && y >= LONG_MAX
  {
    hide Lo, LeftOver, Least;
    var i, j := LeftHas(nums, idx, t, |idx|, x);
    LoWithin(i, |idx|, t);
    if Shows(nums, idx, t, i) { LeastIs(nums, idx, t, |idx|, i); }
    LeftStep(nums, idx, t, |idx|, i);
    assert nums[idx[i]] in LeftOver(nums, idx, t, |idx|);
  }

  /** Every round of the merge finds a slice if and only if every number is below LONG_MAX. */
  lemma EveryRoundFinds(nums: seq<int>, nthr: nat, t: nat)
    requires |nums| == Lo(nthr, t)
    ensures AlwaysFinds(nums, Starts(nthr, t), t, |nums|) <==> Below(nums)
  {
    hide AlwaysFinds, LeftOver;
    LeftAtStart(nums, nthr, t, nthr);
    assert nums[..|nums|] == nums;
    FindsWhileLeft(nums, Starts(nthr, t), t, |nums|);
    assert forall i :: 0 <= i < |nums| ==> nums[i] in multiset(nums);
  }

  // ----- when the result is right -----

  /** What has been merged so far is sorted and below everything still to come, and nothing is lost. */
  ghost predicate Progress(nums: seq<int>, idx: seq<nat>, t: nat, out: seq<int>) {
    && InSlices(idx, t) && Lo(|idx|, t) == |nums|
    && multiset(out) + LeftOver(nums, idx, t, |idx|) == multiset(nums)
    && Sorted(out) && (out != [] ==> Above(nums, idx, t, out[|out| - 1]))
  }

  /** Every number still to come is at least v. */
  ghost predicate Above(nums: seq<int>, idx: seq<nat>, t: nat, v: int) {
    forall i, j :: 0 <= i < |idx| && idx[i] <= j < Lo(i, t) + t && j < |nums| ==> v <= nums[j]
  }

  /** The least of the slices' next numbers is below everything still to come. */
  lemma HeadIsLeast(nums: seq<int>, idx: seq<nat>, t: nat, v: int)
    requires InSlices(idx, t) && Lo(|idx|, t) <= |nums| && SlicesSorted(nums, |idx|, t)
    requires forall i :: 0 <= i < |idx| && Has(idx, t, i) && idx[i] < |nums| ==> v <= nums[idx[i]]
    ensures Above(nums, idx, t, v)
  {
    hide Lo;
    forall i, j | 0 <= i < |idx| && idx[i] <= j < Lo(i, t) + t && j < |nums| ensures v <= nums[j] {
      assert SliceSorted(nums, i, t);
      SliceOrder(nums, i, t, idx[i], j);
    }
  }

  lemma SliceOrder(nums: seq<int>, i: nat, t: nat, a: nat, b: nat)
    requires SliceSorted(nums, i, t) && Lo(i, t) <= a <= b < Lo(i, t) + t
    ensures nums[a] <= nums[b]
  {
    hide Lo;
    var s, lo := nums[Lo(i, t)..Lo(i, t) + t], Lo(i, t);
    assert s[a - lo] == nums[a] && s[b - lo] == nums[b];
  }

  /** What slice i has had used is at most v, and less than v behind slice m. */
  predicate Touched(nums: seq<int>, idx: seq<nat>, t: nat, m: nat, v: int, i: nat)
    requires i < |idx|
  {
    Lo(i, t) < idx[i] <= |nums| ==> nums[idx[i] - 1] <= v && (i > m ==> nums[idx[i] - 1] < v)
  }

  /** v was used last, from slice m; among equal numbers the first slice's come first. */
  ghost predicate LastFrom(nums: seq<int>, idx: seq<nat>, t: nat, m: nat, v: int) {
    && m < |idx| && Lo(m, t) < idx[m] <= |nums| && nums[idx[m] - 1] == v
    && (forall i :: 0 <= i < |idx| ==> Touched(nums, idx, t, m, v, i))
    && (forall i :: 0 <= i < m && Shows(nums, idx, t, i) ==> nums[idx[i]] > v)
  }

  /** The state between two rounds as long as slices show numbers. */
  ghost predicate Phase(nums: seq<int>, idx: seq<nat>, t: nat, last: Option<nat>, out: seq<int>) {
    && Progress(nums, idx, t, out)
    && (forall i :: 0 <= i < |out| ==> out[i] < LONG_MAX)
    && (if out == [] then last.None? && idx == Starts(|idx|, t)
        else last.Some? && LastFrom(nums, idx, t, last.value, out[|out| - 1]))
  }

  lemma ProgressStep(nums: seq<int>, idx: seq<nat>, t: nat, out: seq<int>, m: nat)
    requires Progress(nums, idx, t, out) && SlicesSorted(nums, |idx|, t) && Least(nums, idx, t, |idx|) == Some(m)
    ensures Progress(nums, idx[m := idx[m] + 1], t, out + [nums[idx[m]]])
    ensures out != [] ==> out[|out| - 1] <= nums[idx[m]]
  {
    hide Lo, LeftOver, SliceSorted, Sorted;
    var v, idx' := nums[idx[m]], idx[m := idx[m] + 1];
    LeastIsBelow(nums, idx, t, m);
    HeadIsLeast(nums, idx, t, v);
    LeftStep(nums, idx, t, |idx|, m);
    SortedSnoc(out, v);
    StillAbove(nums, idx, t, m, v);
    hide Above, InSlices;
    Regroup(multiset(out), LeftOver(nums, idx', t, |idx'|), v);
  }

  lemma LeastIsBelow(nums: seq<int>, idx: seq<nat>, t: nat, m: nat)
    requires Least(nums, idx, t, |idx|) == Some(m)
    ensures forall i :: 0 <= i < |idx| && Has(idx, t, i) && idx[i] < |nums| ==> nums[idx[m]] <= nums[idx[i]]
    ensures forall i :: 0 <= i < m && Shows(nums, idx, t, i) ==> nums[idx[m]] < nums[idx[i]]
  {
    hide Least, Lo;
    forall i | 0 <= i < |idx| && Shows(nums, idx, t, i)
      ensures nums[idx[m]] < nums[idx[i]] || (nums[idx[m]] == nums[idx[i]] && m <= i)
    {
      LeastIs(nums, idx, t, |idx|, i);
    }
  }

  lemma SortedSnoc(s: seq<int>, v: int)
    requires Sorted(s) && (s != [] ==> s[|s| - 1] <= v)
    ensures Sorted(s + [v])
  {
  }

  lemma StillAbove(nums: seq<int>, idx: seq<nat>, t: nat, m: nat, v: int)
    requires m < |idx| && Above(nums, idx, t, v)
    ensures Above(nums, idx[m := idx[m] + 1], t, v)
  {
  }

  /** A round that finds a slice. */
  lemma PhaseStep(nums: seq<int>, idx: seq<nat>, t: nat, last: Option<nat>, out: seq<int>, m: nat)
    requires Phase(nums, idx, t, last, out) && SlicesSorted(nums, |idx|, t) && Least(nums, idx, t, |idx|) == Some(m)
    ensures Phase(nums, idx[m := idx[m] + 1], t, Some(m), out + [nums[idx[m]]])
  {
    hide LeftOver, SliceSorted, Sorted, Above, Lo;
    ProgressStep(nums, idx, t, out, m);
    LeastIsBelow(nums, idx, t, m);
    var v, idx' := nums[idx[m]], idx[m := idx[m] + 1];
    assert Lo(m, t) <= idx[m] && Shows(nums, idx, t, m);
    hide Progress, Least;
    forall i | 0 <= i < |idx'| ensures Touched(nums, idx', t, m, v, i) {
      if i != m && out != [] { assert Touched(nums, idx, t, last.value, out[|out| - 1], i); }
    }
    assert forall i :: 0 <= i < m && Shows(nums, idx', t, i) ==> Shows(nums, idx, t, i);
  }

  /** The rounds that find a slice, up to the first that does not. */
  lemma {:induction false} PhaseRuns(nums: seq<int>, idx: seq<nat>, t: nat, last: Option<nat>, out: seq<int>, n: nat)
      returns (idx': seq<nat>, last': Option<nat>, out': seq<int>, n': nat)
    requires Phase(nums, idx, t, last, out) && SlicesSorted(nums, |idx|, t) && |out| + n == |nums|
    ensures |idx'| == |idx| && Phase(nums, idx', t, last', out') && |out'| + n' == |nums|
    ensures n' == 0 || Least(nums, idx', t, |idx'|).None?
    ensures Prepend(out, Rest(nums, idx, t, last, n)) == Prepend(out', Rest(nums, idx', t, last', n'))
    decreases n
  {
    hide Phase, SlicesSorted, Least, Rest, Prepend, Shows;
    var m := Least(nums, idx, t, |idx|);
    if n == 0 || m.None? {
      idx', last', out', n' := idx, last, out, n;
    } else {
      PhaseStep(nums, idx, t, last, out, m.value);
      RestNext(nums, idx, t, last, n, out);
      ShownIsThere(nums, idx, t, m.value);
      idx', last', out', n' :=
        PhaseRuns(nums, idx[m.value := idx[m.value] + 1], t, m, out + [nums[idx[m.value]]], n - 1);
    }
  }

  lemma ShownIsThere(nums: seq<int>, idx: seq<nat>, t: nat, m: nat)
    requires Least(nums, idx, t, |idx|) == Some(m)
    ensures idx[m] < |nums|
  {
  }

  /** From the first round that finds no slice on, the numbers behind the last one used are written. */
  lemma {:induction false} StaleRounds(nums: seq<int>, idx: seq<nat>, t: nat, m: nat, n: nat)
    requires m < |idx| && idx[m] <= |nums| && Above(nums, idx, t, LONG_MAX)
    ensures Rest(nums, idx, t, Some(m), n)
            == if idx[m] + n <= |nums| then Some(nums[idx[m]..idx[m] + n]) else None
    decreases n
  {
    hide Lo, Least, Above, Rest, Prepend;
    if n == 0 {
      RestNothing(nums, idx, t, Some(m));
      assert nums[idx[m]..idx[m] + n] == [];
    } else {
      NoneShow(nums, idx, t, |idx|);
      StaleRound(nums, idx, t, m, n);
      if idx[m] < |nums| {
        StillAbove(nums, idx, t, m, LONG_MAX);
        StaleRounds(nums, idx[m := idx[m] + 1], t, m, n - 1);
        if idx[m] + n <= |nums| { FirstOf(nums, idx[m], n); } else { PrependNone([nums[idx[m]]]); }
      }
    }
  }

  lemma RestNothing(nums: seq<int>, idx: seq<nat>, t: nat, last: Option<nat>)
    ensures Rest(nums, idx, t, last, 0) == Some([])
  {
  }

  lemma StaleRound(nums: seq<int>, idx: seq<nat>, t: nat, m: nat, n: nat)
    requires m < |idx| && n > 0 && Least(nums, idx, t, |idx|) == None
    ensures Rest(nums, idx, t, Some(m), n)
            == if idx[m] >= |nums| then None
               else Prepend([nums[idx[m]]], Rest(nums, idx[m := idx[m] + 1], t, Some(m), n - 1))
  {
  }

  lemma FirstOf(nums: seq<int>, lo: nat, n: nat)
    requires 0 < n && lo + n <= |nums|
    ensures Prepend([nums[lo]], Some(nums[lo + 1..lo + 1 + (n - 1)])) == Some(nums[lo..lo + n])
  {
    assert [nums[lo]] + nums[lo + 1..lo + n] == nums[lo..lo + n];
  }

  lemma PrependNone(s: seq<int>)
    ensures Prepend(s, None) == None
  {
  }

  lemma {:induction false} NoneShow(nums: seq<int>, idx: seq<nat>, t: nat, k: nat)
    requires k <= |idx| && Above(nums, idx, t, LONG_MAX)
    ensures Least(nums, idx, t, k) == None
  {
    if k > 0 { NoneShow(nums, idx, t, k - 1); }
  }

  /** Position p holds the greatest of the numbers below the sentinel, the last one of its kind. */
  predicate LastGreatest(nums: seq<int>, p: nat) {
    && p < |nums| && nums[p] < LONG_MAX
    && forall q :: 0 <= q < |nums| && nums[q] < LONG_MAX ==> nums[q] <= nums[p] && (nums[q] == nums[p] ==> q <= p)
  }

  /** All numbers equal to the sentinel stand directly behind position p. */
  predicate MaxesFollow(nums: seq<int>, p: nat) {
    var n := multiset(nums)[LONG_MAX];
    p + 1 + n <= |nums| && forall j :: p < j <= p + n ==> nums[j] == LONG_MAX
  }

  lemma {:induction false} SliceOf(q: nat, n: nat, t: nat) returns (i: nat)
    requires q < Lo(n, t)
    ensures i < n && Lo(i, t) <= q < Lo(i, t) + t
  {
    LoNext(0, t);
    LoNext(n - 1, t);
    if Lo(n - 1, t) <= q { i := n - 1; } else { i := SliceOf(q, n - 1, t); }
  }

  /** When no slice shows a number, the last number used is the last of the greatest. */
  lemma LastUsedIsGreatest(nums: seq<int>, idx: seq<nat>, t: nat, m: nat, v: int)
    requires InSlices(idx, t) && Lo(|idx|, t) == |nums| && SlicesSorted(nums, |idx|, t) && v < LONG_MAX
    requires LastFrom(nums, idx, t, m, v) && Above(nums, idx, t, LONG_MAX)
    ensures LastGreatest(nums, idx[m] - 1)
  {
    var p := idx[m] - 1;
    forall q | 0 <= q < |nums| && nums[q] < LONG_MAX ensures nums[q] <= v && (nums[q] == v ==> q <= p) {
      var i := SliceOf(q, |idx|, t);
      UsedInSlice(nums, idx, t, i, q);
      assert Touched(nums, idx, t, m, v, i);
      if i < m { LoWithin(i, m, t); }
    }
  }

  /** A number below the sentinel has been used, and is at most the last one used of its slice. */
  lemma UsedInSlice(nums: seq<int>, idx: seq<nat>, t: nat, i: nat, q: nat)
    requires i < |idx| && InSlices(idx, t) && SlicesSorted(nums, |idx|, t) && Above(nums, idx, t, LONG_MAX)
    requires Lo(i, t) <= q < Lo(i, t) + t && q < |nums| && nums[q] < LONG_MAX
    ensures q < idx[i] <= |nums| && nums[q] <= nums[idx[i] - 1]
  {
    hide Lo;
    assert q < idx[i];
    assert SliceSorted(nums, i, t);
    SliceOrder(nums, i, t, q, idx[i] - 1);
  }

  lemma {:induction false} AllTheSame(s: multiset<int>, v: int)
    requires forall x :: x in s ==> x == v
    ensures s[v] == |s|
    decreases |s|
  {
    if |s| > 0 {
      var x := AnyOf(s);
      AllTheSame(s - multiset{v}, v);
    } else {
      assert s == multiset{};
    }
  }

  /** The numbers below the sentinel have been merged; what is left is sentinels. */
  lemma OnlyMaxesLeft(nums: seq<int>, idx: seq<nat>, t: nat, out: seq<int>)
    requires Progress(nums, idx, t, out) && SlicesSorted(nums, |idx|, t)
             && forall i :: 0 <= i < |out| ==> out[i] < LONG_MAX
    requires (forall i :: 0 <= i < |nums| ==> nums[i] <= LONG_MAX)
             && (|out| == |nums| || Least(nums, idx, t, |idx|).None?)
    ensures Above(nums, idx, t, LONG_MAX)
    ensures forall x :: x in LeftOver(nums, idx, t, |idx|) ==> x == LONG_MAX
    ensures multiset(nums)[LONG_MAX] == |nums| - |out| == |LeftOver(nums, idx, t, |idx|)|
  {
    hide Lo, LeftOver, Sorted, SliceSorted, Above, InSlices;
    var left := LeftOver(nums, idx, t, |idx|);
    LeftSize(multiset(out), left, multiset(nums));
    if |out| == |nums| {
      assert left == multiset{};
      NothingAbove(nums, idx, t, LONG_MAX);
    } else {
      HiddenHeads(nums, idx, t);
      HeadIsLeast(nums, idx, t, LONG_MAX);
    }
    forall x | x in left ensures x == LONG_MAX {
      var i, j := LeftHas(nums, idx, t, |idx|, x);
      AboveAt(nums, idx, t, LONG_MAX, i, j);
    }
    AllTheSame(left, LONG_MAX);
    assert LONG_MAX !in multiset(out);
  }

  lemma LeftSize(a: multiset<int>, b: multiset<int>, c: multiset<int>)
    requires a + b == c
    ensures |b| == |c| - |a|
  {
  }

  lemma AboveAt(nums: seq<int>, idx: seq<nat>, t: nat, v: int, i: nat, j: nat)
    requires Above(nums, idx, t, v) && i < |idx| && idx[i] <= j < Lo(i, t) + t && j < |nums|
    ensures v <= nums[j]
  {
  }

  /** Nothing is still to come. */
  lemma NothingAbove(nums: seq<int>, idx: seq<nat>, t: nat, v: int)
    requires InSlices(idx, t) && Lo(|idx|, t) <= |nums| && LeftOver(nums, idx, t, |idx|) == multiset{}
    ensures Above(nums, idx, t, v)
  {
    hide Lo, LeftOver;
    forall i | 0 <= i < |idx| ensures idx[i] >= Lo(i, t) + t {
      if Has(idx, t, i) { LeftStep(nums, idx, t, |idx|, i); }
    }
  }

  lemma HiddenHeads(nums: seq<int>, idx: seq<nat>, t: nat)
    requires Least(nums, idx, t, |idx|).None?
    ensures forall i :: 0 <= i < |idx| && Has(idx, t, i) && idx[i] < |nums| ==> LONG_MAX <= nums[idx[i]]
  {
    hide Least, Lo;
    forall i | 0 <= i < |idx| && Has(idx, t, i) && idx[i] < |nums| ensures LONG_MAX <= nums[idx[i]] {
      if Shows(nums, idx, t, i) { LeastIs(nums, idx, t, |idx|, i); }
    }
  }

  /** The merged numbers with a tail are right exactly when the tail is sentinels. */
  lemma TailIsRight(out: seq<int>, tail: seq<int>, left: multiset<int>, all: multiset<int>)
    requires multiset(out) + left == all && |tail| == |left| && Sorted(out)
    requires (forall i :: 0 <= i < |out| ==> out[i] < LONG_MAX) && (forall x :: x in left ==> x == LONG_MAX)
    ensures Sorted(out + tail) && multiset(out + tail) == all <==> forall i :: 0 <= i < |tail| ==> tail[i] == LONG_MAX
  {
    assert forall x :: x in multiset(tail) <==> x in tail;
    if forall i :: 0 <= i < |tail| ==> tail[i] == LONG_MAX {
      SameMultisets(left, multiset(tail), LONG_MAX);
    } else if multiset(out + tail) == all {
      Cancel(multiset(out), multiset(tail), left);
      forall i | 0 <= i < |tail| ensures tail[i] == LONG_MAX { assert tail[i] in multiset(tail); }
    }
  }

  lemma Cancel(a: multiset<int>, b: multiset<int>, c: multiset<int>)
    requires a + b == a + c
    ensures b == c
  {
    assert forall x :: (a + b)[x] == a[x] + b[x] && (a + c)[x] == a[x] + c[x];
  }

  lemma SameMultisets(a: multiset<int>, b: multiset<int>, v: int)
    requires |a| == |b| && (forall x :: x in a ==> x == v) && forall x :: x in b ==> x == v
    ensures a == b
  {
    AllTheSame(a, v);
    AllTheSame(b, v);
    assert forall x :: a[x] == if x == v then |a| else 0;
    assert forall x :: b[x] == if x == v then |b| else 0;
  }

  /** The merge runs to its end with a sorted permutation of the numbers. */
  ghost predicate Right(nums: seq<int>, r: Option<seq<int>>) {
    r.Some? && Sorted(r.value) && multiset(r.value) == multiset(nums)
  }

  /**
   * Exactly when the merge of sorted slices is right: when no number equals the sentinel, or when
   * those that do all stand directly behind the last of the greatest numbers below it.
   */
  lemma RightExactly(nums: seq<int>, nthr: nat, t: nat)
    requires |nums| == Lo(nthr, t) && SlicesSorted(nums, nthr, t) && forall i :: 0 <= i < |nums| ==> nums[i] <= LONG_MAX
    ensures Right(nums, Merged(nums, nthr, t)) <==>
              (LONG_MAX !in nums || exists p: nat :: LastGreatest(nums, p) && MaxesFollow(nums, p))
  {
    hide Lo, LeftOver, Rest, Least, SlicesSorted, Sorted, LastGreatest, MaxesFollow, Prepend, Progress, LastFrom, Above;
    var idx0 := Starts(nthr, t);
    StartIsPhase(nums, nthr, t);
    var idx, last, out, n := PhaseRuns(nums, idx0, t, None, [], |nums|);
    PrependNothing(Merged(nums, nthr, t));
    AfterPhase(nums, idx, t, last, out, n);
  }

  lemma StartIsPhase(nums: seq<int>, nthr: nat, t: nat)
    requires |nums| == Lo(nthr, t)
    ensures Phase(nums, Starts(nthr, t), t, None, [])
  {
    hide Lo, LeftOver;
    LeftAtStart(nums, nthr, t, nthr);
    assert nums[..|nums|] == nums;
  }

  lemma AfterPhase(nums: seq<int>, idx: seq<nat>, t: nat, last: Option<nat>, out: seq<int>, n: nat)
    requires Phase(nums, idx, t, last, out) && SlicesSorted(nums, |idx|, t) && |out| + n == |nums|
    requires (forall i :: 0 <= i < |nums| ==> nums[i] <= LONG_MAX) && (n == 0 || Least(nums, idx, t, |idx|).None?)
    ensures Right(nums, Prepend(out, Rest(nums, idx, t, last, n))) <==>
              (LONG_MAX !in nums || exists p: nat :: LastGreatest(nums, p) && MaxesFollow(nums, p))
  {
    hide Lo, LeftOver, Least, SlicesSorted, Sorted, Above, InSlices, Rest, LastFrom;
    OnlyMaxesLeft(nums, idx, t, out);
    var left := LeftOver(nums, idx, t, |idx|);
    assert LONG_MAX in nums <==> LONG_MAX in multiset(nums);
    if n == 0 {
      RestEnds(nums, idx, t, last, out);
      assert left == multiset{};
    } else if last.None? {
      NothingPicked(nums, idx, t, n);
    } else {
      var m := last.value;
      BehindLast(nums, idx, t, m, out, n);
    }
  }

  /** All numbers equal the sentinel: the first round has no slice to use. */
  lemma NothingPicked(nums: seq<int>, idx: seq<nat>, t: nat, n: nat)
    requires n > 0 && Least(nums, idx, t, |idx|).None? && multiset(nums)[LONG_MAX] == |nums|
    ensures Rest(nums, idx, t, None, n).None?
    ensures forall p: nat :: !LastGreatest(nums, p)
  {
    hide Least;
    forall p: nat | p < |nums| ensures nums[p] >= LONG_MAX {
      if nums[p] < LONG_MAX { OtherThan(nums, p); }
    }
  }

  lemma OtherThan(nums: seq<int>, p: nat)
    requires p < |nums| && nums[p] != LONG_MAX
    ensures multiset(nums)[LONG_MAX] < |nums|
  {
    var ms := multiset(nums);
    assert nums[p] in ms;
    CountAtMost(ms - multiset{nums[p]}, LONG_MAX);
  }

  lemma {:induction false} CountAtMost(s: multiset<int>, v: int)
    ensures s[v] <= |s|
    decreases s[v]
  {
    if s[v] > 0 { CountAtMost(s - multiset{v}, v); }
  }

  lemma FollowsIs(nums: seq<int>, lo: nat, n: nat)
    requires 0 < lo <= |nums| && multiset(nums)[LONG_MAX] == n
    ensures MaxesFollow(nums, lo - 1)
            <==> lo + n <= |nums| && var tail := nums[lo..lo + n]; forall i :: 0 <= i < |tail| ==> tail[i] == LONG_MAX
  {
    if lo + n <= |nums| {
      var tail := nums[lo..lo + n];
      if forall i :: 0 <= i < |tail| ==> tail[i] == LONG_MAX {
        forall j | lo - 1 < j <= lo - 1 + n ensures nums[j] == LONG_MAX { assert tail[j - lo] == nums[j]; }
      }
    }
  }

  lemma BehindLast(nums: seq<int>, idx: seq<nat>, t: nat, m: nat, out: seq<int>, n: nat)
    requires Phase(nums, idx, t, Some(m), out) && SlicesSorted(nums, |idx|, t) && |out| + n == |nums| && n > 0
    requires Above(nums, idx, t, LONG_MAX) && (forall x :: x in LeftOver(nums, idx, t, |idx|) ==> x == LONG_MAX)
    requires multiset(nums)[LONG_MAX] == n == |LeftOver(nums, idx, t, |idx|)|
    ensures Right(nums, Prepend(out, Rest(nums, idx, t, Some(m), n))) <==>
              exists p: nat :: LastGreatest(nums, p) && MaxesFollow(nums, p)
  {
    hide Lo, LeftOver, Least, SlicesSorted, Sorted, Above, InSlices, Rest;
    var p := idx[m] - 1;
    LastUsedIsGreatest(nums, idx, t, m, out[|out| - 1]);
    hide LastFrom;
    StaleRounds(nums, idx, t, m, n);
    if idx[m] + n <= |nums| {
      TailIsRight(out, nums[idx[m]..idx[m] + n], LeftOver(nums, idx, t, |idx|), multiset(nums));
    }
    FollowsIs(nums, idx[m], n);
    assert forall q: nat :: LastGreatest(nums, q) ==> q == p;
  }

  const MAXES_APART := [1, LONG_MAX, 2, LONG_MAX]

  /**
   * Two slices of two numbers, each ending in the sentinel.  The third and fourth rounds find
   * no slice; the third takes the sentinel of the slice used last, the fourth reads nums[4].
   */
  lemma SentinelsGoWrong()
    ensures SlicesSorted(MAXES_APART, 2, 2) && Merged(MAXES_APART, 2, 2).None?
    ensures Least(MAXES_APART, [1, 3], 2, 2).None? && Rest(MAXES_APART, [1, 3], 2, Some(1), 1) == Some([LONG_MAX])
    ensures Least(MAXES_APART, [1, 4], 2, 2).None? && Rest(MAXES_APART, [1, 4], 2, Some(1), 1).None?
  {
    hide Least, Rest, Lo, SliceSorted, Prepend, Has;
    var nums := MAXES_APART;
    ApartIsSorted();
    FourLeasts();
    RoundOf(nums, [1, 4], None, Some(1), 1);
    RoundOf(nums, [1, 3], None, Some(1), 1);
    RoundOf(nums, [1, 3], None, Some(1), 2);
    assert [1, 3][1 := 4] == [1, 4];
    RoundOf(nums, [1, 2], Some(1), Some(0), 3);
    assert [1, 2][1 := 3] == [1, 3];
    RoundOf(nums, [0, 2], Some(0), None, 4);
    assert [0, 2][0 := 1] == [1, 2];
    PrependNone([1]);
    PrependNone([2]);
    PrependNone([LONG_MAX]);
    StartsOfTwo();
  }

  lemma ApartIsSorted()
    ensures SlicesSorted(MAXES_APART, 2, 2)
  {
    var nums := MAXES_APART;
    assert nums[0..2] == [1, LONG_MAX] && nums[2..4] == [2, LONG_MAX] && Lo(0, 2) == 0 && Lo(1, 2) == 2;
    assert SliceSorted(nums, 0, 2) && SliceSorted(nums, 1, 2);
  }

  lemma StartsOfTwo()
    ensures Starts(2, 2) == [0, 2]
  {
  }

  lemma FourLeasts()
    ensures Least(MAXES_APART, [0, 2], 2, 2) == Some(0) && Least(MAXES_APART, [1, 2], 2, 2) == Some(1)
    ensures Least(MAXES_APART, [1, 3], 2, 2) == None && Least(MAXES_APART, [1, 4], 2, 2) == None
  {
    LeastOfTwo(MAXES_APART, [0, 2]);
    LeastOfTwo(MAXES_APART, [1, 2]);
    LeastOfTwo(MAXES_APART, [1, 3]);
    LeastOfTwo(MAXES_APART, [1, 4]);
    hide Least;
  }

  lemma LeastOfTwo(nums: seq<int>, idx: seq<nat>)
    requires |nums| == 4 && |idx| == 2
    ensures var a, b := Shows(nums, idx, 2, 0), Shows(nums, idx, 2, 1);
            Least(nums, idx, 2, 2)
            == if b && (!a || nums[idx[1]] < nums[idx[0]]) then Some(1) else if a then Some(0) else None
  {
    assert Least(nums, idx, 2, 0) == None;
    assert Least(nums, idx, 2, 1) == if Shows(nums, idx, 2, 0) then Some(0) else None;
  }

  lemma RoundOf(nums: seq<int>, idx: seq<nat>, found: Option<nat>, last: Option<nat>, n: nat)
    requires n > 0 && Least(nums, idx, 2, |idx|) == found
    ensures var m := if found.Some? then found else last;
            Rest(nums, idx, 2, last, n)
            == if m.None? || m.value >= |idx| || idx[m.value] >= |nums| then None
               else if n == 1 then Some([nums[idx[m.value]]])
               else Prepend([nums[idx[m.value]]], Rest(nums, idx[m.value := idx[m.value] + 1], 2, m, n - 1))
  {
    hide Least;
    var m := if found.Some? then found else last;
    if !(m.None? || m.value >= |idx| || idx[m.value] >= |nums|) {
      RestNothing(nums, idx[m.value := idx[m.value] + 1], 2, m);
      assert [nums[idx[m.value]]] + [] == [nums[idx[m.value]]];
    }
  }

  /** One slice that ends in the sentinel comes out right, although its last round finds no slice. */
  lemma OneSentinelIsRight()
    ensures var nums := [1, LONG_MAX];
            Right(nums, Merged(nums, 1, 2)) && !AlwaysFinds(nums, Starts(1, 2), 2, |nums|)
  {
    hide Merged, AlwaysFinds, Right;
    var nums := [1, LONG_MAX];
    assert Lo(0, 2) == 0 && Lo(1, 2) == 2 && nums[0..2] == nums;
    assert SliceSorted(nums, 0, 2);
    assert multiset(nums) == multiset{1, LONG_MAX};
    assert LastGreatest(nums, 0) && MaxesFollow(nums, 0);
    RightExactly(nums, 1, 2);
    EveryRoundFinds(nums, 1, 2);
    assert nums[1] == LONG_MAX;
  }
}
