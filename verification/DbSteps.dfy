/** What each write of the library does to the represented map, and what it leaves alone. */
module DbSteps {
  import opened Decimal
  import opened Chain
  import opened DbRecord
  import opened DbFiles

  /**
   * What a process with another chain locked may rely on, said from the side of the one
   * that writes: all that a step of process p with chain c locked leaves as it was.
   */
  ghost predicate LeavesAlone(f: Files, sh: Shape, f': Files, sh': Shape, c: nat, p: nat) {
    && |sh'.paths| == |sh.paths|
    && (forall d :: 0 < d < |sh.paths| && d != c ==> sh'.paths[d] == sh.paths[d])
    && (forall o :: o in f.recs && o in sh.place && Elsewhere(sh.place[o], c, p) ==>
          SameRecord(f, sh, f', sh', o))
    && (forall k :: SlotOf(k) != c ==> SameKey(sh.at, sh'.at, k))
    && (forall d :: d in sh.owner && sh.owner[d].Process? && sh.owner[d].pid != p ==> SameRegion(f, sh, f', sh', d))
  }

  predicate Elsewhere(b: nat, c: nat, p: nat) { b != 0 && b != c && b != PRIVATE + p }

  ghost predicate SameRecord(f: Files, sh: Shape, f': Files, sh': Shape, o: nat)
    requires o in f.recs && o in sh.place
  {
    && o in f'.recs && f'.recs[o] == f.recs[o] && At(f'.ptr, o) == At(f.ptr, o)
    && o in sh'.place && sh'.place[o] == sh.place[o]
    && Content(f'.dat, f'.recs[o]) == Content(f.dat, f.recs[o])
  }

  ghost predicate SameKey(at: map<string, nat>, at': map<string, nat>, k: string) {
    (k in at <==> k in at') && (k in at ==> at'[k] == at[k])
  }

  ghost predicate SameRegion(f: Files, sh: Shape, f': Files, sh': Shape, d: nat)
    requires d in sh.owner
  {
    && d in sh'.owner && sh'.owner[d] == sh.owner[d] && (d in sh.segs <==> d in sh'.segs)
    && (d in sh.segs ==> sh'.segs[d] == sh.segs[d])
    && Region(f'.dat, sh'.segs, d) == Region(f.dat, sh.segs, d)
  }

  /** The record of a stored key is on its chain, and its data region is its own. */
  lemma RecordFacts(f: Files, sh: Shape, o: nat)
    requires WF(f, sh) && o in f.recs
    ensures o in f.ptr && o in sh.place && FREE_OFF in f.ptr && IDX_BASE <= o
    ensures Owns(sh.segs, sh.owner, o, f.recs[o])
    ensures 0 < f.recs[o].datlen && f.recs[o].datoff + f.recs[o].datlen <= |f.dat|
  {
    assert IsSlot(FREE_OFF);
    assert Owns(sh.segs, sh.owner, o, f.recs[o]);
  }

  lemma EndIsNew(f: Files, sh: Shape)
    requires WF(f, sh)
    ensures f.idxEnd !in f.recs && f.idxEnd !in f.ptr && f.idxEnd !in sh.place && |f.dat| !in sh.segs
    ensures IDX_BASE <= f.idxEnd
  {
    hide SlotOf, InPlace, Path, Keys, Owned;
    TilesEnd(f.recs, sh.offs, f.idxEnd);
    AppendRegion(f.dat, sh.segs, "");
  }

  /** Deleting moves the record to the free list and takes exactly its key out of the map. */
  lemma DeleteStep(f: Files, sh: Shape, c: nat, i: nat, p: nat, f': Files, sh': Shape)
    requires WF(f, sh) && 0 < c < SLOTS && 0 < i < |sh.paths[c]| && sh.paths[c][i] in f.recs
    requires f' == DoDelete(f, sh.paths[c][i], sh.paths[c][i - 1], At(f.ptr, sh.paths[c][i]))
    requires sh' == DeletedShape(sh, c, i, f.recs[sh.paths[c][i]].key)
    ensures WF(f', sh') && Contents(f', sh') == Contents(f, sh) - {f.recs[sh.paths[c][i]].key}
    ensures LeavesAlone(f, sh, f', sh', c, p)
  {
    hide Cells, Tiles, Regions, Owned, Keys, SlotOf, Content, InPlace, LeavesAlone;
    var o := sh.paths[c][i];
    var e := f.recs[o];
    Element(f.ptr, sh.paths, sh.place, f.recs, c, i);
    RecordFacts(f, sh, o);
    ListsMove(f.ptr, sh.paths, sh.place, c, i, 0);
    CellsRewrite(f.ptr, f.recs, o, At(f.ptr, 0), e.(key := Blanks(|e.key|)));
    CellsKept(f.ptr[o := At(f.ptr, 0)], f'.recs, 0, o);
    assert sh.paths[c][i - 1] in sh.paths[c];
    ListsApart(f.ptr, sh.paths, sh.place, c, sh.paths[c][i - 1]);
    CellsKept(f.ptr[o := At(f.ptr, 0)][0 := o], f'.recs, sh.paths[c][i - 1], At(f.ptr, o));
    TilesRewrite(f.recs, sh.offs, f.idxEnd, o, Blanks(|e.key|));
    OwnedRewrite(sh.segs, sh.owner, f.recs, o, Blanks(|e.key|));
    WriteContents(f.dat, sh.segs, sh.owner, f.recs, o, Blanks(e.datlen - 1));
    KeysDelete(f.recs, sh.place, sh.at, o, 0);
    ContentsDelete(f, sh, f', sh', o);
    DeleteAlone(f, sh, c, i, p, f', sh');
  }

  lemma DeleteAlone(f: Files, sh: Shape, c: nat, i: nat, p: nat, f': Files, sh': Shape)
    requires WF(f, sh) && 0 < c < SLOTS && 0 < i < |sh.paths[c]| && sh.paths[c][i] in f.recs
    requires f' == DoDelete(f, sh.paths[c][i], sh.paths[c][i - 1], At(f.ptr, sh.paths[c][i]))
    requires sh' == DeletedShape(sh, c, i, f.recs[sh.paths[c][i]].key)
    ensures LeavesAlone(f, sh, f', sh', c, p)
  {
    hide Cells, Tiles, Regions, Owned, Keys, SlotOf, Content, InPlace;
    var o, prev := sh.paths[c][i], sh.paths[c][i - 1];
    RecordFacts(f, sh, o);
    Element(f.ptr, sh.paths, sh.place, f.recs, c, i);
    WriteContents(f.dat, sh.segs, sh.owner, f.recs, o, Blanks(f.recs[o].datlen - 1));
    assert prev in sh.paths[c] && o in sh.paths[c] && sh.paths[0][0] in sh.paths[0];
    ListsApart(f.ptr, sh.paths, sh.place, c, prev);
    ListsApart(f.ptr, sh.paths, sh.place, c, o);
    ListsApart(f.ptr, sh.paths, sh.place, 0, 0);
    ThreeCells(f.ptr, o, At(f.ptr, 0), 0, o, prev, At(f.ptr, o));
    RegionsAlone(f, sh, f', sh', o);
    KeysDelete(f.recs, sh.place, sh.at, o, 0);
    OtherKeys(sh.at, f.recs[o].key, o);
    LeavesAlonePtr(f, sh, f', sh', c, p, o);
  }

  lemma OtherKeys(at: map<string, nat>, key: string, o: nat)
    ensures forall k :: SlotOf(k) != SlotOf(key) ==> SameKey(at, at - {key}, k) && SameKey(at, at[key := o], k)
  {
    hide Hash;
    forall k | SlotOf(k) != SlotOf(key) ensures SameKey(at, at - {key}, k) && SameKey(at, at[key := o], k) {
      assert k != key;
    }
  }

  lemma ThreeCells(m: map<nat, nat>, a: nat, x: nat, b: nat, y: nat, c: nat, z: nat)
    ensures forall l :: l != a && l != b && l != c ==> At(m[a := x][b := y][c := z], l) == At(m, l)
  {
  }

  lemma ContentsDelete(f: Files, sh: Shape, f': Files, sh': Shape, o: nat)
    requires Keys(f.recs, sh.place, sh.at) && o in f.recs && OnlyRecord(f, f', o)
    requires f.recs[o].key in sh.at && sh.at[f.recs[o].key] == o && sh'.at == sh.at - {f.recs[o].key}
    ensures Contents(f', sh') == Contents(f, sh) - {f.recs[o].key}
  {
    forall k | k in sh'.at ensures sh.at[k] in f.recs && sh.at[k] != o { assert Holds(f.recs, sh.place, sh.at[k], k); }
  }

  /** No record but o is changed or loses its data. */
  ghost predicate OnlyRecord(f: Files, f': Files, o: nat) {
    forall x :: x in f.recs && x != o ==>
      x in f'.recs && f'.recs[x] == f.recs[x] && Content(f'.dat, f.recs[x]) == Content(f.dat, f.recs[x])
  }

  lemma LeavesAlonePtr(f: Files, sh: Shape, f': Files, sh': Shape, c: nat, p: nat, o: nat)
    requires OnlyRecord(f, f', o) && (o in sh.place ==> !Elsewhere(sh.place[o], c, p))
    requires |sh'.paths| == |sh.paths| && forall d :: 0 < d < |sh.paths| && d != c ==> sh'.paths[d] == sh.paths[d]
    requires forall l :: l in sh.place && l != o ==> l in sh'.place && sh'.place[l] == sh.place[l]
    requires forall l :: l in sh.place && Elsewhere(sh.place[l], c, p) ==> At(f'.ptr, l) == At(f.ptr, l)
    requires forall k :: SlotOf(k) != c ==> SameKey(sh.at, sh'.at, k)
    requires forall d :: d in sh.owner && sh.owner[d].Process? && sh.owner[d].pid != p ==> SameRegion(f, sh, f', sh', d)
    ensures LeavesAlone(f, sh, f', sh', c, p)
  {
    hide SlotOf, Content, At, SameKey, SameRegion, Elsewhere;
    forall x | x in f.recs && x in sh.place && Elsewhere(sh.place[x], c, p) ensures SameRecord(f, sh, f', sh', x) {
      assert x != o;
      assert At(f'.ptr, x) == At(f.ptr, x);
    }
  }

  /** Writing the region of a record touches no region that belongs to a process. */
  lemma RegionsAlone(f: Files, sh: Shape, f': Files, sh': Shape, o: nat)
    requires o in f.recs && Owns(sh.segs, sh.owner, o, f.recs[o]) && sh'.segs == sh.segs && sh'.owner == sh.owner
    requires forall d :: d in sh.segs && d != f.recs[o].datoff ==>
               Region(f'.dat, sh.segs, d) == Region(f.dat, sh.segs, d)
    ensures forall d :: d in sh.owner && sh.owner[d].Process? ==> SameRegion(f, sh, f', sh', d)
  {
  }

  /** Taking a record off the free list makes it private to the process that took it. */
  lemma TakeStep(f: Files, sh: Shape, i: nat, c: nat, p: nat, f': Files, sh': Shape)
    requires WF(f, sh) && 0 < i < |sh.paths[0]|
    requires f' == WritePtr(f, sh.paths[0][i - 1], At(f.ptr, sh.paths[0][i])) && sh' == TakenShape(sh, i, p)
    ensures WF(f', sh') && Contents(f', sh') == Contents(f, sh)
    ensures LeavesAlone(f, sh, f', sh', c, p)
  {
    hide Tiles, Regions, Owned, Keys, SlotOf, Content, InPlace, Cells;
    var o, prev := sh.paths[0][i], sh.paths[0][i - 1];
    Element(f.ptr, sh.paths, sh.place, f.recs, 0, i);
    ListsTake(f.ptr, sh.paths, sh.place, 0, i, PRIVATE + p);
    assert prev in sh.paths[0];
    ListsApart(f.ptr, sh.paths, sh.place, 0, prev);
    CellsKept(f.ptr, f.recs, prev, At(f.ptr, o));
    AppendSameContents(f, sh, f', sh');
    assert f.recs[o := f.recs[o]] == f.recs;
    KeysPrivate(f.recs, sh.place, sh.at, o, f.recs[o], PRIVATE + p);
    LeavesAlonePtr(f, sh, f', sh', c, p, o);
  }

  /** Giving a private record a key and data of the same sizes. */
  lemma FillStep(f: Files, sh: Shape, o: nat, key: string, data: string, next: nat, c: nat, p: nat, f': Files)
    requires WF(f, sh) && o in f.recs && o in sh.place && sh.place[o] == PRIVATE + p
    requires |key| == |f.recs[o].key| && |data| + 1 == f.recs[o].datlen && f' == Fill(f, o, key, data, next)
    ensures WF(f', sh) && Contents(f', sh) == Contents(f, sh)
    ensures LeavesAlone(f, sh, f', sh, c, p)
    ensures Content(f'.dat, f'.recs[o]) == data
  {
    hide Lists, Cells, Tiles, Regions, Owned, Keys, SlotOf, Content;
    RecordFacts(f, sh, o);
    CellsRewrite(f.ptr, f.recs, o, next, f.recs[o].(key := key));
    ListsPrivate(f.ptr, sh.paths, sh.place, o, next, PRIVATE + p);
    assert sh.place[o := PRIVATE + p] == sh.place;
    TilesRewrite(f.recs, sh.offs, f.idxEnd, o, key);
    OwnedRewrite(sh.segs, sh.owner, f.recs, o, key);
    WriteContents(f.dat, sh.segs, sh.owner, f.recs, o, data);
    KeysPrivate(f.recs, sh.place, sh.at, o, f.recs[o].(key := key), PRIVATE + p);
    EntryMoved(f'.dat, f.recs[o], key);
    FillContents(f, sh, f', o);
    RegionsAlone(f, sh, f', sh, o);
    LeavesAlonePtr(f, sh, f', sh, c, p, o);
  }

  /** Data does not depend on the key it is stored under. */
  lemma EntryMoved(dat: string, e: Entry, key: string)
    ensures Content(dat, e.(key := key)) == Content(dat, e)
  {
  }

  lemma FillContents(f: Files, sh: Shape, f': Files, o: nat)
    requires Keys(f.recs, sh.place, sh.at) && OnlyRecord(f, f', o) && o in sh.place && sh.place[o] >= SLOTS
    ensures Contents(f', sh) == Contents(f, sh)
  {
    forall k | k in sh.at ensures sh.at[k] in f.recs && sh.at[k] != o { assert Holds(f.recs, sh.place, sh.at[k], k); }
  }

  /** Pointing the chain at a private record puts its key and data into the map. */
  lemma LinkStep(f: Files, sh: Shape, o: nat, c: nat, p: nat, f': Files, sh': Shape)
    requires WF(f, sh) && o in f.recs && o in sh.place && sh.place[o] == PRIVATE + p
    requires c == SlotOf(f.recs[o].key) && f.recs[o].key !in sh.at && At(f.ptr, o) == At(f.ptr, Slot(c))
    requires f' == WritePtr(f, Slot(c), o) && sh' == LinkedShape(sh, c, o, f.recs[o].key)
    ensures WF(f', sh') && LeavesAlone(f, sh, f', sh', c, p)
    ensures Contents(f', sh') == Contents(f, sh)[f.recs[o].key := Content(f.dat, f.recs[o])]
  {
    hide Cells, Tiles, Regions, Owned, Keys, SlotOf, Content, InPlace;
    RecordFacts(f, sh, o);
    ListsPush(f.ptr, sh.paths, sh.place, c, o);
    assert f.ptr[o := f.ptr[Slot(c)]] == f.ptr;
    KeysLink(f.recs, sh.place, sh.at, o);
    assert sh.paths[c][0] in sh.paths[c];
    ListsApart(f.ptr, sh.paths, sh.place, c, Slot(c));
    CellsKept(f.ptr, f.recs, Slot(c), o);
    OtherKeys(sh.at, f.recs[o].key, o);
    LinkContents(f, sh, f', sh', o);
    LeavesAlonePtr(f, sh, f', sh', c, p, o);
  }

  lemma LinkContents(f: Files, sh: Shape, f': Files, sh': Shape, o: nat)
    requires o in f.recs && f'.recs == f.recs && f'.dat == f.dat && sh'.at == sh.at[f.recs[o].key := o]
    ensures Contents(f', sh') == Contents(f, sh)[f.recs[o].key := Content(f.dat, f.recs[o])]
  {
  }

  lemma CellsKept(ptr: map<nat, nat>, recs: map<nat, Entry>, l: nat, v: nat)
    requires Cells(ptr, recs) && l in ptr
    ensures Cells(ptr[l := v], recs)
  {
  }

  lemma CellsRewrite(ptr: map<nat, nat>, recs: map<nat, Entry>, o: nat, v: nat, e: Entry)
    requires Cells(ptr, recs) && o in recs
    ensures Cells(ptr[o := v], recs[o := e])
  {
  }

  /** Appending a data region, which stays with the process until a record says so. */
  lemma DatAppendStep(f: Files, sh: Shape, data: string, c: nat, p: nat, f': Files, sh': Shape)
    requires WF(f, sh) && f' == AppendDat(f, data) && sh' == DatAppendedShape(sh, |f.dat|, |data| + 1, p)
    ensures WF(f', sh') && Contents(f', sh') == Contents(f, sh)
    ensures LeavesAlone(f, sh, f', sh', c, p)
    ensures Region(f'.dat, sh'.segs, |f.dat|) == data + [NEWLINE]
  {
    hide Lists, Cells, Tiles, Regions, Keys, Region, SlotOf, Content;
    EndIsNew(f, sh);
    AppendRegion(f.dat, sh.segs, data);
    AppendContents(f.dat, sh.segs, sh.owner, f.recs, data);
    OwnedAppend(sh.segs, sh.owner, f.recs, |f.dat|, |data| + 1, Process(p));
    AppendSameContents(f, sh, f', sh');
    LeavesAlonePtr(f, sh, f', sh', c, p, f.idxEnd);
  }

  lemma AppendSameContents(f: Files, sh: Shape, f': Files, sh': Shape)
    requires sh'.at == sh.at && Keys(f.recs, sh.place, sh.at)
    requires forall x :: x in f.recs ==>
               x in f'.recs && f'.recs[x] == f.recs[x] && Content(f'.dat, f.recs[x]) == Content(f.dat, f.recs[x])
    ensures Contents(f', sh') == Contents(f, sh)
  {
    forall k | k in sh.at ensures sh.at[k] in f.recs { assert Holds(f.recs, sh.place, sh.at[k], k); }
  }

  /** Appending the index record: the file grows by one whole record, still private. */
  lemma IdxAppendStep(f: Files, sh: Shape, e: Entry, next: nat, c: nat, p: nat, f': Files, sh': Shape)
    requires WF(f, sh) && e.datoff in sh.owner && sh.owner[e.datoff] == Process(p)
    requires e.datoff in sh.segs && sh.segs[e.datoff] == e.datlen
    requires f' == AppendIdx(f, e, next) && sh' == IdxAppendedShape(sh, f.idxEnd, e.datoff, p)
    ensures WF(f', sh') && Contents(f', sh') == Contents(f, sh)
    ensures LeavesAlone(f, sh, f', sh', c, p)
  {
    hide Lists, Cells, Tiles, Regions, Owned, Keys, SlotOf, Content;
    var o := f.idxEnd;
    EndIsNew(f, sh);
    TilesAppend(f.recs, sh.offs, f.idxEnd, e);
    ListsPrivate(f.ptr, sh.paths, sh.place, o, next, PRIVATE + p);
    CellsNew(f.ptr, f.recs, o, next, e);
    OwnedNew(sh.segs, sh.owner, f.recs, o, e);
    KeysPrivate(f.recs, sh.place, sh.at, o, e, PRIVATE + p);
    AppendSameContents(f, sh, f', sh');
    LeavesAlonePtr(f, sh, f', sh', c, p, o);
  }

  lemma CellsNew(ptr: map<nat, nat>, recs: map<nat, Entry>, o: nat, v: nat, e: Entry)
    requires Cells(ptr, recs) && IDX_BASE <= o
    ensures Cells(ptr[o := v], recs[o := e])
  {
  }

  /** Overwriting a linked record's data with data of the same length. */
  lemma OverwriteStep(f: Files, sh: Shape, o: nat, data: string, c: nat, p: nat, f': Files)
    requires WF(f, sh) && o in f.recs && o in sh.place && sh.place[o] == c && 0 < c < SLOTS
    requires |data| + 1 == f.recs[o].datlen && f' == WriteDat(f, f.recs[o].datoff, data)
    ensures WF(f', sh) && LeavesAlone(f, sh, f', sh, c, p)
    ensures f.recs[o].key in sh.at && sh.at[f.recs[o].key] == o
    ensures Contents(f', sh) == Contents(f, sh)[f.recs[o].key := data]
  {
    hide Lists, Cells, Tiles, Regions, Owned, Keys, SlotOf, Content;
    RecordFacts(f, sh, o);
    WriteContents(f.dat, sh.segs, sh.owner, f.recs, o, data);
    OverwriteContents(f, sh, f', o, data);
    RegionsAlone(f, sh, f', sh, o);
    LeavesAlonePtr(f, sh, f', sh, c, p, o);
  }

  lemma OverwriteContents(f: Files, sh: Shape, f': Files, o: nat, data: string)
    requires Keys(f.recs, sh.place, sh.at) && OnlyRecord(f, f', o) && f'.recs == f.recs
    requires o in f.recs && o in sh.place && 0 < sh.place[o] < SLOTS && Content(f'.dat, f.recs[o]) == data
    ensures f.recs[o].key in sh.at && sh.at[f.recs[o].key] == o
    ensures Contents(f', sh) == Contents(f, sh)[f.recs[o].key := data]
  {
    forall k | k in sh.at ensures sh.at[k] in f.recs && (sh.at[k] == o <==> k == f.recs[o].key) {
      assert Holds(f.recs, sh.place, sh.at[k], k);
    }
  }

  /** Where a walk along list c goes from its i-th cell. */
  lemma ListNext(f: Files, sh: Shape, c: nat, i: nat)
    requires WF(f, sh) && c < SLOTS && i < |sh.paths[c]|
    ensures sh.paths[c][i] in f.ptr && f.ptr[sh.paths[c][i]] == Next(sh.paths[c], i)
    ensures 0 < i ==> sh.paths[c][i] in f.recs && sh.paths[c][i] != 0 && sh.place[sh.paths[c][i]] == c
    ensures sh.paths[c][0] == Slot(c) && sh.place.Keys == f.ptr.Keys
  {
    hide Tiles, Regions, Owned, Keys, SlotOf, InPlace, Cells;
    if 0 < i { Element(f.ptr, sh.paths, sh.place, f.recs, c, i); }
    assert Linked(f.ptr, sh.paths[c], i);
  }

  /** A stored key's record is on its chain, and a record found there holds the key. */
  lemma KeyOnChain(f: Files, sh: Shape, key: string)
    requires WF(f, sh)
    ensures key in sh.at ==> sh.at[key] in f.recs && f.recs[sh.at[key]].key == key
                             && exists i :: 0 < i < |sh.paths[SlotOf(key)]| && sh.paths[SlotOf(key)][i] == sh.at[key]
  {
    hide Tiles, Regions, Owned, Path, Hash;
    if key in sh.at {
      var o, c := sh.at[key], SlotOf(key);
      assert Holds(f.recs, sh.place, o, key);
      assert o in sh.paths[c];
      var i :| 0 <= i < |sh.paths[c]| && sh.paths[c][i] == o;
      assert IsSlot(Slot(c));
    }
  }

  lemma FoundIsAt(f: Files, sh: Shape, o: nat)
    requires WF(f, sh) && o in f.recs && o in sh.place && 0 < sh.place[o] < SLOTS
    ensures f.recs[o].key in sh.at && sh.at[f.recs[o].key] == o
  {
  }

  /** The entry a process writes for data it has just appended at d. */
  lemma AppendedContent(f: Files, sh: Shape, e: Entry, data: string)
    requires WF(f, sh) && e.datoff in sh.segs && sh.segs[e.datoff] == e.datlen
    requires Region(f.dat, sh.segs, e.datoff) == data + [NEWLINE]
    ensures Content(f.dat, e) == data
  {
    hide Lists, Cells, Tiles, Owned, Keys;
    ContentIsRegion(f.dat, sh.segs, e);
    assert (data + [NEWLINE])[..|data|] == data;
  }

  /** Data, index record and chain pointer, written in that order by one process. */
  lemma AppendRecordStep(f: Files, sh: Shape, key: string, data: string, f1: Files, f2: Files, f3: Files, sh3: Shape)
    requires WF(f, sh) && key !in sh.at && f1 == AppendDat(f, data)
    requires f2 == AppendIdx(f1, Entry(key, |f.dat|, |data| + 1), At(f.ptr, Slot(SlotOf(key))))
    requires f3 == WritePtr(f2, Slot(SlotOf(key)), f.idxEnd) && SlotOf(key) < |sh.paths| && |sh.paths[SlotOf(key)]| > 0
    requires sh3 == LinkedShape(IdxAppendedShape(DatAppendedShape(sh, |f.dat|, |data| + 1, 0), f.idxEnd, |f.dat|, 0),
                                SlotOf(key), f.idxEnd, key)
    ensures WF(f3, sh3) && Contents(f3, sh3) == Contents(f, sh)[key := data]
    ensures sh3.place == sh.place[f.idxEnd := SlotOf(key)]
  {
    hide WF, Contents, LeavesAlone, Content, Hash, Region, RecLen;
    var e, o, c := Entry(key, |f.dat|, |data| + 1), f.idxEnd, SlotOf(key);
    var sh1 := DatAppendedShape(sh, |f.dat|, |data| + 1, 0);
    var sh2 := IdxAppendedShape(sh1, o, |f.dat|, 0);
    EndIsNew(f, sh);
    DatAppendStep(f, sh, data, c, 0, f1, sh1);
    IdxAppendStep(f1, sh1, e, At(f.ptr, Slot(c)), c, 0, f2, sh2);
    AppendedContent(f1, sh1, e, data);
    assert o != Slot(c);
    LinkStep(f2, sh2, o, c, 0, f3, sh3);
    assert sh3.place == sh.place[o := c];
  }

  /** A record taken off the free list, filled and linked by one process. */
  lemma ReuseRecordStep(f: Files, sh: Shape, o: nat, key: string, data: string, f1: Files, f2: Files, sh2: Shape)
    requires WF(f, sh) && key !in sh.at && o in f.recs && o in sh.place && sh.place[o] == PRIVATE
    requires |key| == |f.recs[o].key| && |data| + 1 == f.recs[o].datlen && o != Slot(SlotOf(key))
    requires f1 == Fill(f, o, key, data, At(f.ptr, Slot(SlotOf(key)))) && f2 == WritePtr(f1, Slot(SlotOf(key)), o)
    requires SlotOf(key) < |sh.paths| && |sh.paths[SlotOf(key)]| > 0 && sh2 == LinkedShape(sh, SlotOf(key), o, key)
    ensures WF(f2, sh2) && Contents(f2, sh2) == Contents(f, sh)[key := data]
  {
    hide WF, Contents, LeavesAlone, Content, Hash;
    var c := SlotOf(key);
    FillStep(f, sh, o, key, data, At(f.ptr, Slot(c)), c, 0, f1);
    LinkStep(f1, sh, o, c, 0, f2, sh2);
  }
}
