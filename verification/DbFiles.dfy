/**
 * The two files seen as records: pointer cells, index entries by offset, and the bytes
 * of the data file.  Every write the library makes is a function on this state, and
 * every such write keeps the well-formedness that makes the files represent a map.
 */
module DbFiles {
  import opened Decimal
  import opened Chain
  import opened DbRecord

  const SLOTS := 138                            // free list, then NHASH_DEF hash chains
  const IDX_BASE := 967                         // SLOTS * PTR_SZ and a newline
  const PRIVATE := 138                          // places from here on belong to one process

  datatype Files = Files(ptr: map<nat, nat>, recs: map<nat, Entry>, idxEnd: nat, dat: string)

  datatype Owner = Record(offset: nat) | Process(pid: nat)

  /**
   * What the pointers amount to.  paths[0] is the free list and paths[c] a hash chain.
   * place gives each cell its one place; at gives each stored key its record; offs lists
   * the records in file order; segs and owner say which data regions exist and whose they are.
   */
  datatype Shape = Shape(
    paths: seq<seq<nat>>, place: map<nat, nat>, at: map<string, nat>,
    offs: seq<nat>, segs: map<nat, nat>, owner: map<nat, Owner>)

  /** The header location of a list head. */
  function Slot(c: nat): nat { 7 * c }

  predicate IsSlot(l: nat) { l < 966 && l % 7 == 0 }

  function SlotOf(key: string): (c: nat)
    ensures 1 <= c < SLOTS && ChainOff(key) == Slot(c)
  {
    Hash(key) + 1
  }

  function At(m: map<nat, nat>, l: nat): nat { if l in m then m[l] else 0 }

  /** s with t written over it at offset o; s itself when t does not fit. */
  function Splice(s: string, o: nat, t: string): (r: string)
    ensures |r| == |s|
  {
    if o + |t| <= |s| then s[..o] + t + s[o + |t|..] else s
  }

  lemma SpliceSlices(s: string, o: nat, t: string, lo: nat, hi: nat)
    requires o + |t| <= |s| && lo <= hi <= |s|
    ensures hi <= o || o + |t| <= lo ==> Splice(s, o, t)[lo..hi] == s[lo..hi]
    ensures Splice(s, o, t)[o..o + |t|] == t
    ensures o <= lo && hi <= o + |t| ==> Splice(s, o, t)[lo..hi] == t[lo - o..hi - o]
  {
    var r := Splice(s, o, t);
    assert forall i :: 0 <= i < |r| ==> r[i] == (if o <= i < o + |t| then t[i - o] else s[i]);
  }

  // ----- well-formedness -----

  /** Each list is a terminated path from its own head, and each cell has exactly one place. */
  ghost predicate Lists(ptr: map<nat, nat>, paths: seq<seq<nat>>, place: map<nat, nat>) {
    && |paths| == SLOTS
    && (forall c :: 0 <= c < SLOTS ==> Path(ptr, paths[c]) && paths[c][0] == Slot(c))
    && (forall l :: l in ptr <==> l in place)
    && InPlace(paths, place)
  }

  ghost predicate InPlace(paths: seq<seq<nat>>, place: map<nat, nat>) {
    && |paths| == SLOTS
    && (forall c, l :: 0 <= c < SLOTS && l in paths[c] ==> l in place && place[l] == c)
    && (forall l :: l in place && place[l] < SLOTS ==> l in paths[place[l]])
  }

  /** The pointer cells are the 138 heads and one cell at the front of each record. */
  ghost predicate Cells(ptr: map<nat, nat>, recs: map<nat, Entry>) {
    && (forall l :: l in ptr <==> IsSlot(l) || l in recs)
    && (forall l :: l in recs ==> !IsSlot(l))
  }

  /** The index file is the header followed by whole records and nothing else. */
  ghost predicate Tiles(recs: map<nat, Entry>, offs: seq<nat>, idxEnd: nat) {
    && (forall o :: o in recs <==> o in offs)
    && (if offs == [] then idxEnd else offs[0]) == IDX_BASE
    && (forall i :: 0 <= i < |offs| ==> Tile(recs, offs, idxEnd, i))
    && (forall o :: o in recs ==> IDX_BASE <= o && o + RecLen(recs[o]) <= idxEnd)
    && (forall o, o' :: o in recs && o' in recs && o < o' ==> o + RecLen(recs[o]) <= o')
  }

  /** Record i in file order ends where the next one, or the end of the file, begins. */
  ghost predicate Tile(recs: map<nat, Entry>, offs: seq<nat>, idxEnd: nat, i: nat)
    requires i < |offs|
  {
    offs[i] in recs && offs[i] + RecLen(recs[offs[i]]) == if i + 1 < |offs| then offs[i + 1] else idxEnd
  }

  /** Data regions are disjoint and each ends in a newline. */
  ghost predicate Regions(dat: string, segs: map<nat, nat>) {
    && (forall d :: d in segs ==> 0 < segs[d] && d + segs[d] <= |dat| && dat[d + segs[d] - 1] == NEWLINE)
    && (forall d, d' :: d in segs && d' in segs && d < d' ==> d + segs[d] <= d')
  }

  function Region(dat: string, segs: map<nat, nat>, d: nat): string {
    if d in segs && d + segs[d] <= |dat| then dat[d..d + segs[d]] else []
  }

  /** Every record owns one data region of its own. */
  ghost predicate Owned(segs: map<nat, nat>, owner: map<nat, Owner>, recs: map<nat, Entry>) {
    && (forall d :: d in segs <==> d in owner)
    && (forall o :: o in recs ==> Owns(segs, owner, o, recs[o]))
  }

  ghost predicate Owns(segs: map<nat, nat>, owner: map<nat, Owner>, o: nat, e: Entry) {
    e.datoff in owner && owner[e.datoff] == Record(o) && e.datoff in segs && segs[e.datoff] == e.datlen
  }

  /** A linked record is on the chain of its own hash, keys are unique, free records are blank. */
  ghost predicate Keys(recs: map<nat, Entry>, place: map<nat, nat>, at: map<string, nat>) {
    && (forall o :: o in recs && o in place && 0 < place[o] < SLOTS ==>
          SlotOf(recs[o].key) == place[o] && recs[o].key in at && at[recs[o].key] == o)
    && (forall k :: k in at ==> Holds(recs, place, at[k], k))
    && (forall o :: o in recs && o in place && place[o] == 0 ==> AllBlank(recs[o].key))
  }

  ghost predicate Holds(recs: map<nat, Entry>, place: map<nat, nat>, o: nat, k: string) {
    o in recs && o in place && 0 < place[o] < SLOTS && recs[o].key == k
  }

  ghost predicate WF(f: Files, sh: Shape) {
    && Lists(f.ptr, sh.paths, sh.place)
    && Cells(f.ptr, f.recs)
    && Tiles(f.recs, sh.offs, f.idxEnd)
    && Regions(f.dat, sh.segs)
    && Owned(sh.segs, sh.owner, f.recs)
    && Keys(f.recs, sh.place, sh.at)
  }

  /** The data of an entry, without its newline. */
  function Content(dat: string, e: Entry): string {
    if 0 < e.datlen && e.datoff + e.datlen <= |dat| then dat[e.datoff..e.datoff + e.datlen - 1] else []
  }

  /** The map from key to data that the two files represent. */
  function Contents(f: Files, sh: Shape): map<string, string> {
    map k | k in sh.at :: if sh.at[k] in f.recs then Content(f.dat, f.recs[sh.at[k]]) else []
  }

  // ----- the writes -----

  function WritePtr(f: Files, l: nat, v: nat): Files { f.(ptr := f.ptr[l := v]) }

  function WriteDat(f: Files, d: nat, data: string): Files { f.(dat := Splice(f.dat, d, data + [NEWLINE])) }

  function AppendDat(f: Files, data: string): Files { f.(dat := f.dat + data + [NEWLINE]) }

  function WriteIdx(f: Files, o: nat, e: Entry, next: nat): Files {
    f.(ptr := f.ptr[o := next], recs := f.recs[o := e])
  }

  function AppendIdx(f: Files, e: Entry, next: nat): Files {
    WriteIdx(f, f.idxEnd, e, next).(idxEnd := f.idxEnd + RecLen(e))
  }

  /** Everything _db_dodelete writes while it holds the free list lock. */
  function DoDelete(f: Files, o: nat, ptroff: nat, saveptr: nat): Files
    requires o in f.recs
  {
    var e := f.recs[o];
    var f1 := WriteDat(f, e.datoff, Blanks(if e.datlen > 0 then e.datlen - 1 else 0));
    var f2 := WriteIdx(f1, o, e.(key := Blanks(|e.key|)), At(f.ptr, FREE_OFF));
    WritePtr(WritePtr(f2, FREE_OFF, o), ptroff, saveptr)
  }

  /** What db_store writes into a record it took off the free list. */
  function Fill(f: Files, o: nat, key: string, data: string, next: nat): Files
    requires o in f.recs
  {
    WriteIdx(WriteDat(f, f.recs[o].datoff, data), o, f.recs[o].(key := key), next)
  }

  // ----- the shape each write leads to -----

  /** The lists after element i of list c was moved to the front of list b. */
  function MovedPaths(paths: seq<seq<nat>>, c: nat, i: nat, b: nat): (r: seq<seq<nat>>)
    requires c < |paths| && b < |paths| && b != c && 0 < i < |paths[c]| && |paths[b]| > 0
    ensures |r| == |paths| && r[c] == Without(paths[c], i) && r[b] == PushFront(paths[b], paths[c][i])
    ensures forall d :: 0 <= d < |paths| && d != b && d != c ==> r[d] == paths[d]
  {
    paths[c := Without(paths[c], i)][b := PushFront(paths[b], paths[c][i])]
  }

  function DeletedShape(sh: Shape, c: nat, i: nat, key: string): Shape
    requires 0 < c < |sh.paths| && 0 < i < |sh.paths[c]| && |sh.paths[0]| > 0
  {
    sh.(paths := MovedPaths(sh.paths, c, i, 0), place := sh.place[sh.paths[c][i] := 0], at := sh.at - {key})
  }

  function TakenShape(sh: Shape, i: nat, p: nat): Shape
    requires 0 < |sh.paths| && i < |sh.paths[0]|
  {
    sh.(paths := sh.paths[0 := Without(sh.paths[0], i)], place := sh.place[sh.paths[0][i] := PRIVATE + p])
  }

  function LinkedShape(sh: Shape, c: nat, o: nat, key: string): Shape
    requires c < |sh.paths| && |sh.paths[c]| > 0
  {
    sh.(paths := sh.paths[c := PushFront(sh.paths[c], o)], place := sh.place[o := c], at := sh.at[key := o])
  }

  function DatAppendedShape(sh: Shape, d: nat, len: nat, p: nat): Shape {
    sh.(segs := sh.segs[d := len], owner := sh.owner[d := Process(p)])
  }

  function IdxAppendedShape(sh: Shape, o: nat, d: nat, p: nat): Shape {
    sh.(place := sh.place[o := PRIVATE + p], offs := sh.offs + [o], owner := sh.owner[d := Record(o)])
  }

  // ----- lists -----

  /** Whatever follows a list head is a record whose place is that list. */
  lemma Element(ptr: map<nat, nat>, paths: seq<seq<nat>>, place: map<nat, nat>, recs: map<nat, Entry>,
                c: nat, i: nat)
    requires Lists(ptr, paths, place) && Cells(ptr, recs) && c < SLOTS && 0 < i < |paths[c]|
    ensures var o := paths[c][i]; o in recs && o in ptr && o in place && place[o] == c
  {
    var o := paths[c][i];
    assert o in paths[c] && o in ptr;
    if IsSlot(o) {
      var d := o / 7;
      assert paths[d][0] == Slot(d) == o && o in paths[d];
      VisitsOnce(ptr, paths[c], 0, i);
    }
  }

  /** Lists never share a cell. */
  lemma ListsApart(ptr: map<nat, nat>, paths: seq<seq<nat>>, place: map<nat, nat>, c: nat, l: nat)
    requires Lists(ptr, paths, place) && c < SLOTS && l in paths[c]
    ensures forall d :: 0 <= d < SLOTS && d != c ==> l !in paths[d]
    ensures l in place && place[l] == c && l in ptr
  {
  }

  /** When one cell changes lists, or leaves them, only its place changes. */
  lemma PlaceMoved(paths: seq<seq<nat>>, place: map<nat, nat>, paths': seq<seq<nat>>, o: nat, b: nat)
    requires InPlace(paths, place) && |paths'| == SLOTS
    requires forall d, l :: 0 <= d < SLOTS ==> (l in paths'[d] <==> if l == o then d == b else l in paths[d])
    ensures InPlace(paths', place[o := b])
  {
  }

  lemma ListsMove(ptr: map<nat, nat>, paths: seq<seq<nat>>, place: map<nat, nat>, c: nat, i: nat, b: nat)
    requires Lists(ptr, paths, place) && c < SLOTS && b < SLOTS && b != c && 0 < i < |paths[c]|
    ensures paths[c][i] in ptr && paths[b][0] in ptr
    ensures Lists(Moved(ptr, paths[c], i, paths[b]), MovedPaths(paths, c, i, b), place[paths[c][i] := b])
  {
    hide SlotOf;
    var p, q, paths' := paths[c], paths[b], MovedPaths(paths, c, i, b);
    var o := p[i];
    assert p[i] in p && p[i - 1] in p && q[0] in q;
    ListsApart(ptr, paths, place, c, o);
    ListsApart(ptr, paths, place, c, p[i - 1]);
    ListsApart(ptr, paths, place, b, q[0]);
    PathMove(ptr, p, i, q);
    forall d | 0 <= d < SLOTS
      ensures Path(Moved(ptr, p, i, q), paths'[d]) && paths'[d][0] == Slot(d)
    {
      if d != b && d != c { PathMoveFrame(ptr, p, i, q, paths[d]); }
    }
    forall d, l | 0 <= d < SLOTS ensures l in paths'[d] <==> if l == o then d == b else l in paths[d] {
    }
    PlaceMoved(paths, place, paths', o, b);
  }

  lemma ListsPush(ptr: map<nat, nat>, paths: seq<seq<nat>>, place: map<nat, nat>, c: nat, o: nat)
    requires Lists(ptr, paths, place) && c < SLOTS && o in place && place[o] >= SLOTS && o != 0
    ensures Slot(c) in ptr
    ensures Lists(ptr[o := ptr[Slot(c)]][Slot(c) := o], paths[c := PushFront(paths[c], o)], place[o := c])
  {
    var p, paths' := paths[c], paths[c := PushFront(paths[c], o)];
    assert p[0] in p;
    ListsApart(ptr, paths, place, c, p[0]);
    PathPush(ptr, p, o);
    var m1 := ptr[o := ptr[p[0]]];
    forall d | 0 <= d < SLOTS
      ensures Path(m1[p[0] := o], paths'[d]) && paths'[d][0] == Slot(d)
    {
      if d != c {
        PathFrame(ptr, paths[d], o, ptr[p[0]]);
        PathFrame(m1, paths[d], p[0], o);
      }
    }
    forall d, l | 0 <= d < SLOTS ensures l in paths'[d] <==> if l == o then d == c else l in paths[d] {
    }
    PlaceMoved(paths, place, paths', o, c);
  }

  lemma ListsTake(ptr: map<nat, nat>, paths: seq<seq<nat>>, place: map<nat, nat>, c: nat, i: nat, b: nat)
    requires Lists(ptr, paths, place) && c < SLOTS && 0 < i < |paths[c]| && b >= SLOTS
    ensures paths[c][i] in ptr
    ensures Lists(ptr[paths[c][i - 1] := ptr[paths[c][i]]], paths[c := Without(paths[c], i)], place[paths[c][i] := b])
  {
    var p, o, paths' := paths[c], paths[c][i], paths[c := Without(paths[c], i)];
    assert p[i] in p && p[i - 1] in p;
    ListsApart(ptr, paths, place, c, o);
    ListsApart(ptr, paths, place, c, p[i - 1]);
    PathRemove(ptr, p, i);
    forall d | 0 <= d < SLOTS
      ensures Path(ptr[p[i - 1] := ptr[o]], paths'[d]) && paths'[d][0] == Slot(d)
    {
      if d != c { PathFrame(ptr, paths[d], p[i - 1], ptr[o]); }
    }
    forall d, l | 0 <= d < SLOTS ensures l in paths'[d] <==> if l == o then d == b else l in paths[d] {
    }
    PlaceMoved(paths, place, paths', o, b);
  }

  /** Writing a cell that is on no list, new or private. */
  lemma ListsPrivate(ptr: map<nat, nat>, paths: seq<seq<nat>>, place: map<nat, nat>, o: nat, v: nat, b: nat)
    requires Lists(ptr, paths, place) && b >= SLOTS && (o in place ==> place[o] >= SLOTS)
    ensures Lists(ptr[o := v], paths, place[o := b])
  {
    forall d | 0 <= d < SLOTS ensures Path(ptr[o := v], paths[d]) { PathFrame(ptr, paths[d], o, v); }
    forall d, l | 0 <= d < SLOTS ensures l in paths[d] <==> if l == o then d == b else l in paths[d] {
    }
    PlaceMoved(paths, place, paths, o, b);
  }

  // ----- records and data -----

  lemma TilesRewrite(recs: map<nat, Entry>, offs: seq<nat>, idxEnd: nat, o: nat, key: string)
    requires Tiles(recs, offs, idxEnd) && o in recs && |key| == |recs[o].key|
    ensures Tiles(recs[o := recs[o].(key := key)], offs, idxEnd)
  {
    var recs' := recs[o := recs[o].(key := key)];
    RewriteKeepsLength(recs[o], key);
    assert forall x :: x in recs ==> x in recs' && RecLen(recs'[x]) == RecLen(recs[x]);
    forall i | 0 <= i < |offs| ensures Tile(recs', offs, idxEnd, i) { assert Tile(recs, offs, idxEnd, i); }
  }

  /** The records of a file end where the file ends. */
  lemma TilesEnd(recs: map<nat, Entry>, offs: seq<nat>, idxEnd: nat)
    requires Tiles(recs, offs, idxEnd)
    ensures idxEnd !in recs && IDX_BASE <= idxEnd
  {
    hide TextLen;
    if offs != [] { assert Tile(recs, offs, idxEnd, |offs| - 1); }
  }

  lemma TileAppended(recs: map<nat, Entry>, offs: seq<nat>, idxEnd: nat, e: Entry, i: nat)
    requires i <= |offs| && (i < |offs| ==> Tile(recs, offs, idxEnd, i)) && idxEnd !in recs
    ensures Tile(recs[idxEnd := e], offs + [idxEnd], idxEnd + RecLen(e), i)
  {
    hide RecLen;
  }

  lemma TilesAppend(recs: map<nat, Entry>, offs: seq<nat>, idxEnd: nat, e: Entry)
    requires Tiles(recs, offs, idxEnd)
    ensures idxEnd !in recs && IDX_BASE <= idxEnd
    ensures Tiles(recs[idxEnd := e], offs + [idxEnd], idxEnd + RecLen(e))
  {
    hide RecLen;
    TilesEnd(recs, offs, idxEnd);
    var recs', offs', end' := recs[idxEnd := e], offs + [idxEnd], idxEnd + RecLen(e);
    forall i | 0 <= i < |offs'| ensures Tile(recs', offs', end', i) {
      TileAppended(recs, offs, idxEnd, e, i);
    }
    hide Tile;
  }

  lemma WriteRegion(dat: string, segs: map<nat, nat>, d: nat, data: string)
    requires Regions(dat, segs) && d in segs && segs[d] == |data| + 1
    ensures var dat' := Splice(dat, d, data + [NEWLINE]);
            Regions(dat', segs) && Region(dat', segs, d) == data + [NEWLINE]
            && forall x :: x in segs && x != d ==> Region(dat', segs, x) == Region(dat, segs, x)
  {
    var t := data + [NEWLINE];
    var dat' := Splice(dat, d, t);
    SpliceSlices(dat, d, t, d, d);
    forall x | x in segs && x != d
      ensures Region(dat', segs, x) == Region(dat, segs, x) && dat'[x + segs[x] - 1] == NEWLINE
    {
      SpliceSlices(dat, d, t, x, x + segs[x]);
      assert Region(dat', segs, x)[segs[x] - 1] == Region(dat, segs, x)[segs[x] - 1];
    }
    assert dat'[d + segs[d] - 1] == Region(dat', segs, d)[segs[d] - 1];
  }

  lemma PrefixSlice(dat: string, t: string, lo: nat, hi: nat)
    requires lo <= hi <= |dat|
    ensures (dat + t)[lo..hi] == dat[lo..hi]
  {
  }

  /** A region at the end of the file is apart from all others. */
  lemma RegionsAppend(dat: string, segs: map<nat, nat>, t: string)
    requires Regions(dat, segs) && |t| > 0 && t[|t| - 1] == NEWLINE
    ensures |dat| !in segs && Regions(dat + t, segs[|dat| := |t|])
  {
    assert forall d :: d in segs ==> d + segs[d] <= |dat| && (dat + t)[d + segs[d] - 1] == dat[d + segs[d] - 1];
  }

  lemma AppendRegion(dat: string, segs: map<nat, nat>, data: string)
    requires Regions(dat, segs)
    ensures |dat| !in segs
    ensures var dat', segs' := dat + data + [NEWLINE], segs[|dat| := |data| + 1];
            Regions(dat', segs') && Region(dat', segs', |dat|) == data + [NEWLINE]
            && forall x :: x in segs ==> Region(dat', segs', x) == Region(dat, segs, x)
  {
    var t, segs' := data + [NEWLINE], segs[|dat| := |data| + 1];
    assert dat + data + [NEWLINE] == dat + t;
    RegionsAppend(dat, segs, t);
    forall x | x in segs ensures Region(dat + t, segs', x) == Region(dat, segs, x) { RegionStays(dat, segs, t, x); }
    NewRegion(dat, segs', t);
    hide Regions, Region;
  }

  lemma RegionStays(dat: string, segs: map<nat, nat>, t: string, x: nat)
    requires Regions(dat, segs) && x in segs
    ensures Region(dat + t, segs[|dat| := |t|], x) == Region(dat, segs, x)
  {
    assert x + segs[x] <= |dat| && x != |dat|;
    hide Regions;
    PrefixSlice(dat, t, x, x + segs[x]);
  }

  lemma NewRegion(dat: string, segs: map<nat, nat>, t: string)
    requires |dat| in segs && segs[|dat|] == |t|
    ensures Region(dat + t, segs, |dat|) == t
  {
  }

  /** An entry's data is its region less the newline. */
  lemma ContentIsRegion(dat: string, segs: map<nat, nat>, e: Entry)
    requires Regions(dat, segs) && e.datoff in segs && segs[e.datoff] == e.datlen
    ensures Content(dat, e) == Region(dat, segs, e.datoff)[..e.datlen - 1] && |Content(dat, e)| == e.datlen - 1
  {
  }

  /** Overwriting the data of record o changes the data of no other record. */
  lemma WriteContents(dat: string, segs: map<nat, nat>, owner: map<nat, Owner>, recs: map<nat, Entry>,
                      o: nat, data: string)
    requires Regions(dat, segs) && Owned(segs, owner, recs) && o in recs && |data| + 1 == recs[o].datlen
    ensures var dat' := Splice(dat, recs[o].datoff, data + [NEWLINE]);
            Regions(dat', segs) && Content(dat', recs[o]) == data
            && (forall x :: x in recs && x != o ==> Content(dat', recs[x]) == Content(dat, recs[x]))
            && (forall d :: d in segs && d != recs[o].datoff ==> Region(dat', segs, d) == Region(dat, segs, d))
  {
    assert Owns(segs, owner, o, recs[o]);
    var dat' := Splice(dat, recs[o].datoff, data + [NEWLINE]);
    WriteRegion(dat, segs, recs[o].datoff, data);
    ContentIsRegion(dat', segs, recs[o]);
    forall x | x in recs && x != o ensures Content(dat', recs[x]) == Content(dat, recs[x]) {
      assert Owns(segs, owner, x, recs[x]);
      ContentIsRegion(dat, segs, recs[x]);
      ContentIsRegion(dat', segs, recs[x]);
    }
  }

  lemma AppendContents(dat: string, segs: map<nat, nat>, owner: map<nat, Owner>, recs: map<nat, Entry>,
                       data: string)
    requires Regions(dat, segs) && Owned(segs, owner, recs)
    ensures forall x :: x in recs ==> Content(dat + data + [NEWLINE], recs[x]) == Content(dat, recs[x])
  {
    forall x | x in recs ensures Content(dat + data + [NEWLINE], recs[x]) == Content(dat, recs[x]) {
      assert Owns(segs, owner, x, recs[x]);
      ContentIsRegion(dat, segs, recs[x]);
    }
  }

  lemma KeysDelete(recs: map<nat, Entry>, place: map<nat, nat>, at: map<string, nat>, o: nat, b: nat)
    requires Keys(recs, place, at) && o in recs && o in place && 0 < place[o] < SLOTS
    ensures recs[o].key in at && at[recs[o].key] == o && SlotOf(recs[o].key) == place[o]
    ensures Keys(recs[o := recs[o].(key := Blanks(|recs[o].key|))], place[o := 0], at - {recs[o].key})
  {
    assert Holds(recs, place, at[recs[o].key], recs[o].key);
    forall k | k in at && k != recs[o].key
      ensures Holds(recs[o := recs[o].(key := Blanks(|recs[o].key|))], place[o := 0], at[k], k)
    {
      assert Holds(recs, place, at[k], k);
    }
  }

  lemma KeysLink(recs: map<nat, Entry>, place: map<nat, nat>, at: map<string, nat>, o: nat)
    requires Keys(recs, place, at) && o in recs && o in place && place[o] >= SLOTS && recs[o].key !in at
    ensures Keys(recs, place[o := SlotOf(recs[o].key)], at[recs[o].key := o])
  {
    forall k | k in at ensures Holds(recs, place[o := SlotOf(recs[o].key)], at[k], k) {
      assert Holds(recs, place, at[k], k);
    }
  }

  /** A record that is private may say anything. */
  lemma KeysPrivate(recs: map<nat, Entry>, place: map<nat, nat>, at: map<string, nat>, o: nat, e: Entry, b: nat)
    requires Keys(recs, place, at) && b >= SLOTS
    requires o in recs ==> o in place && (place[o] == 0 || place[o] >= SLOTS)
    ensures Keys(recs[o := e], place[o := b], at)
  {
    forall k | k in at ensures Holds(recs[o := e], place[o := b], at[k], k) {
      assert Holds(recs, place, at[k], k);
    }
  }

  /** Rewriting an entry with another key leaves it the owner of the same region. */
  lemma OwnedRewrite(segs: map<nat, nat>, owner: map<nat, Owner>, recs: map<nat, Entry>, o: nat, key: string)
    requires Owned(segs, owner, recs) && o in recs
    ensures Owned(segs, owner, recs[o := recs[o].(key := key)])
  {
    forall x | x in recs ensures Owns(segs, owner, x, recs[o := recs[o].(key := key)][x]) {
      assert Owns(segs, owner, x, recs[x]);
    }
  }

  lemma OwnedAppend(segs: map<nat, nat>, owner: map<nat, Owner>, recs: map<nat, Entry>, d: nat, len: nat, w: Owner)
    requires Owned(segs, owner, recs) && d !in segs
    ensures Owned(segs[d := len], owner[d := w], recs)
  {
    forall x | x in recs ensures Owns(segs[d := len], owner[d := w], x, recs[x]) {
      assert Owns(segs, owner, x, recs[x]);
    }
  }

  lemma OwnedNew(segs: map<nat, nat>, owner: map<nat, Owner>, recs: map<nat, Entry>, o: nat, e: Entry)
    requires Owned(segs, owner, recs) && o !in recs
    requires e.datoff in owner && owner[e.datoff].Process? && segs[e.datoff] == e.datlen
    ensures Owned(segs, owner[e.datoff := Record(o)], recs[o := e])
  {
    forall x | x in recs ensures Owns(segs, owner[e.datoff := Record(o)], x, recs[x]) {
      assert Owns(segs, owner, x, recs[x]);
    }
  }
}
