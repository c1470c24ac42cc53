/**
 * Any number of processes, each with the database open, running fetch, delete and store
 * at once.  A step is what one process does from one lock request to the next.
 */
module DbProtocol {
  import opened Chain
  import opened DbRecord
  import opened Options
  import opened DbFiles
  import opened DbSteps
  import opened Histories
  import Db

  // ----- locks -----

  datatype File = IdxFile | DatFile

  /** A byte range lock; no upper end means to the end of the file, however it grows. */
  datatype Lock = Lock(file: File, lo: nat, hi: Option<nat>, write: bool)

  predicate Overlap(a: Lock, b: Lock) {
    && a.file == b.file
    && (b.hi.Some? ==> a.lo < b.hi.value)
    && (a.hi.Some? ==> b.lo < a.hi.value)
  }

  predicate Conflict(a: Lock, b: Lock) { Overlap(a, b) && (a.write || b.write) }

  function ChainLock(key: string, write: bool): Lock { Lock(IdxFile, ChainOff(key), Some(ChainOff(key) + 1), write) }

  const FREE_LOCK := Lock(IdxFile, FREE_OFF, Some(FREE_OFF + 1), true)
  const IDX_END_LOCK := Lock(IdxFile, (NHASH_DEF + 1) * PTR_SZ + 1, None, true)
  const DAT_END_LOCK := Lock(DatFile, 0, None, true)

  /** The four kinds of range never overlap, and two chain locks do only on the same chain. */
  lemma RangesApart(k: string, k': string, w: bool, w': bool)
    ensures Overlap(ChainLock(k, w), ChainLock(k', w')) <==> SlotOf(k) == SlotOf(k')
    ensures !Overlap(ChainLock(k, w), FREE_LOCK) && !Overlap(ChainLock(k, w), IDX_END_LOCK)
    ensures !Overlap(ChainLock(k, w), DAT_END_LOCK) && !Overlap(FREE_LOCK, IDX_END_LOCK)
    ensures !Overlap(FREE_LOCK, DAT_END_LOCK) && !Overlap(IDX_END_LOCK, DAT_END_LOCK)
  {
    hide Hash;
    assert ChainOff(k) == Slot(SlotOf(k)) && ChainOff(k') == Slot(SlotOf(k'));
  }

  // ----- processes -----

  datatype Op = Fetch(key: string) | Delete(key: string) | Store(key: string, data: string, flag: int)

  datatype Result = Fetched(data: Option<string>) | Code(rc: int)

  /** Where a process is, with what it remembers from the segments before. */
  datatype Pc =
    | Idle
    | Begin                                                       // about to ask for the chain lock
    | WantFreeToDelete(o: nat, ptroff: nat, saveptr: nat, i: nat) // found at element i of the chain
    | Deleted                                                     // the record is on the free list
    | WantFreeToReuse(next: nat)                                  // not found
    | Took(o: nat, next: nat)                                     // o came off the free list
    | TookNone(next: nat)
    | WantDatEnd(next: nat)
    | DatWritten(d: nat, next: nat)
    | WantIdxEnd(d: nat, next: nat)
    | IdxWritten(o: nat)
    | Done(res: Result)

  /** replaced is the data a store has taken out of the files and not yet replaced. */
  datatype Proc = Proc(op: Op, pc: Pc, held: set<Lock>, replaced: Option<string>)

  /** The files, their shape, the map the processes agree on, and the processes. */
  datatype State = State(f: Files, sh: Shape, m: map<string, string>, procs: seq<Proc>)

  /** What an operation does to the map when it runs alone. */
  function Spec(m: map<string, string>, op: Op): (map<string, string>, Result) {
    match op
    case Fetch(k) => (m, Fetched(if k in m then Some(m[k]) else None))
    case Delete(k) => (m - {k}, Code(if k in m then 0 else -1))
    case Store(k, d, flag) => var (m', rc) := Db.StoreSpec(m, k, d, flag); (m', Code(rc))
  }

  predicate Writes(op: Op) { !op.Fetch? }

  predicate ValidOp(op: Op) { op.Store? ==> op.flag in {Db.DB_INSERT, Db.DB_REPLACE, Db.DB_STORE} }

  // ----- steps -----

  /** A lock is granted when no other process holds a conflicting one. */
  predicate Granted(s: State, p: nat, l: Lock) {
    forall q, k :: 0 <= q < |s.procs| && q != p && k in s.procs[q].held ==> !Conflict(k, l)
  }

  /** A walk along a list stops at its first element that fits, or at its end: i == 0. */
  ghost predicate Stops(path: seq<nat>, fits: nat -> bool, i: nat) {
    && i < |path|
    && (i > 0 ==> fits(path[i]))
    && (forall j :: 0 < j < (if i == 0 then |path| else i) ==> !fits(path[j]))
  }

  function HasKey(f: Files, key: string): nat -> bool { o => o in f.recs && f.recs[o].key == key }

  function HasSizes(f: Files, keylen: nat, datlen: nat): nat -> bool {
    o => o in f.recs && |f.recs[o].key| == keylen && f.recs[o].datlen == datlen
  }

  /** The lock a process is asking for, if it is. */
  function Wanted(pr: Proc): Option<Lock> {
    match pr.pc
    case Begin => Some(ChainLock(pr.op.key, Writes(pr.op)))
    case WantFreeToDelete(_, _, _, _) => Some(FREE_LOCK)
    case WantFreeToReuse(_) => Some(FREE_LOCK)
    case WantDatEnd(_) => Some(DAT_END_LOCK)
    case WantIdxEnd(_, _) => Some(IDX_END_LOCK)
    case _ => None
  }

  datatype Action = Invoke(op: Op) | Go(i: nat)

  ghost predicate Enabled(s: State, p: nat, a: Action) {
    && p < |s.procs|
    && var pr := s.procs[p];
    match a
    case Invoke(op) => pr.pc.Idle? && ValidOp(op)
    case Go(i) =>
      && !pr.pc.Idle? && Defined(s.f, s.sh, pr)
      && (Wanted(pr).Some? ==> Granted(s, p, Wanted(pr).value))
      && (pr.pc.Begin? ==> Stops(s.sh.paths[SlotOf(pr.op.key)], HasKey(s.f, pr.op.key), i))
      && (pr.pc.WantFreeToReuse? ==> Stops(s.sh.paths[0], HasSizes(s.f, |pr.op.key|, |pr.op.data| + 1), i))
  }

  /** The records and lists the next segment of a process names exist. */
  predicate Defined(f: Files, sh: Shape, pr: Proc) {
    && |sh.paths| == SLOTS && |sh.paths[0]| > 0 && |sh.paths[SlotOf(pr.op.key)]| > 0
    && match pr.pc
       case WantFreeToDelete(o, _, _, i) => 0 < i < |sh.paths[SlotOf(pr.op.key)]| && o in f.recs
       case Took(o, _) => pr.op.Store? && o in f.recs
       case WantFreeToReuse(_) => pr.op.Store?
       case TookNone(_) => pr.op.Store?
       case WantDatEnd(_) => pr.op.Store?
       case DatWritten(_, _) => pr.op.Store?
       case WantIdxEnd(_, _) => pr.op.Store?
       case IdxWritten(_) => pr.op.Store?
       case _ => true
  }

  /** What a process leaves behind: the files, their shape, the map and itself. */
  datatype Outcome = Outcome(f: Files, sh: Shape, m: map<string, string>, pr: Proc)

  function Become(s: State, pr: Proc, pc: Pc, held: set<Lock>): Outcome {
    Outcome(s.f, s.sh, s.m, pr.(pc := pc, held := held))
  }

  /** The walk along the chain, up to the next request; o is the record it found. */
  ghost function AfterWalk(s: State, pr: Proc, i: nat): Outcome
    requires |s.sh.paths| == SLOTS && i < |s.sh.paths[SlotOf(pr.op.key)]|
    requires i > 0 ==> s.sh.paths[SlotOf(pr.op.key)][i] in s.f.recs
  {
    var held := {ChainLock(pr.op.key, Writes(pr.op))};
    var path := s.sh.paths[SlotOf(pr.op.key)];
    match pr.op
    case Fetch(_) =>
      Become(s, pr, Done(Fetched(if i == 0 then None else Some(Content(s.f.dat, s.f.recs[path[i]])))), held)
    case Delete(_) =>
      if i == 0 then Become(s, pr, Done(Code(-1)), held)
      else Become(s, pr, WantFreeToDelete(path[i], path[i - 1], At(s.f.ptr, path[i]), i), held)
    case Store(key, data, flag) =>
      if i == 0 then
        if flag == Db.DB_REPLACE then Become(s, pr, Done(Code(-1)), held)
        else Become(s, pr, WantFreeToReuse(At(s.f.ptr, ChainOff(key))), held)
      else if flag == Db.DB_INSERT then Become(s, pr, Done(Code(1)), held)
      else if s.f.recs[path[i]].datlen != |data| + 1 then
        Become(s, pr, WantFreeToDelete(path[i], path[i - 1], At(s.f.ptr, path[i]), i), held)
      else
        Outcome(WriteDat(s.f, s.f.recs[path[i]].datoff, data), s.sh, s.m[key := data],
                pr.(pc := Done(Code(0)), held := held))
  }

  /** What process p does from where it is to its next lock request or release. */
  ghost function After(s: State, p: nat, i: nat): Outcome
    requires Enabled(s, p, Go(i))
  {
    var pr := s.procs[p];
    var key, c := pr.op.key, SlotOf(pr.op.key);
    match pr.pc
    case Begin => AfterWalk(s, pr, i)
    case WantFreeToDelete(o, ptroff, saveptr, j) =>
      Outcome(DoDelete(s.f, o, ptroff, saveptr), DeletedShape(s.sh, c, j, key),
              if pr.op.Delete? then s.m - {key} else s.m,
              pr.(pc := Deleted, held := pr.held + {FREE_LOCK},
                  replaced := if pr.op.Delete? then None else Some(Content(s.f.dat, s.f.recs[o]))))
    case Deleted =>
      Become(s, pr, if pr.op.Delete? then Done(Code(0)) else WantDatEnd(At(s.f.ptr, ChainOff(key))),
             pr.held - {FREE_LOCK})
    case WantFreeToReuse(next) =>
      if i == 0 then Become(s, pr, TookNone(next), pr.held + {FREE_LOCK})
      else
        var o := s.sh.paths[0][i];
        Outcome(WritePtr(s.f, s.sh.paths[0][i - 1], At(s.f.ptr, o)), TakenShape(s.sh, i, p), s.m,
                pr.(pc := Took(o, next), held := pr.held + {FREE_LOCK}))
    case Took(o, next) =>
      Outcome(WritePtr(Fill(s.f, o, key, pr.op.data, next), ChainOff(key), o), LinkedShape(s.sh, c, o, key),
              s.m[key := pr.op.data], pr.(pc := Done(Code(0)), held := pr.held - {FREE_LOCK}))
    case TookNone(next) => Become(s, pr, WantDatEnd(next), pr.held - {FREE_LOCK})
    case WantDatEnd(next) =>
      Outcome(AppendDat(s.f, pr.op.data), DatAppendedShape(s.sh, |s.f.dat|, |pr.op.data| + 1, p), s.m,
              pr.(pc := DatWritten(|s.f.dat|, next), held := pr.held + {DAT_END_LOCK}))
    case DatWritten(d, next) => Become(s, pr, WantIdxEnd(d, next), pr.held - {DAT_END_LOCK})
    case WantIdxEnd(d, next) =>
      Outcome(AppendIdx(s.f, Entry(key, d, |pr.op.data| + 1), next), IdxAppendedShape(s.sh, s.f.idxEnd, d, p), s.m,
              pr.(pc := IdxWritten(s.f.idxEnd), held := pr.held + {IDX_END_LOCK}))
    case IdxWritten(o) =>
      Outcome(WritePtr(s.f, ChainOff(key), o), LinkedShape(s.sh, c, o, key), s.m[key := pr.op.data],
              pr.(pc := Done(Code(0)), held := pr.held - {IDX_END_LOCK}, replaced := None))
    case Done(res) => Become(s, pr, Idle, {})
  }

  ghost function Next(s: State, p: nat, a: Action): State
    requires Enabled(s, p, a)
  {
    match a
    case Invoke(op) => s.(procs := s.procs[p := Proc(op, Begin, {}, None)])
    case Go(i) =>
      var r := After(s, p, i);
      State(r.f, r.sh, r.m, s.procs[p := r.pr])
  }

  // ----- the invariant -----

  /** What process p may take for granted where it is. */
  ghost predicate ProcOk(f: Files, sh: Shape, p: nat, pr: Proc) {
    var key, c := pr.op.key, SlotOf(pr.op.key);
    (pr.pc.Idle? || ValidOp(pr.op)) &&
    match pr.pc
    case Idle => pr.replaced.None?
    case Begin => pr.replaced.None?
    case WantFreeToDelete(o, ptroff, saveptr, i) =>
      && Writes(pr.op) && pr.replaced.None? && |sh.paths| == SLOTS && |sh.paths[0]| > 0
      && 0 < i < |sh.paths[c]| && sh.paths[c][i] == o && sh.paths[c][i - 1] == ptroff
      && o in f.recs && f.recs[o].key == key && At(f.ptr, o) == saveptr
      && (pr.op.Store? ==> pr.op.flag != Db.DB_INSERT)
    case Deleted =>
      if pr.op.Store? then Inserting(f, sh, pr) && pr.replaced.Some? else pr.op.Delete? && pr.replaced.None?
    case WantFreeToReuse(next) => Inserting(f, sh, pr) && pr.replaced.None? && At(f.ptr, Slot(c)) == next
    case Took(o, next) =>
      && Inserting(f, sh, pr) && pr.replaced.None? && At(f.ptr, Slot(c)) == next
      && o in f.recs && o in sh.place && sh.place[o] == PRIVATE + p && f.recs[o].datlen == |pr.op.data| + 1
      && |f.recs[o].key| == |key|
    case TookNone(next) => Inserting(f, sh, pr) && At(f.ptr, Slot(c)) == next
    case WantDatEnd(next) => Inserting(f, sh, pr) && At(f.ptr, Slot(c)) == next
    case DatWritten(d, next) => Inserting(f, sh, pr) && At(f.ptr, Slot(c)) == next && HasData(f, sh, p, d, pr.op.data)
    case WantIdxEnd(d, next) => Inserting(f, sh, pr) && At(f.ptr, Slot(c)) == next && HasData(f, sh, p, d, pr.op.data)
    case IdxWritten(o) =>
      && Inserting(f, sh, pr) && o in f.recs && o in sh.place && sh.place[o] == PRIVATE + p
      && f.recs[o].key == key && Content(f.dat, f.recs[o]) == pr.op.data && At(f.ptr, o) == At(f.ptr, Slot(c))
    case Done(_) => pr.replaced.None?
  }

  /** A store whose key is on no chain, and which will put it there. */
  ghost predicate Inserting(f: Files, sh: Shape, pr: Proc) {
    && pr.op.Store? && pr.op.key !in sh.at && |sh.paths| == SLOTS && |sh.paths[SlotOf(pr.op.key)]| > 0
    && (if pr.replaced.Some? then pr.op.flag != Db.DB_INSERT else pr.op.flag != Db.DB_REPLACE)
  }

  /** The data region at d holds this process's data and is nobody else's. */
  ghost predicate HasData(f: Files, sh: Shape, p: nat, d: nat, data: string) {
    && d in sh.owner && sh.owner[d] == Process(p) && d in sh.segs && sh.segs[d] == |data| + 1
    && Region(f.dat, sh.segs, d) == data + [NEWLINE]
  }

  /** The locks a process holds are those of its place in the code. */
  function HeldBy(pr: Proc): set<Lock> {
    if !Locked(pr) then {}
    else if pr.pc.Deleted? || pr.pc.Took? || pr.pc.TookNone? then {ChainLock(pr.op.key, Writes(pr.op)), FREE_LOCK}
    else if pr.pc.DatWritten? then {ChainLock(pr.op.key, Writes(pr.op)), DAT_END_LOCK}
    else if pr.pc.IdxWritten? then {ChainLock(pr.op.key, Writes(pr.op)), IDX_END_LOCK}
    else {ChainLock(pr.op.key, Writes(pr.op))}
  }

  /** From its first lock to its last unlock a process has its chain locked. */
  predicate Locked(pr: Proc) { !pr.pc.Idle? && !pr.pc.Begin? }

  ghost predicate LocksOk(procs: seq<Proc>) {
    && (forall p :: 0 <= p < |procs| ==> procs[p].held == HeldBy(procs[p]))
    && (forall p, q :: 0 <= p < |procs| && 0 <= q < |procs| && p != q ==> Exclude(procs[p], procs[q]))
  }

  predicate Exclude(a: Proc, b: Proc) { forall k, l :: k in a.held && l in b.held ==> !Conflict(k, l) }

  /** A record on no list is in the hands of exactly the process its place names. */
  ghost predicate PrivateOk(place: map<nat, nat>, procs: seq<Proc>) {
    forall o :: o in place && place[o] >= PRIVATE ==> InHand(procs, place[o] - PRIVATE, o)
  }

  ghost predicate InHand(procs: seq<Proc>, p: nat, o: nat) {
    p < |procs| && (procs[p].pc.Took? || procs[p].pc.IdxWritten?) && procs[p].pc.o == o
  }

  /** The map is what the files hold, but for keys in the middle of a replacement. */
  ghost predicate MapOk(s: State) {
    && (forall k :: k in s.sh.at ==> k in s.m && s.m[k] == Contents(s.f, s.sh)[k])
    && (forall k :: k in s.m ==> k in s.sh.at || exists p :: Replaces(s.procs, p, k))
    && (forall p :: 0 <= p < |s.procs| && s.procs[p].replaced.Some? ==>
          s.procs[p].op.key in s.m && s.m[s.procs[p].op.key] == s.procs[p].replaced.value)
  }

  ghost predicate Replaces(procs: seq<Proc>, p: nat, k: string) {
    p < |procs| && procs[p].replaced.Some? && procs[p].op.key == k
  }

  ghost predicate Inv(s: State) {
    && WF(s.f, s.sh)
    && (forall p :: 0 <= p < |s.procs| ==> ProcOk(s.f, s.sh, p, s.procs[p]))
    && LocksOk(s.procs)
    && PrivateOk(s.sh.place, s.procs)
    && MapOk(s)
  }

  // ----- what the other processes keep -----

  /** A step under another chain's lock takes nothing from what a process relies on. */
  lemma Undisturbed(f: Files, sh: Shape, f': Files, sh': Shape, c: nat, p: nat, q: nat, pr: Proc)
    requires WF(f, sh) && WF(f', sh') && LeavesAlone(f, sh, f', sh', c, p) && q != p && c < SLOTS
    requires ProcOk(f, sh, q, pr) && (Locked(pr) ==> SlotOf(pr.op.key) != c)
    ensures ProcOk(f', sh', q, pr)
  {
    hide WF, Hash, Region, Content;
    var key, d := pr.op.key, SlotOf(pr.op.key);
    if Locked(pr) {
      PathsSame(f, sh, f', sh', c, p, d);
      assert SameKey(sh.at, sh'.at, key);
      if pr.pc.WantFreeToDelete? { ListNext(f, sh, d, pr.pc.i); }
    }
  }

  lemma PathsSame(f: Files, sh: Shape, f': Files, sh': Shape, c: nat, p: nat, d: nat)
    requires WF(f, sh) && WF(f', sh') && LeavesAlone(f, sh, f', sh', c, p) && 0 < d < SLOTS && d != c
    ensures |sh.paths| == |sh'.paths| == SLOTS && |sh.paths[d]| > 0 && |sh'.paths[0]| > 0
    ensures sh'.paths[d] == sh.paths[d] && At(f'.ptr, Slot(d)) == At(f.ptr, Slot(d))
  {
    hide WF, Hash, SameRecord, SameKey, SameRegion;
    Db.PathsCount(f, sh, d);
    Db.PathsCount(f', sh', d);
    Db.PathsCount(f', sh', 0);
    ListNext(f, sh, d, 0);
    ListNext(f', sh', d, 0);
  }

  /** Two processes never have the same chain locked when one of them is writing. */
  lemma Excluded(procs: seq<Proc>, p: nat, q: nat)
    requires LocksOk(procs) && p < |procs| && q < |procs| && p != q
    requires Locked(procs[p]) && Locked(procs[q]) && Writes(procs[p].op)
    ensures SlotOf(procs[q].op.key) != SlotOf(procs[p].op.key)
  {
    hide Hash, Conflict, ChainOff;
    var k, l := ChainLock(procs[p].op.key, Writes(procs[p].op)), ChainLock(procs[q].op.key, Writes(procs[q].op));
    assert k in procs[p].held && l in procs[q].held;
    assert Exclude(procs[p], procs[q]);
    RangesApart(procs[p].op.key, procs[q].op.key, Writes(procs[p].op), Writes(procs[q].op));
    assert !Conflict(k, l);
    NoConflict(k, l);
  }

  lemma NoConflict(k: Lock, l: Lock)
    requires !Conflict(k, l) && (k.write || l.write)
    ensures !Overlap(k, l)
  {
  }

  /** The same at the moment a lock on a chain is granted. */
  lemma ExcludedByGrant(s: State, p: nat, q: nat)
    requires LocksOk(s.procs) && p < |s.procs| && q < |s.procs| && p != q && Locked(s.procs[q])
    requires Writes(s.procs[p].op) || Writes(s.procs[q].op)
    requires Granted(s, p, ChainLock(s.procs[p].op.key, Writes(s.procs[p].op)))
    ensures SlotOf(s.procs[q].op.key) != SlotOf(s.procs[p].op.key)
  {
    hide Hash, Conflict, ChainOff;
    var k := ChainLock(s.procs[q].op.key, Writes(s.procs[q].op));
    var l := ChainLock(s.procs[p].op.key, Writes(s.procs[p].op));
    assert k in s.procs[q].held && !Conflict(k, l);
    RangesApart(s.procs[q].op.key, s.procs[p].op.key, Writes(s.procs[q].op), Writes(s.procs[p].op));
    NoConflict(k, l);
  }

  /** Releasing locks, or adding one that was granted, keeps the locks exclusive. */
  lemma LocksStep(s: State, p: nat, pr: Proc, l: Option<Lock>)
    requires LocksOk(s.procs) && p < |s.procs| && pr.held == HeldBy(pr)
    requires forall k :: k in pr.held ==> k in s.procs[p].held || Some(k) == l
    requires l.Some? ==> Granted(s, p, l.value)
    ensures LocksOk(s.procs[p := pr])
  {
    hide Conflict, HeldBy;
    var procs := s.procs[p := pr];
    forall a, b | 0 <= a < |procs| && 0 <= b < |procs| && a != b ensures Exclude(procs[a], procs[b]) {
      assert Exclude(s.procs[a], s.procs[b]) && Exclude(s.procs[b], s.procs[a]);
      forall k, h | k in procs[a].held && h in procs[b].held ensures !Conflict(k, h) {
        Symmetric(k, h);
      }
    }
  }

  lemma Symmetric(k: Lock, l: Lock)
    ensures Conflict(k, l) <==> Conflict(l, k)
  {
  }

  /** A step that changes files ends in a good state if its own part is good. */
  lemma Conclude(s: State, p: nat, r: Outcome, s': State, c: nat)
    requires Inv(s) && p < |s.procs| && s' == State(r.f, r.sh, r.m, s.procs[p := r.pr]) && c < SLOTS
    requires WF(r.f, r.sh) && ProcOk(r.f, r.sh, p, r.pr) && LeavesAlone(s.f, s.sh, r.f, r.sh, c, p)
    requires forall q :: 0 <= q < |s.procs| && q != p && Locked(s.procs[q]) ==> SlotOf(s.procs[q].op.key) != c
    requires LocksOk(s'.procs) && PrivateOk(s'.sh.place, s'.procs) && MapOk(s')
    ensures Inv(s')
  {
    hide WF, LeavesAlone, LocksOk, PrivateOk, MapOk, ProcOk, Hash;
    forall q | 0 <= q < |s'.procs| ensures ProcOk(s'.f, s'.sh, q, s'.procs[q]) {
      if q != p {
        assert ProcOk(s.f, s.sh, q, s.procs[q]);
        Undisturbed(s.f, s.sh, r.f, r.sh, c, p, q, s.procs[q]);
      }
    }
  }

  /** A step that only moves its process on. */
  lemma ConcludeQuiet(s: State, p: nat, pr: Proc, l: Option<Lock>)
    requires Inv(s) && p < |s.procs| && ProcOk(s.f, s.sh, p, pr)
    requires pr.held == HeldBy(pr) && (forall k :: k in pr.held ==> k in s.procs[p].held || Some(k) == l)
    requires l.Some? ==> Granted(s, p, l.value)
    requires pr.replaced == s.procs[p].replaced && (pr.replaced.Some? ==> pr.op.key == s.procs[p].op.key)
    requires !s.procs[p].pc.Took? && !s.procs[p].pc.IdxWritten?
    ensures Inv(s.(procs := s.procs[p := pr]))
  {
    hide WF, LocksOk, ProcOk, Hash, HeldBy, Contents;
    LocksStep(s, p, pr, l);
    var s' := s.(procs := s.procs[p := pr]);
    forall o | o in s.sh.place && s.sh.place[o] >= PRIVATE ensures InHand(s'.procs, s.sh.place[o] - PRIVATE, o) {
      assert InHand(s.procs, s.sh.place[o] - PRIVATE, o);
    }
    forall k | k in s.m && k !in s.sh.at ensures exists q :: Replaces(s'.procs, q, k) {
      var q :| Replaces(s.procs, q, k);
      assert Replaces(s'.procs, q, k);
    }
  }

  // ----- every step keeps the invariant and refines the map -----

  /** The result an operation is bound to return, once it has taken effect. */
  function Verdict(pr: Proc): Option<Result> {
    match pr.pc
    case Done(res) => Some(res)
    case Deleted => if pr.op.Delete? then Some(Code(0)) else None
    case _ => None
  }

  /** Either the operation takes effect now, just as if it ran alone, or the map stands still. */
  ghost predicate Refines(s: State, p: nat, s': State)
    requires p < |s.procs| && p < |s'.procs|
  {
    var pr, pr' := s.procs[p], s'.procs[p];
    if Verdict(pr).None? && Verdict(pr').Some? then pr'.op == pr.op && (s'.m, Verdict(pr').value) == Spec(s.m, pr.op)
    else s'.m == s.m && (Verdict(pr').Some? ==> pr'.op == pr.op && Verdict(pr') == Verdict(pr))
  }

  /** A key nobody is replacing is in the map exactly when it is in the files. */
  lemma MapHasKey(s: State, key: string)
    requires Inv(s) && forall q :: !Replaces(s.procs, q, key)
    ensures key in s.m <==> key in s.sh.at
    ensures key in s.sh.at ==> s.m[key] == Contents(s.f, s.sh)[key]
  {
    hide WF, ProcOk, LocksOk, PrivateOk, Contents;
  }

  /** Nobody replaces a key while another process has its chain. */
  lemma NotReplaced(s: State, p: nat)
    requires Inv(s) && p < |s.procs| && s.procs[p].replaced.None?
    requires if Locked(s.procs[p]) then Writes(s.procs[p].op)
             else Granted(s, p, ChainLock(s.procs[p].op.key, Writes(s.procs[p].op)))
    ensures forall q :: !Replaces(s.procs, q, s.procs[p].op.key)
  {
    hide WF, LocksOk, PrivateOk, MapOk, Hash, Granted;
    forall q | 0 <= q < |s.procs| && s.procs[q].replaced.Some? ensures s.procs[q].op.key != s.procs[p].op.key {
      assert ProcOk(s.f, s.sh, q, s.procs[q]);
      assert Locked(s.procs[q]) && Writes(s.procs[q].op);
      if Locked(s.procs[p]) { Excluded(s.procs, p, q); } else { ExcludedByGrant(s, p, q); }
    }
  }

  /** What a walk along the key's own chain has found out. */
  lemma WalkedChain(f: Files, sh: Shape, key: string, i: nat)
    requires WF(f, sh) && |sh.paths| == SLOTS && Stops(sh.paths[SlotOf(key)], HasKey(f, key), i)
    ensures if i == 0 then key !in sh.at
            else key in sh.at && sh.paths[SlotOf(key)][i] == sh.at[key] && sh.at[key] in f.recs
                 && f.recs[sh.at[key]].key == key && sh.place[sh.at[key]] == SlotOf(key)
    ensures key in sh.at ==> key in Contents(f, sh) && sh.at[key] in f.recs
                             && Contents(f, sh)[key] == Content(f.dat, f.recs[sh.at[key]])
  {
    hide WF, Hash, Content;
    KeyOnChain(f, sh, key);
    var path := sh.paths[SlotOf(key)];
    if i > 0 {
      ListNext(f, sh, SlotOf(key), i);
      FoundIsAt(f, sh, path[i]);
    } else {
      assert forall j :: 0 < j < |path| ==> !HasKey(f, key)(path[j]);
    }
  }

  lemma StepBegin(s: State, p: nat, i: nat)
    requires Inv(s) && Enabled(s, p, Go(i)) && s.procs[p].pc.Begin?
    ensures Inv(Next(s, p, Go(i))) && Refines(s, p, Next(s, p, Go(i)))
  {
    hide Splice, WriteDat, ChainLock, HasData, Conflict, ProcOk, Refines, HeldBy, AfterWalk;
    hide WF, Hash, Content, Contents, LocksOk, PrivateOk, MapOk, Granted, Stops, LeavesAlone;
    var pr := s.procs[p];
    var key, c := pr.op.key, SlotOf(pr.op.key);
    assert Granted(s, p, ChainLock(key, Writes(pr.op)));
    BeginIs(s, p);
    NotReplaced(s, p);
    MapHasKey(s, key);
    WalkedChain(s.f, s.sh, key, i);
    Db.PathsCount(s.f, s.sh, 0);
    Db.PathsCount(s.f, s.sh, c);
    StopsInside(s.sh.paths[c], HasKey(s.f, key), i);
    var r := AfterWalk(s, pr, i);
    assert Next(s, p, Go(i)) == State(r.f, r.sh, r.m, s.procs[p := r.pr]);
    if i > 0 { RecordFacts(s.f, s.sh, s.sh.at[key]); }
    BeginDoes(s, p, i, r);
    if r.f == s.f && r.m == s.m {
      ConcludeQuiet(s, p, r.pr, Some(ChainLock(key, Writes(pr.op))));
    } else {
      StepOverwrite(s, p, s.sh.at[key], r, Next(s, p, Go(i)));
    }
  }

  lemma BeginIs(s: State, p: nat)
    requires p < |s.procs| && s.procs[p].pc.Begin? && Inv(s)
    ensures ValidOp(s.procs[p].op) && s.procs[p].replaced.None? && ProcOk(s.f, s.sh, p, s.procs[p])
  {
    hide WF, Hash, Contents, LocksOk, PrivateOk, MapOk;
    assert ProcOk(s.f, s.sh, p, s.procs[p]);
  }

  /** What comes of the walk along the chain of a key that nobody is replacing. */
  lemma BeginDoes(s: State, p: nat, i: nat, r: Outcome)
    requires p < |s.procs| && s.procs[p].pc.Begin? && ValidOp(s.procs[p].op) && s.procs[p].replaced.None?
    requires |s.sh.paths| == SLOTS && |s.sh.paths[0]| > 0 && i < |s.sh.paths[SlotOf(s.procs[p].op.key)]|
    requires var key, path := s.procs[p].op.key, s.sh.paths[SlotOf(s.procs[p].op.key)];
             && (key in s.m <==> key in s.sh.at) && (i == 0 <==> key !in s.sh.at)
             && (i > 0 ==> (path[i] == s.sh.at[key] && path[i] in s.f.recs && s.f.recs[path[i]].key == key
                            && s.m[key] == Content(s.f.dat, s.f.recs[path[i]])))
    requires r == AfterWalk(s, s.procs[p], i)
    ensures var pr := s.procs[p];
            && r.sh == s.sh && r.pr.held == {ChainLock(pr.op.key, Writes(pr.op))} && r.pr.held == HeldBy(r.pr)
            && r.pr.op == pr.op && r.pr.replaced.None? && ProcOk(s.f, s.sh, p, r.pr)
            && Refines(s, p, State(r.f, r.sh, r.m, s.procs[p := r.pr]))
            && ((r.f == s.f && r.m == s.m)
                || (pr.op.Store? && i > 0 && s.f.recs[s.sh.at[pr.op.key]].datlen == |pr.op.data| + 1
                    && r == Outcome(WriteDat(s.f, s.f.recs[s.sh.at[pr.op.key]].datoff, pr.op.data), s.sh,
                                    s.m[pr.op.key := pr.op.data],
                                    pr.(pc := Done(Code(0)), held := {ChainLock(pr.op.key, true)}))))
  {
    hide Splice, WriteDat, ChainLock, HasData, Content, Hash;
    var key := s.procs[p].op.key;
    assert key !in s.m ==> s.m - {key} == s.m;
  }

  lemma StopsInside(path: seq<nat>, fits: nat -> bool, i: nat)
    requires Stops(path, fits, i)
    ensures i < |path|
  {
  }

  /** The store that overwrites data of the same length. */
  lemma StepOverwrite(s: State, p: nat, o: nat, r: Outcome, s': State)
    requires Inv(s) && p < |s.procs| && s.procs[p].pc.Begin? && s.procs[p].op.Store?
    requires Granted(s, p, ChainLock(s.procs[p].op.key, true))
    requires var pr := s.procs[p];
             o in s.f.recs && o in s.sh.place && s.sh.place[o] == SlotOf(pr.op.key) && s.f.recs[o].key == pr.op.key
             && s.f.recs[o].datlen == |pr.op.data| + 1
             && r == Outcome(WriteDat(s.f, s.f.recs[o].datoff, pr.op.data), s.sh, s.m[pr.op.key := pr.op.data],
                             pr.(pc := Done(Code(0)), held := {ChainLock(pr.op.key, true)}))
    requires s' == State(r.f, r.sh, r.m, s.procs[p := r.pr])
    ensures Inv(s')
  {
    hide WF, Hash, Content, Contents, PrivateOk, LeavesAlone, LocksOk, MapOk, Granted;
    var pr := s.procs[p];
    var key, c := pr.op.key, SlotOf(pr.op.key);
    assert ProcOk(s.f, s.sh, p, pr);
    NotReplaced(s, p);
    OverwriteStep(s.f, s.sh, o, pr.op.data, c, p, r.f);
    LocksStep(s, p, r.pr, Some(ChainLock(key, true)));
    PrivateKept(s.sh.place, s.procs, p, r.pr);
    MapMoved(s, s', p, r.pr, key, pr.op.data);
    forall q | 0 <= q < |s.procs| && q != p && Locked(s.procs[q]) ensures SlotOf(s.procs[q].op.key) != c {
      ExcludedByGrant(s, p, q);
    }
    Conclude(s, p, r, s', c);
  }

  lemma PrivateKept(place: map<nat, nat>, procs: seq<Proc>, p: nat, pr: Proc)
    requires PrivateOk(place, procs) && p < |procs| && !procs[p].pc.Took? && !procs[p].pc.IdxWritten?
    ensures PrivateOk(place, procs[p := pr])
  {
    forall o | o in place && place[o] >= PRIVATE ensures InHand(procs[p := pr], place[o] - PRIVATE, o) {
      assert InHand(procs, place[o] - PRIVATE, o);
    }
  }

  /** A key put into the files and into the map at once, by the process that had it in hand. */
  lemma MapMoved(s: State, s': State, p: nat, pr: Proc, key: string, data: string)
    requires MapOk(s) && p < |s.procs| && s'.procs == s.procs[p := pr]
    requires s.procs[p].op.key == key && pr.replaced.None?
    requires s'.m == s.m[key := data] && Contents(s'.f, s'.sh) == Contents(s.f, s.sh)[key := data]
    requires forall q :: q != p ==> !Replaces(s.procs, q, key)
    ensures MapOk(s')
  {
    assert forall k :: k in s.sh.at <==> k in Contents(s.f, s.sh);
    assert forall k :: k in s'.sh.at <==> k in Contents(s'.f, s'.sh);
    forall k | k in s'.m && k !in s'.sh.at ensures exists q :: Replaces(s'.procs, q, k) {
      var q :| Replaces(s.procs, q, k);
      assert Replaces(s'.procs, q, k);
    }
    forall q | 0 <= q < |s'.procs| && s'.procs[q].replaced.Some?
      ensures s'.procs[q].op.key in s'.m && s'.m[s'.procs[q].op.key] == s'.procs[q].replaced.value
    {
      assert q != p && !Replaces(s.procs, q, key);
    }
  }

  /** While it has its chain locked for writing, a process is alone with its keys. */
  lemma AloneOnChain(s: State, p: nat)
    requires Inv(s) && p < |s.procs| && Locked(s.procs[p]) && Writes(s.procs[p].op)
    ensures forall q :: 0 <= q < |s.procs| && q != p && Locked(s.procs[q]) ==>
              SlotOf(s.procs[q].op.key) != SlotOf(s.procs[p].op.key)
    ensures forall q :: q != p ==> !Replaces(s.procs, q, s.procs[p].op.key)
  {
    hide WF, LocksOk, PrivateOk, MapOk, Hash;
    forall q | 0 <= q < |s.procs| && q != p && Locked(s.procs[q])
      ensures SlotOf(s.procs[q].op.key) != SlotOf(s.procs[p].op.key)
    {
      Excluded(s.procs, p, q);
    }
    forall q | 0 <= q < |s.procs| && q != p ensures !Replaces(s.procs, q, s.procs[p].op.key) {
      assert ProcOk(s.f, s.sh, q, s.procs[q]);
    }
  }

  /** Moving the found record to the free list: the point where a delete takes effect. */
  lemma StepDelete(s: State, p: nat, r: Outcome, s': State)
    requires Inv(s) && p < |s.procs| && s.procs[p].pc.WantFreeToDelete? && Granted(s, p, FREE_LOCK)
    requires ProcOk(s.f, s.sh, p, s.procs[p])
    requires var pr := s.procs[p];
             r == Outcome(DoDelete(s.f, pr.pc.o, pr.pc.ptroff, pr.pc.saveptr),
                             DeletedShape(s.sh, SlotOf(pr.op.key), pr.pc.i, pr.op.key),
                             if pr.op.Delete? then s.m - {pr.op.key} else s.m,
                             pr.(pc := Deleted, held := pr.held + {FREE_LOCK},
                                 replaced := if pr.op.Delete? then None else Some(Content(s.f.dat, s.f.recs[pr.pc.o]))))
    requires s' == State(r.f, r.sh, r.m, s.procs[p := r.pr])
    ensures Inv(s') && s.procs[p].op.key in s.m
  {
    hide WF, Hash, Content, Contents, PrivateOk, LeavesAlone, LocksOk, MapOk, Granted;
    var pr := s.procs[p];
    var key, c, o := pr.op.key, SlotOf(pr.op.key), pr.pc.o;
    AloneOnChain(s, p);
    ListNext(s.f, s.sh, c, pr.pc.i);
    FoundIsAt(s.f, s.sh, o);
    KeyContents(s.f, s.sh, key);
    Db.PathsCount(s.f, s.sh, 0);
    DeleteStep(s.f, s.sh, c, pr.pc.i, p, r.f, r.sh);
    Db.PathsCount(r.f, r.sh, c);
    HeldIs(s, p);
    LocksStep(s, p, r.pr, Some(FREE_LOCK));
    PrivateMoved(s.sh.place, r.sh.place, s.procs, p, r.pr, o, 0);
    MapDeleted(s, s', p, r.pr, key);
    Conclude(s, p, r, s', c);
  }

  lemma KeyContents(f: Files, sh: Shape, key: string)
    requires WF(f, sh) && key in sh.at
    ensures sh.at[key] in f.recs && key in Contents(f, sh)
    ensures Contents(f, sh)[key] == Content(f.dat, f.recs[sh.at[key]])
  {
    hide WF, Content;
    KeyOnChain(f, sh, key);
  }

  lemma HeldIs(s: State, p: nat)
    requires LocksOk(s.procs) && p < |s.procs|
    ensures s.procs[p].held == HeldBy(s.procs[p])
  {
  }

  /** One record changed places; nobody else had it in hand. */
  lemma PrivateMoved(place: map<nat, nat>, place': map<nat, nat>, procs: seq<Proc>, p: nat, pr: Proc, o: nat, b: nat)
    requires PrivateOk(place, procs) && p < |procs| && place' == place[o := b]
    requires b < PRIVATE || (b == PRIVATE + p && (pr.pc.Took? || pr.pc.IdxWritten?) && pr.pc.o == o)
    requires procs[p].pc.Took? || procs[p].pc.IdxWritten? ==> procs[p].pc.o == o
    ensures PrivateOk(place', procs[p := pr])
  {
    forall x | x in place' && place'[x] >= PRIVATE ensures InHand(procs[p := pr], place'[x] - PRIVATE, x) {
      if x != o { assert InHand(procs, place[x] - PRIVATE, x); }
    }
  }

  lemma MapDeleted(s: State, s': State, p: nat, pr: Proc, key: string)
    requires MapOk(s) && p < |s.procs| && s'.procs == s.procs[p := pr] && s.procs[p].op.key == key && pr.op.key == key
    requires key in s.sh.at && Contents(s'.f, s'.sh) == Contents(s.f, s.sh) - {key}
    requires (pr.replaced == Some(Contents(s.f, s.sh)[key]) && s'.m == s.m)
             || (pr.replaced.None? && s'.m == s.m - {key})
    requires forall q :: q != p ==> !Replaces(s.procs, q, key)
    requires s.procs[p].replaced.None?
    ensures MapOk(s') && key in s.m
  {
    assert forall k :: k in s.sh.at <==> k in Contents(s.f, s.sh);
    assert forall k :: k in s'.sh.at <==> k in Contents(s'.f, s'.sh);
    forall k | k in s'.m && k !in s'.sh.at ensures exists q :: Replaces(s'.procs, q, k) {
      if k == key {
        assert Replaces(s'.procs, p, k);
      } else {
        var q :| Replaces(s.procs, q, k);
        assert Replaces(s'.procs, q, k);
      }
    }
    forall q | 0 <= q < |s'.procs| && s'.procs[q].replaced.Some?
      ensures s'.procs[q].op.key in s'.m && s'.m[s'.procs[q].op.key] == s'.procs[q].replaced.value
    {
      if q != p { assert !Replaces(s.procs, q, key); }
    }
  }

  /** The map and the files move on, but not in what they say. */
  lemma MapStill(s: State, s': State, p: nat, pr: Proc)
    requires MapOk(s) && p < |s.procs| && s'.procs == s.procs[p := pr] && s'.m == s.m
    requires Contents(s'.f, s'.sh) == Contents(s.f, s.sh)
    requires pr.op == s.procs[p].op && pr.replaced == s.procs[p].replaced
    ensures MapOk(s')
  {
    assert forall k :: k in s.sh.at <==> k in Contents(s.f, s.sh);
    assert forall k :: k in s'.sh.at <==> k in Contents(s'.f, s'.sh);
    forall k | k in s'.m && k !in s'.sh.at ensures exists q :: Replaces(s'.procs, q, k) {
      var q :| Replaces(s.procs, q, k);
      assert Replaces(s'.procs, q, k);
    }
  }

  /** Taking a record off the free list. */
  lemma StepTake(s: State, p: nat, key: string, data: string, flag: int, next: nat, i: nat, r: Outcome, s': State)
    requires p < |s.procs| && s.procs[p].op == Store(key, data, flag) && s.procs[p].pc == WantFreeToReuse(next)
    requires |s.sh.paths| > 0 && 0 < i < |s.sh.paths[0]| && HasSizes(s.f, |key|, |data| + 1)(s.sh.paths[0][i])
    requires var pr, o := s.procs[p], s.sh.paths[0][i];
             r == Outcome(WritePtr(s.f, s.sh.paths[0][i - 1], At(s.f.ptr, o)), TakenShape(s.sh, i, p), s.m,
                          pr.(pc := Took(o, next), held := pr.held + {FREE_LOCK}))
    requires s' == State(r.f, r.sh, r.m, s.procs[p := r.pr])
    requires Inv(s) && Granted(s, p, FREE_LOCK)
    ensures Inv(s')
  {
    hide WF, Hash, Content, Contents, PrivateOk, LocksOk, MapOk, Granted;
    var pr, o, c := s.procs[p], s.sh.paths[0][i], SlotOf(key);
    assert ProcOk(s.f, s.sh, p, pr);
    AloneOnChain(s, p);
    TakeStep(s.f, s.sh, i, 0, p, r.f, r.sh);
    hide LeavesAlone;
    PathsSame(s.f, s.sh, r.f, r.sh, 0, p, c);
    HeldIs(s, p);
    LocksStep(s, p, r.pr, Some(FREE_LOCK));
    PrivateMoved(s.sh.place, r.sh.place, s.procs, p, r.pr, o, PRIVATE + p);
    MapStill(s, s', p, r.pr);
    Conclude(s, p, r, s', 0);
  }

  /** Appending the data. */
  lemma StepDatEnd(s: State, p: nat, key: string, data: string, flag: int, next: nat, r: Outcome, s': State)
    requires p < |s.procs| && s.procs[p].op == Store(key, data, flag) && s.procs[p].pc == WantDatEnd(next)
    requires r == Outcome(AppendDat(s.f, data), DatAppendedShape(s.sh, |s.f.dat|, |data| + 1, p), s.m,
                          s.procs[p].(pc := DatWritten(|s.f.dat|, next), held := s.procs[p].held + {DAT_END_LOCK}))
    requires s' == State(r.f, r.sh, r.m, s.procs[p := r.pr])
    requires Inv(s) && Granted(s, p, DAT_END_LOCK)
    ensures Inv(s')
  {
    hide WF, Hash, Content, Contents, PrivateOk, LocksOk, MapOk, Granted, LeavesAlone, Region;
    assert ProcOk(s.f, s.sh, p, s.procs[p]);
    DatAppendStep(s.f, s.sh, data, 0, p, r.f, r.sh);
    HeldIs(s, p);
    LocksStep(s, p, r.pr, Some(DAT_END_LOCK));
    PrivateKept(s.sh.place, s.procs, p, r.pr);
    MapStill(s, s', p, r.pr);
    Conclude(s, p, r, s', 0);
  }

  /** Appending the index record. */
  lemma StepIdxEnd(s: State, p: nat, key: string, data: string, flag: int, d: nat, next: nat, r: Outcome, s': State)
    requires p < |s.procs| && s.procs[p].op == Store(key, data, flag) && s.procs[p].pc == WantIdxEnd(d, next)
    requires r == Outcome(AppendIdx(s.f, Entry(key, d, |data| + 1), next),
                          IdxAppendedShape(s.sh, s.f.idxEnd, d, p), s.m,
                          s.procs[p].(pc := IdxWritten(s.f.idxEnd), held := s.procs[p].held + {IDX_END_LOCK}))
    requires s' == State(r.f, r.sh, r.m, s.procs[p := r.pr])
    requires Inv(s) && Granted(s, p, IDX_END_LOCK)
    ensures Inv(s')
  {
    hide WF, Hash, Content, Contents, PrivateOk, LocksOk, MapOk, Granted, LeavesAlone, Region, RecLen;
    var o, e := s.f.idxEnd, Entry(key, d, |data| + 1);
    assert ProcOk(s.f, s.sh, p, s.procs[p]);
    EndIsNew(s.f, s.sh);
    IdxAppendStep(s.f, s.sh, e, next, 0, p, r.f, r.sh);
    AppendedContent(s.f, s.sh, e, data);
    HeldIs(s, p);
    LocksStep(s, p, r.pr, Some(IDX_END_LOCK));
    PrivateMoved(s.sh.place, r.sh.place, s.procs, p, r.pr, o, PRIVATE + p);
    MapStill(s, s', p, r.pr);
    assert Slot(SlotOf(key)) < IDX_BASE;
    Conclude(s, p, r, s', 0);
  }

  /** Linking the appended record: the point where an appending store takes effect. */
  lemma StepLink(s: State, p: nat, key: string, data: string, flag: int, o: nat, r: Outcome, s': State)
    requires p < |s.procs| && s.procs[p].op == Store(key, data, flag) && s.procs[p].pc == IdxWritten(o)
    requires SlotOf(key) < |s.sh.paths| && |s.sh.paths[SlotOf(key)]| > 0
    requires r == Outcome(WritePtr(s.f, ChainOff(key), o), LinkedShape(s.sh, SlotOf(key), o, key), s.m[key := data],
                          s.procs[p].(pc := Done(Code(0)), held := s.procs[p].held - {IDX_END_LOCK}, replaced := None))
    requires s' == State(r.f, r.sh, r.m, s.procs[p := r.pr])
    requires Inv(s)
    ensures Inv(s')
  {
    hide WF, Hash, Content, Contents, PrivateOk, LocksOk, MapOk, Granted, LeavesAlone, ChainOff, Conflict;
    var pr, c := s.procs[p], SlotOf(key);
    assert ProcOk(s.f, s.sh, p, pr);
    AloneOnChain(s, p);
    LinkStep(s.f, s.sh, o, c, p, r.f, r.sh);
    HeldIs(s, p);
    RangesApart(key, key, true, true);
    LocksStep(s, p, r.pr, None);
    PrivateMoved(s.sh.place, r.sh.place, s.procs, p, r.pr, o, c);
    MapMoved(s, s', p, r.pr, key, data);
    Conclude(s, p, r, s', c);
  }

  /** Filling and linking the reused record: the point where that store takes effect. */
  lemma StepReuse(s: State, p: nat, key: string, data: string, flag: int, o: nat, next: nat, r: Outcome, s': State)
    requires p < |s.procs| && s.procs[p].op == Store(key, data, flag) && s.procs[p].pc == Took(o, next)
    requires SlotOf(key) < |s.sh.paths| && |s.sh.paths[SlotOf(key)]| > 0 && o in s.f.recs
    requires r == Outcome(WritePtr(Fill(s.f, o, key, data, next), ChainOff(key), o),
                          LinkedShape(s.sh, SlotOf(key), o, key), s.m[key := data],
                          s.procs[p].(pc := Done(Code(0)), held := s.procs[p].held - {FREE_LOCK}))
    requires s' == State(r.f, r.sh, r.m, s.procs[p := r.pr])
    requires Inv(s)
    ensures Inv(s')
  {
    hide WF, Hash, Content, Contents, PrivateOk, LocksOk, MapOk, Granted, LeavesAlone, ChainOff, Conflict;
    var pr, c := s.procs[p], SlotOf(key);
    var f1 := Fill(s.f, o, key, data, next);
    assert ProcOk(s.f, s.sh, p, pr);
    AloneOnChain(s, p);
    RecordFacts(s.f, s.sh, o);
    FillStep(s.f, s.sh, o, key, data, next, c, p, f1);
    LinkStep(f1, s.sh, o, c, p, r.f, r.sh);
    AloneTwice(s.f, s.sh, f1, s.sh, r.f, r.sh, c, p);
    HeldIs(s, p);
    RangesApart(key, key, true, true);
    LocksStep(s, p, r.pr, None);
    PrivateMoved(s.sh.place, r.sh.place, s.procs, p, r.pr, o, c);
    MapMoved(s, s', p, r.pr, key, data);
    Conclude(s, p, r, s', c);
  }

  lemma AloneTwice(f: Files, sh: Shape, f1: Files, sh1: Shape, f2: Files, sh2: Shape, c: nat, p: nat)
    requires LeavesAlone(f, sh, f1, sh1, c, p) && LeavesAlone(f1, sh1, f2, sh2, c, p)
    ensures LeavesAlone(f, sh, f2, sh2, c, p)
  {
    hide Hash, Content, Region;
    forall o | o in f.recs && o in sh.place && Elsewhere(sh.place[o], c, p) ensures SameRecord(f, sh, f2, sh2, o) {
      assert SameRecord(f, sh, f1, sh1, o) && SameRecord(f1, sh1, f2, sh2, o);
    }
    forall k | SlotOf(k) != c ensures SameKey(sh.at, sh2.at, k) {
      assert SameKey(sh.at, sh1.at, k) && SameKey(sh1.at, sh2.at, k);
    }
    forall d | d in sh.owner && sh.owner[d].Process? && sh.owner[d].pid != p ensures SameRegion(f, sh, f2, sh2, d) {
      assert SameRegion(f, sh, f1, sh1, d) && SameRegion(f1, sh1, f2, sh2, d);
    }
  }

  /** Steps that touch no file. */
  lemma StepQuiet(s: State, p: nat, i: nat)
    requires Enabled(s, p, Go(i)) && Inv(s)
    requires var pc := s.procs[p].pc;
             pc.Deleted? || pc.TookNone? || pc.DatWritten? || pc.Done? || (pc.WantFreeToReuse? && i == 0)
    ensures Inv(Next(s, p, Go(i))) && Refines(s, p, Next(s, p, Go(i)))
  {
    hide WF, Hash, Content, Contents, PrivateOk, LocksOk, MapOk, Granted, Conflict, Stops, Region;
    var pr := s.procs[p];
    assert ProcOk(s.f, s.sh, p, pr);
    var r := After(s, p, i);
    assert Next(s, p, Go(i)) == s.(procs := s.procs[p := r.pr]);
    HeldIs(s, p);
    if Locked(pr) { RangesApart(pr.op.key, pr.op.key, true, true); }
    ConcludeQuiet(s, p, r.pr, if pr.pc.WantFreeToReuse? then Some(FREE_LOCK) else None);
  }

  /** Every step of every process keeps the invariant and refines the map operation. */
  lemma StepKeepsInv(s: State, p: nat, a: Action)
    requires Enabled(s, p, a) && Inv(s)
    ensures Inv(Next(s, p, a)) && Refines(s, p, Next(s, p, a))
  {
    hide WF, Hash, Content, Contents, PrivateOk, LocksOk, MapOk, Granted, Stops, LeavesAlone, Fill, Splice;
    var pr, s' := s.procs[p], Next(s, p, a);
    assert ProcOk(s.f, s.sh, p, pr);
    if a.Invoke? {
      InvokeKeepsInv(s, p, a.op);
      return;
    }
    var i := a.i;
    match pr.pc {
      case Begin => StepBegin(s, p, i);
      case WantFreeToDelete(o, ptroff, saveptr, j) =>
        StepDelete(s, p, After(s, p, i), s');
      case WantFreeToReuse(next) =>
        if i == 0 {
          StepQuiet(s, p, i);
        } else {
          StopsAt(s.sh.paths[0], HasSizes(s.f, |pr.op.key|, |pr.op.data| + 1), i);
          StepTake(s, p, pr.op.key, pr.op.data, pr.op.flag, next, i, After(s, p, i), s');
        }
      case Took(o, next) => StepReuse(s, p, pr.op.key, pr.op.data, pr.op.flag, o, next, After(s, p, i), s');
      case WantDatEnd(next) => StepDatEnd(s, p, pr.op.key, pr.op.data, pr.op.flag, next, After(s, p, i), s');
      case WantIdxEnd(d, next) => StepIdxEnd(s, p, pr.op.key, pr.op.data, pr.op.flag, d, next, After(s, p, i), s');
      case IdxWritten(o) => StepLink(s, p, pr.op.key, pr.op.data, pr.op.flag, o, After(s, p, i), s');
      case _ => StepQuiet(s, p, i);
    }
    if !pr.pc.Begin? { StepRefines(s, p, i); }
  }

  lemma StopsAt(path: seq<nat>, fits: nat -> bool, i: nat)
    requires Stops(path, fits, i) && i > 0
    ensures i < |path| && fits(path[i])
  {
  }

  lemma InvokeKeepsInv(s: State, p: nat, op: Op)
    requires Enabled(s, p, Invoke(op)) && Inv(s)
    ensures Inv(Next(s, p, Invoke(op)))
  {
    hide WF, Hash, Content, Contents, LocksOk, Granted, Conflict;
    assert ProcOk(s.f, s.sh, p, s.procs[p]);
    ConcludeQuiet(s, p, Proc(op, Begin, {}, None), None);
  }

  /** When a store is about to link its record, running alone would now store the data too. */
  lemma StoreIsDue(s: State, p: nat)
    requires p < |s.procs| && (s.procs[p].pc.Took? || s.procs[p].pc.IdxWritten?) && Inv(s)
    ensures s.procs[p].op.Store?
    ensures Spec(s.m, s.procs[p].op) == (s.m[s.procs[p].op.key := s.procs[p].op.data], Code(0))
  {
    hide WF, Hash, Content, Contents, PrivateOk, LocksOk;
    var pr := s.procs[p];
    assert ProcOk(s.f, s.sh, p, pr);
    if pr.replaced.None? {
      NotReplaced(s, p);
      MapHasKey(s, pr.op.key);
    }
  }

  lemma DeleteIsDue(s: State, p: nat)
    requires p < |s.procs| && s.procs[p].pc.WantFreeToDelete? && s.procs[p].op.Delete? && Inv(s)
    ensures Spec(s.m, s.procs[p].op) == (s.m - {s.procs[p].op.key}, Code(0))
  {
    hide WF, Hash, Content, Contents, PrivateOk, LocksOk;
    var pr := s.procs[p];
    assert ProcOk(s.f, s.sh, p, pr);
    ListNext(s.f, s.sh, SlotOf(pr.op.key), pr.pc.i);
    FoundIsAt(s.f, s.sh, pr.pc.o);
  }

  /** Where an operation takes effect, it does to the map what it would do alone. */
  lemma StepRefines(s: State, p: nat, i: nat)
    requires Enabled(s, p, Go(i)) && Inv(s) && !s.procs[p].pc.Begin?
    ensures Refines(s, p, Next(s, p, Go(i)))
  {
    hide WF, Hash, Content, PrivateOk, LocksOk, MapOk, Granted, Stops, DoDelete, Fill, Splice, DeletedShape, TakenShape;
    hide Spec, Inserting, HasData, LinkedShape;
    var pr := s.procs[p];
    assert ProcOk(s.f, s.sh, p, pr);
    if pr.pc.WantFreeToDelete? && pr.op.Delete? { DeleteIsDue(s, p); }
    if pr.pc.Took? || pr.pc.IdxWritten? { StoreIsDue(s, p); }
  }

  // ----- runs -----

  /** Nobody has started and the files are those of an empty database. */
  ghost predicate Init(s: State) {
    && s.f == Db.EmptyFiles() && s.sh == Db.EmptyShape() && s.m == map[]
    && forall p :: 0 <= p < |s.procs| ==>
         s.procs[p].pc == Idle && s.procs[p].held == {} && s.procs[p].replaced == None
  }

  lemma InitIsGood(s: State)
    requires Init(s)
    ensures Inv(s)
  {
    hide WF, Hash;
    Db.EmptyIsSound();
  }

  /** Who acts, and how, in which order. */
  type Trace = seq<(nat, Action)>

  ghost predicate Runs(s: State, t: Trace)
    decreases |t|
  {
    t == [] || (Enabled(s, t[0].0, t[0].1) && Runs(Next(s, t[0].0, t[0].1), t[1..]))
  }

  ghost function Last(s: State, t: Trace): State
    requires Runs(s, t)
    decreases |t|
  {
    if t == [] then s else Last(Next(s, t[0].0, t[0].1), t[1..])
  }

  /** A segment of p in which its operation takes effect. */
  ghost function Effect(s: State, p: nat, a: Action): seq<Event<Op, Result>>
    requires Enabled(s, p, a)
  {
    var pr, pr' := s.procs[p], Next(s, p, a).procs[p];
    if Verdict(pr).None? && Verdict(pr').Some? then [Event(p, pr'.op, Verdict(pr').value)] else []
  }

  /** The step of p in which its operation returns. */
  function Return(s: State, p: nat, a: Action): seq<Event<Op, Result>>
    requires p < |s.procs|
  {
    var pr := s.procs[p];
    if a.Go? && pr.pc.Done? then [Event(p, pr.op, pr.pc.res)] else []
  }

  /** The operations in the order they took effect, with the results they had. */
  ghost function Effects(s: State, t: Trace): seq<Event<Op, Result>>
    requires Runs(s, t)
    decreases |t|
  {
    if t == [] then [] else Effect(s, t[0].0, t[0].1) + Effects(Next(s, t[0].0, t[0].1), t[1..])
  }

  /** The operations in the order they returned, with the results they returned. */
  ghost function Returns(s: State, t: Trace): seq<Event<Op, Result>>
    requires Runs(s, t)
    decreases |t|
  {
    if t == [] then [] else Return(s, t[0].0, t[0].1) + Returns(Next(s, t[0].0, t[0].1), t[1..])
  }

  /** The operations that process q is asked for. */
  function Made(t: Trace, q: nat): seq<Op>
    decreases |t|
  {
    if t == [] then [] else MadeNow(t[0].0, t[0].1, q) + Made(t[1..], q)
  }

  function MadeNow(p: nat, a: Action, q: nat): seq<Op> { if p == q && a.Invoke? then [a.op] else [] }

  /** What process q is in the middle of. */
  function InMiddle(procs: seq<Proc>, q: nat): Midway<Op, Result>
    requires q < |procs|
  {
    var pr := procs[q];
    match Verdict(pr)
    case None => Midway(if pr.pc.Idle? then [] else [pr.op], [])
    case Some(res) => Midway([], [Event(q, pr.op, res)])
  }

  /** One after the other on a map, each event is possible; m' is where they lead. */
  predicate Sequentially(m: map<string, string>, events: seq<Event<Op, Result>>, m': map<string, string>)
    decreases |events|
  {
    if events == [] then m == m'
    else Spec(m, events[0].op).1 == events[0].res && Sequentially(Spec(m, events[0].op).0, events[1..], m')
  }

  /** The account of process q over a run. */
  ghost predicate AccountIsRight(s: State, t: Trace, q: nat)
    requires Runs(s, t) && q < |s.procs| && q < |Last(s, t).procs|
  {
    Accounted(q, InMiddle(s.procs, q), Made(t, q), Effects(s, t), Returns(s, t),
              InMiddle(Last(s, t).procs, q))
  }

  /** One step of p in the account of q. */
  lemma StepAccounts(s: State, p: nat, a: Action, q: nat)
    requires p < |s.procs| && q < |s.procs| && Enabled(s, p, a)
    requires Refines(s, p, Next(s, p, a))
    ensures |Next(s, p, a).procs| == |s.procs|
    ensures Accounted(q, InMiddle(s.procs, q), MadeNow(p, a, q), Effect(s, p, a), Return(s, p, a),
                      InMiddle(Next(s, p, a).procs, q))
  {
    hide Spec, Accounted, After, Enabled;
    var s' := Next(s, p, a);
    StepOf(s, p, a, q);
    OneStep(q, InMiddle(s.procs, q), MadeNow(p, a, q), Effect(s, p, a), Return(s, p, a), InMiddle(s'.procs, q));
  }

  lemma StepOf(s: State, p: nat, a: Action, q: nat)
    requires p < |s.procs| && q < |s.procs| && Enabled(s, p, a)
    ensures var s' := Next(s, p, a);
            && |s'.procs| == |s.procs|
            && (q != p ==> s'.procs[q] == s.procs[q])
            && (a.Invoke? ==> s.procs[p].pc.Idle? && s'.procs[p].op == a.op && s'.procs[p].pc.Begin?)
            && (a.Go? ==> (!s.procs[p].pc.Idle? && s'.procs[p].op == s.procs[p].op
                           && (s'.procs[p].pc.Idle? <==> s.procs[p].pc.Done?)
                           && (Verdict(s.procs[p]).Some? ==> s'.procs[p].pc.Idle? || Verdict(s'.procs[p]).Some?)))
  {
    hide Hash, Content, Splice, Conflict, Stops, DoDelete, Fill, AppendIdx, AppendDat, WriteDat, WritePtr, Granted;
  }

  /**
   * Every run of any number of processes keeps the invariant, and its operations have the
   * results and the effect they would have one at a time in the order of their effects.  Each
   * operation a process is asked for is one of these events, and returns the event's result.
   */
  lemma {:induction false} RunsAreAtomic(s: State, t: Trace)
    requires Inv(s) && Runs(s, t)
    ensures Inv(Last(s, t)) && Sequentially(s.m, Effects(s, t), Last(s, t).m) && |Last(s, t).procs| == |s.procs|
    ensures forall q :: 0 <= q < |s.procs| ==> AccountIsRight(s, t, q)
    decreases |t|
  {
    hide Inv, Enabled, Next, Spec, Verdict, Refines, Accounted, InMiddle, Return;
    if t != [] {
      var p, a, s' := t[0].0, t[0].1, Next(s, t[0].0, t[0].1);
      NextSizes(s, p, a);
      StepKeepsInv(s, p, a);
      RunsAreAtomic(s', t[1..]);
      EffectFirst(s, p, a, Effects(s', t[1..]), Last(s, t).m);
      forall q | 0 <= q < |s.procs| ensures AccountIsRight(s, t, q) {
        StepAccounts(s, p, a, q);
        assert AccountIsRight(s', t[1..], q);
        AccountedOn(q, InMiddle(s.procs, q), MadeNow(p, a, q), Effect(s, p, a), Return(s, p, a), InMiddle(s'.procs, q),
                    Made(t[1..], q), Effects(s', t[1..]), Returns(s', t[1..]), InMiddle(Last(s, t).procs, q));
      }
    } else {
      forall q | 0 <= q < |s.procs| ensures AccountIsRight(s, t, q) {
        OneStep(q, InMiddle(s.procs, q), [], [], [], InMiddle(s.procs, q));
      }
    }
  }

  lemma EffectFirst(s: State, p: nat, a: Action, events: seq<Event<Op, Result>>, m': map<string, string>)
    requires Enabled(s, p, a) && p < |s.procs| && p < |Next(s, p, a).procs| && Refines(s, p, Next(s, p, a))
    requires Sequentially(Next(s, p, a).m, events, m')
    ensures Sequentially(s.m, Effect(s, p, a) + events, m')
  {
    hide Enabled, Next, Spec, Verdict;
    var now := Effect(s, p, a);
    if now != [] {
      assert (now + events)[0] == now[0] && (now + events)[1..] == events;
    } else {
      assert now + events == events;
    }
  }

  lemma NextSizes(s: State, p: nat, a: Action)
    requires Enabled(s, p, a)
    ensures p < |s.procs| && |Next(s, p, a).procs| == |s.procs|
  {
  }

  /** From an empty database on, at every moment of every run: what holds of every reachable state. */
  lemma ReachableIsGood(s: State, t: Trace)
    requires Init(s) && Runs(s, t)
    ensures Inv(Last(s, t)) && Sequentially(map[], Effects(s, t), Last(s, t).m)
    ensures forall q :: 0 <= q < |s.procs| ==>
              By(Returns(s, t), q) <= By(Effects(s, t), q) && Calls(Effects(s, t), q) <= Made(t, q)
  {
    hide Inv, Runs, Last, Effects, Returns, Accounted;
    InitIsGood(s);
    RunsAreAtomic(s, t);
    forall q | 0 <= q < |s.procs|
      ensures By(Returns(s, t), q) <= By(Effects(s, t), q) && Calls(Effects(s, t), q) <= Made(t, q)
    {
      assert AccountIsRight(s, t, q) && InMiddle(s.procs, q) == Midway([], []);
      FromIdle(q, Made(t, q), Effects(s, t), Returns(s, t), InMiddle(Last(s, t).procs, q));
    }
  }

  /** The data of the last successful store of a key, unless a successful delete came after it. */
  function LastWrite(events: seq<Event<Op, Result>>, key: string): Option<string> {
    if events == [] then None
    else
      var e, before := events[|events| - 1], events[..|events| - 1];
      if e.op.Store? && e.op.key == key && e.res == Code(0) then Some(e.op.data)
      else if e.op.Delete? && e.op.key == key && e.res == Code(0) then None
      else LastWrite(before, key)
  }

  lemma {:induction false} SequentiallyLast(m: map<string, string>, events: seq<Event<Op, Result>>,
                                            m': map<string, string>)
      returns (m1: map<string, string>)
    requires Sequentially(m, events, m') && events != []
    ensures var e, before := events[|events| - 1], events[..|events| - 1];
            Sequentially(m, before, m1) && Spec(m1, e.op) == (m', e.res)
    decreases |events|
  {
    hide Spec;
    var n := |events| - 1;
    if n == 0 {
      m1 := m;
    } else {
      m1 := SequentiallyLast(Spec(m, events[0].op).0, events[1..], m');
      assert events[1..][..n - 1] == events[..n][1..] && events[..n][0] == events[0];
    }
  }

  /** What the database holds after any operations one after the other is what was written last. */
  lemma {:induction false} HoldsLastWrite(events: seq<Event<Op, Result>>, m': map<string, string>, key: string)
    requires Sequentially(map[], events, m')
    ensures LastWrite(events, key) == if key in m' then Some(m'[key]) else None
    decreases |events|
  {
    if events != [] {
      var m1 := SequentiallyLast(map[], events, m');
      HoldsLastWrite(events[..|events| - 1], m1, key);
    }
  }

  /**
   * In every run from an empty database on: what a fetch, a delete and a store return, by what was
   * last written under their key before they took effect.
   */
  lemma ResultsFollowWrites(s: State, t: Trace, k: nat)
    requires Init(s) && Runs(s, t) && k < |Effects(s, t)|
    ensures var e := Effects(s, t)[k];
            var was := LastWrite(Effects(s, t)[..k], e.op.key);
            match e.op
            case Fetch(_) => e.res == Fetched(was)
            case Delete(_) => e.res == Code(if was.Some? then 0 else -1)
            case Store(_, _, flag) =>
              e.res == Code(if flag < 1 || flag > 3 then -1
                            else if flag == 1 && was.Some? then 1 else if flag == 2 && was.None? then -1 else 0)
  {
    hide Inv, Runs, Last, Effects, Spec, LastWrite;
    InitIsGood(s);
    RunsAreAtomic(s, t);
    var e := Effects(s, t)[k];
    var m1, m2 := EventOf(map[], Effects(s, t), k, Last(s, t).m);
    HoldsLastWrite(Effects(s, t)[..k], m1, e.op.key);
    SpecIs(m1, e.op);
  }

  /** And at its end the map holds, for every key, what was last written under it. */
  lemma MapIsLastWrites(s: State, t: Trace, key: string)
    requires Init(s) && Runs(s, t)
    ensures LastWrite(Effects(s, t), key) == if key in Last(s, t).m then Some(Last(s, t).m[key]) else None
  {
    hide Inv, Runs, Last, Effects, Spec, LastWrite;
    InitIsGood(s);
    RunsAreAtomic(s, t);
    HoldsLastWrite(Effects(s, t), Last(s, t).m, key);
  }

  lemma SpecIs(m: map<string, string>, op: Op)
    ensures Spec(m, op).1 == match op
                             case Fetch(key) => Fetched(if key in m then Some(m[key]) else None)
                             case Delete(key) => Code(if key in m then 0 else -1)
                             case Store(key, _, flag) =>
                               Code(if flag < 1 || flag > 3 then -1
                                    else if flag == 1 && key in m then 1 else if flag == 2 && key !in m then -1 else 0)
  {
  }

  /** Event k, between the events before it and those after it. */
  lemma {:induction false} EventOf(m: map<string, string>, events: seq<Event<Op, Result>>, k: nat,
                                   m': map<string, string>)
      returns (m1: map<string, string>, m2: map<string, string>)
    requires Sequentially(m, events, m') && k < |events|
    ensures Sequentially(m, events[..k], m1) && Spec(m1, events[k].op) == (m2, events[k].res)
    decreases |events|
  {
    hide Spec;
    var n := |events| - 1;
    var before := SequentiallyLast(m, events, m');
    if k == n {
      m1, m2 := before, m';
    } else {
      m1, m2 := EventOf(m, events[..n], k, before);
      assert events[..n][..k] == events[..k] && events[..n][k] == events[k];
    }
  }

  /**
   * In exactly one place: a record is on the one list its place names and on no other, or
   * on no list and in the hands of the one process its place names.
   */
  lemma OnePlace(s: State, o: nat)
    requires Inv(s) && o in s.f.recs
    ensures o in s.sh.place
    ensures var b := s.sh.place[o];
            if b < SLOTS then forall c :: 0 <= c < SLOTS ==> (o in s.sh.paths[c] <==> c == b)
            else (forall c :: 0 <= c < SLOTS ==> o !in s.sh.paths[c])
                 && forall p :: 0 <= p < |s.procs| ==> (InHand(s.procs, p, o) <==> p == b - PRIVATE)
  {
    hide Hash, ProcOk, LocksOk, MapOk, Tiles, Owned, Keys, Regions, Path;
    var b := s.sh.place[o];
    if b >= SLOTS {
      assert InHand(s.procs, b - PRIVATE, o);
      forall p | 0 <= p < |s.procs| && InHand(s.procs, p, o) ensures p == b - PRIVATE { InHandPlace(s, p, o); }
    }
  }

  lemma InHandPlace(s: State, p: nat, o: nat)
    requires Inv(s) && InHand(s.procs, p, o)
    ensures o in s.sh.place && s.sh.place[o] == PRIVATE + p
  {
    hide Hash, WF, LocksOk, MapOk, PrivateOk, Content, Inserting;
    assert ProcOk(s.f, s.sh, p, s.procs[p]);
  }

  // ----- what the locks are for -----

  /** The locks a process has while it does what it does next. */
  ghost function During(s: State, p: nat, i: nat): set<Lock>
    requires Enabled(s, p, Go(i))
  {
    s.procs[p].held + After(s, p, i).pr.held
  }

  /** What a segment changes is covered by the locks h of process p. */
  ghost predicate Covered(s: State, p: nat, r: Outcome, h: set<Lock>)
    requires p < |s.procs|
  {
    var op := s.procs[p].op;
    && |s.sh.paths| == SLOTS == |r.sh.paths|
    && (r.f != s.f || r.sh != s.sh ==> ChainLock(op.key, true) in h)
    && (r.sh.paths[0] != s.sh.paths[0] ==> FREE_LOCK in h)
    && (forall c :: 0 < c < SLOTS && r.sh.paths[c] != s.sh.paths[c] ==> c == SlotOf(op.key))
    && (|r.f.dat| != |s.f.dat| ==> DAT_END_LOCK in h)
    && (r.f.idxEnd != s.f.idxEnd ==> IDX_END_LOCK in h)
    && (s.procs[p].pc.Begin? ==> ChainLock(op.key, Writes(op)) in h)
    && (s.procs[p].pc.WantFreeToReuse? ==> FREE_LOCK in h)
  }

  /**
   * What a segment changes, it changes under the lock for it: the free list, a hash chain, the end
   * of each file, and anything at all under the write lock of its own chain.  It walks under a lock too.
   */
  lemma ChangesAreLocked(s: State, p: nat, i: nat)
    requires Enabled(s, p, Go(i))
    requires Inv(s)
    ensures Covered(s, p, After(s, p, i), During(s, p, i))
  {
    hide WF, Hash, ProcOk, PrivateOk, MapOk, After, Covered, LocksOk, Granted, Stops;
    var pc := s.procs[p].pc;
    assert ProcOk(s.f, s.sh, p, s.procs[p]);
    HeldIs(s, p);
    Db.PathsCount(s.f, s.sh, 0);
    Db.PathsCount(s.f, s.sh, SlotOf(s.procs[p].op.key));
    if pc.Begin? { WalkCovered(s, p, i); }
    else if pc.WantFreeToDelete? || pc.WantFreeToReuse? { ListsCovered(s, p, i); }
    else if pc.Took? || pc.IdxWritten? { LinkCovered(s, p, i); }
    else { RestCovered(s, p, i); }
  }

  lemma WalkCovered(s: State, p: nat, i: nat)
    requires Enabled(s, p, Go(i)) && s.procs[p].pc.Begin? && |s.sh.paths| == SLOTS
    ensures Covered(s, p, After(s, p, i), During(s, p, i))
  {
    hide Hash, Content, Granted, Stops, ChainLock, Splice;
  }

  lemma ListsCovered(s: State, p: nat, i: nat)
    requires Enabled(s, p, Go(i)) && |s.sh.paths| == SLOTS && s.procs[p].held == HeldBy(s.procs[p])
    requires ProcOk(s.f, s.sh, p, s.procs[p]) && (s.procs[p].pc.WantFreeToDelete? || s.procs[p].pc.WantFreeToReuse?)
    ensures Covered(s, p, After(s, p, i), During(s, p, i))
  {
    hide Hash, Content, Granted, Stops, ChainLock, Splice, HasData;
  }

  lemma LinkCovered(s: State, p: nat, i: nat)
    requires Enabled(s, p, Go(i)) && |s.sh.paths| == SLOTS && s.procs[p].held == HeldBy(s.procs[p])
    requires ProcOk(s.f, s.sh, p, s.procs[p]) && (s.procs[p].pc.Took? || s.procs[p].pc.IdxWritten?)
    ensures Covered(s, p, After(s, p, i), During(s, p, i))
  {
    hide Hash, Content, Granted, Stops, ChainLock, Splice, HasData;
  }

  lemma RestCovered(s: State, p: nat, i: nat)
    requires Enabled(s, p, Go(i)) && |s.sh.paths| == SLOTS && s.procs[p].held == HeldBy(s.procs[p])
    requires ProcOk(s.f, s.sh, p, s.procs[p])
    requires var pc := s.procs[p].pc;
             !pc.Begin? && !pc.WantFreeToDelete? && !pc.WantFreeToReuse? && !pc.Took? && !pc.IdxWritten?
    ensures Covered(s, p, After(s, p, i), During(s, p, i))
  {
    hide Hash, Content, Granted, Stops, ChainLock, Splice, HasData;
  }

  /** And while it has these, no other process has any that conflicts. */
  lemma LocksExclude(s: State, p: nat, i: nat, q: nat, k: Lock, l: Lock)
    requires Enabled(s, p, Go(i)) && q < |s.procs| && q != p && k in During(s, p, i) && l in s.procs[q].held
    requires Inv(s)
    ensures !Conflict(k, l)
  {
    hide WF, Hash, Content, Contents, PrivateOk, MapOk, Granted, Stops, Conflict, ProcOk, After;
    StepKeepsInv(s, p, Go(i));
    var s' := Next(s, p, Go(i));
    assert Exclude(s.procs[p], s.procs[q]) && Exclude(s'.procs[p], s'.procs[q]);
  }

  // ----- progress -----

  lemma {:induction false} WalkStops(path: seq<nat>, fits: nat -> bool, n: nat) returns (i: nat)
    requires 0 < n <= |path| && forall j :: 0 < j < n ==> !fits(path[j])
    ensures Stops(path, fits, i)
    decreases |path| - n
  {
    if n == |path| { i := 0; } else if fits(path[n]) { i := n; } else { i := WalkStops(path, fits, n + 1); }
  }

  lemma ProcIsDefined(s: State, p: nat)
    requires Inv(s) && p < |s.procs|
    ensures Defined(s.f, s.sh, s.procs[p])
  {
    hide WF, Hash;
    assert ProcOk(s.f, s.sh, p, s.procs[p]);
    Db.PathsCount(s.f, s.sh, 0);
    Db.PathsCount(s.f, s.sh, SlotOf(s.procs[p].op.key));
  }

  /** A process that has what it wants, or wants nothing, can go on. */
  lemma CanGo(s: State, p: nat) returns (i: nat)
    requires Inv(s) && p < |s.procs| && !s.procs[p].pc.Idle?
    requires Wanted(s.procs[p]).Some? ==> Granted(s, p, Wanted(s.procs[p]).value)
    ensures Enabled(s, p, Go(i))
  {
    hide WF, Hash, Granted, ProcOk, Stops;
    var pr := s.procs[p];
    ProcIsDefined(s, p);
    i := 0;
    if pr.pc.Begin? { i := WalkStops(s.sh.paths[SlotOf(pr.op.key)], HasKey(s.f, pr.op.key), 1); }
    if pr.pc.WantFreeToReuse? { i := WalkStops(s.sh.paths[0], HasSizes(s.f, |pr.op.key|, |pr.op.data| + 1), 1); }
  }

  /** How far up the order chain, free list, ends of file a process has locked. */
  function Level(pr: Proc): nat {
    if !Locked(pr) then 0 else if |pr.held| <= 1 then 1 else 2
  }

  /** Whoever blocks a process has locked more than the process itself. */
  lemma BlockerIsAhead(s: State, p: nat, q: nat, k: Lock)
    requires Inv(s) && p < |s.procs| && q < |s.procs| && p != q && k in s.procs[q].held
    requires Wanted(s.procs[p]).Some? && Conflict(k, Wanted(s.procs[p]).value)
    ensures Level(s.procs[q]) > Level(s.procs[p])
  {
    hide WF, Hash, ProcOk, PrivateOk, MapOk, ChainOff;
    HeldIs(s, q);
    HeldIs(s, p);
    RangesApart(s.procs[q].op.key, s.procs[p].op.key, Writes(s.procs[q].op), Writes(s.procs[p].op));
    RangesApart(s.procs[p].op.key, s.procs[q].op.key, Writes(s.procs[p].op), Writes(s.procs[q].op));
  }

  /** Deadlock freedom: as long as some process is inside an operation, some process can go on. */
  lemma {:induction false} SomeoneCanGo(s: State, p: nat) returns (q: nat, i: nat)
    requires Inv(s) && p < |s.procs| && !s.procs[p].pc.Idle?
    ensures Enabled(s, q, Go(i))
    decreases 2 - Level(s.procs[p])
  {
    hide WF, Hash, ProcOk, LocksOk, PrivateOk, MapOk, Enabled, Conflict;
    var w := Wanted(s.procs[p]);
    if w.Some? && !Granted(s, p, w.value) {
      var r, k :| 0 <= r < |s.procs| && r != p && k in s.procs[r].held && Conflict(k, w.value);
      BlockerIsAhead(s, p, r, k);
      q, i := SomeoneCanGo(s, r);
    } else {
      q := p;
      i := CanGo(s, p);
    }
  }

  /** One process is inside an operation on the chain that the other wants, and not both only fetch. */
  predicate InTheWay(pr: Proc, other: Proc) {
    && !pr.pc.Idle? && !pr.pc.Begin? && Hash(pr.op.key) == Hash(other.op.key)
    && !(pr.op.Fetch? && other.op.Fetch?)
  }

  /** A process can start on its chain exactly when nobody is in its way: fetches go on side by side. */
  lemma StartsExactly(s: State, p: nat)
    requires p < |s.procs| && s.procs[p].pc.Begin?
    requires Inv(s)
    ensures (exists i :: Enabled(s, p, Go(i)))
            <==> forall q :: 0 <= q < |s.procs| && q != p ==> !InTheWay(s.procs[q], s.procs[p])
  {
    hide WF, Hash, ProcOk, PrivateOk, MapOk, Enabled, Conflict, Granted, LocksOk;
    var l := ChainLock(s.procs[p].op.key, Writes(s.procs[p].op));
    if i :| Enabled(s, p, Go(i)) {
      assert Granted(s, p, l) by { GrantedOf(s, p, i); }
      forall q | 0 <= q < |s.procs| && q != p ensures !InTheWay(s.procs[q], s.procs[p]) {
        if InTheWay(s.procs[q], s.procs[p]) { ExcludedByGrant(s, p, q); }
      }
    }
    if forall q :: 0 <= q < |s.procs| && q != p ==> !InTheWay(s.procs[q], s.procs[p]) {
      FreeToGrant(s, p);
      var i := CanGo(s, p);
    }
  }

  lemma GrantedOf(s: State, p: nat, i: nat)
    requires Enabled(s, p, Go(i)) && s.procs[p].pc.Begin?
    ensures Granted(s, p, ChainLock(s.procs[p].op.key, Writes(s.procs[p].op)))
  {
    hide Granted, Stops, Hash;
  }

  lemma FreeToGrant(s: State, p: nat)
    requires p < |s.procs| && s.procs[p].pc.Begin?
    requires forall q :: 0 <= q < |s.procs| && q != p ==> !InTheWay(s.procs[q], s.procs[p])
    requires Inv(s)
    ensures Granted(s, p, ChainLock(s.procs[p].op.key, Writes(s.procs[p].op)))
  {
    hide WF, Hash, ProcOk, PrivateOk, MapOk, ChainOff;
    var l := ChainLock(s.procs[p].op.key, Writes(s.procs[p].op));
    forall q, k | 0 <= q < |s.procs| && q != p && k in s.procs[q].held ensures !Conflict(k, l) {
      HeldIs(s, q);
      assert !InTheWay(s.procs[q], s.procs[p]);
      RangesApart(s.procs[q].op.key, s.procs[p].op.key, Writes(s.procs[q].op), Writes(s.procs[p].op));
      RangesApart(s.procs[p].op.key, s.procs[q].op.key, Writes(s.procs[p].op), Writes(s.procs[q].op));
    }
  }

  /** Steps left before an operation returns, at most. */
  function StepsLeft(pr: Proc): nat {
    match pr.pc
    case Idle => 0
    case Begin => 9
    case WantFreeToDelete(_, _, _, _) => 8
    case WantFreeToReuse(_) => 8
    case Deleted => 7
    case Took(_, _) => 7
    case TookNone(_) => 7
    case WantDatEnd(_) => 6
    case DatWritten(_, _) => 5
    case WantIdxEnd(_, _) => 4
    case IdxWritten(_) => 3
    case Done(_) => 1
  }

  /** Every step brings its operation nearer its end, and an operation that returned holds no lock. */
  lemma StepsRunOut(s: State, p: nat, i: nat)
    requires Enabled(s, p, Go(i))
    ensures StepsLeft(Next(s, p, Go(i)).procs[p]) < StepsLeft(s.procs[p])
    ensures Next(s, p, Go(i)).procs[p].pc.Idle? ==> Next(s, p, Go(i)).procs[p].held == {}
  {
    hide Content, Granted, Stops, Fill, DoDelete, Splice, Conflict, ChainLock, DeletedShape, TakenShape, LinkedShape;
  }
}
