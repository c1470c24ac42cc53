/** The runs of DbProtocol on the bytes of the index file, within the limits of its fields. */
module DbByteRuns {
  import opened CStrings
  import opened Decimal
  import opened DbRecord
  import opened DbFiles
  import opened DbSteps
  import opened DbBytes
  import opened DbProtocol
  import Db

  // ----- what a segment writes -----

  /** A record formatted over the one at o, with its chain pointer and length in front. */
  function IdxWrittenAt(idx: string, o: nat, e: Entry, next: nat): string { Splice(idx, o, PtrField(next) + Body(e)) }

  /** _db_dodelete: the record in blanks, at the front of the free list, and off its chain. */
  function IdxDeleted(idx: string, e: Entry, o: nat, freeptr: nat, ptroff: nat, saveptr: nat): string {
    var blanked := IdxWrittenAt(idx, o, e.(key := Blanks(|e.key|)), freeptr);
    Splice(Splice(blanked, FREE_OFF, PtrField(o)), ptroff, PtrField(saveptr))
  }

  /** The index file after a step of p; the data file is that of the records. */
  ghost function IdxAfter(idx: string, s: State, p: nat, a: Action): string
    requires Enabled(s, p, a)
  {
    match a
    case Invoke(_) => idx
    case Go(i) =>
      var op := s.procs[p].op;
      match s.procs[p].pc
      case WantFreeToDelete(o, ptroff, saveptr, _) =>
        IdxDeleted(idx, s.f.recs[o], o, At(s.f.ptr, FREE_OFF), ptroff, saveptr)
      case WantFreeToReuse(_) =>
        if i == 0 then idx else Splice(idx, s.sh.paths[0][i - 1], PtrField(At(s.f.ptr, s.sh.paths[0][i])))
      case Took(o, next) =>
        Splice(IdxWrittenAt(idx, o, s.f.recs[o].(key := op.key), next), ChainOff(op.key), PtrField(o))
      case WantIdxEnd(d, next) => idx + PtrField(next) + Body(Entry(op.key, d, |op.data| + 1))
      case IdxWritten(o) => Splice(idx, ChainOff(op.key), PtrField(o))
      case _ => idx
  }

  // ----- the limits -----

  /** What db_store checks of its arguments, or its callers must. */
  predicate OpOk(op: Op) {
    op.Store? ==> KeyOk(op.key) && NUL !in op.data && DATLEN_MIN <= |op.data| + 1 <= DATLEN_MAX
  }

  predicate OpsOk(procs: seq<Proc>) { forall p :: 0 <= p < |procs| && !procs[p].pc.Idle? ==> OpOk(procs[p].op) }

  /** The step is within the limits: only a store that appends an index record can be stopped by them. */
  predicate HasRoom(s: State, p: nat, a: Action)
    requires p < |s.procs|
  {
    match a
    case Invoke(op) => OpOk(op)
    case Go(_) =>
      var pr := s.procs[p];
      pr.pc.WantIdxEnd? && pr.op.Store? ==>
        s.f.idxEnd <= PTR_MAX && LegalEntry(Entry(pr.op.key, pr.pc.d, |pr.op.data| + 1))
  }

  // ----- each segment keeps the file in order -----

  /** Writes to the data file leave the index file as it should be. */
  lemma DatBytes(idx: string, f: Files, d: nat, data: string)
    requires Bytes(idx, f) && NUL !in data
    ensures Bytes(idx, WriteDat(f, d, data)) && Bytes(idx, AppendDat(f, data))
  {
    hide Encodes, Apart, Splice;
    Db.SpliceHoldsNo(f.dat, d, data + [NEWLINE], NUL);
    Db.SameIndex(idx, f, WriteDat(f, d, data));
    Db.SameIndex(idx, f, AppendDat(f, data));
  }

  lemma BlankedIsLegal(e: Entry)
    requires LegalEntry(e)
    ensures LegalEntry(e.(key := Blanks(|e.key|))) && RecLen(e.(key := Blanks(|e.key|))) == RecLen(e)
    ensures NUL !in Blanks(|e.key|) && e.datlen > 0
  {
    hide Dec;
  }

  lemma RenamedIsLegal(e: Entry, key: string)
    requires LegalEntry(e) && KeyOk(key) && |key| == |e.key|
    ensures LegalEntry(e.(key := key)) && RecLen(e.(key := key)) == RecLen(e)
  {
    hide Dec;
  }

  lemma DeleteBytes(idx: string, f: Files, o: nat, ptroff: nat, saveptr: nat)
    requires Bytes(idx, f) && o in f.recs && FREE_OFF in f.ptr && ptroff in f.ptr && saveptr <= PTR_MAX
    ensures Bytes(IdxDeleted(idx, f.recs[o], o, At(f.ptr, FREE_OFF), ptroff, saveptr), DoDelete(f, o, ptroff, saveptr))
  {
    hide Bytes, Splice, PtrField, Body, LegalEntry, RecLen;
    var e, free := f.recs[o], At(f.ptr, FREE_OFF);
    Db.LegalEntries(idx, f, o);
    Db.PtrIsSmall(idx, f, FREE_OFF);
    BlankedIsLegal(e);
    var blank := e.(key := Blanks(|e.key|));
    var f1 := WriteDat(f, e.datoff, Blanks(e.datlen - 1));
    DatBytes(idx, f, e.datoff, Blanks(e.datlen - 1));
    WriteIdxBytes(idx, f1, o, blank, free);
    var idx2, f2 := IdxWrittenAt(idx, o, blank, free), WriteIdx(f1, o, blank, free);
    WritePtrBytes(idx2, f2, FREE_OFF, o);
    WritePtrBytes(Splice(idx2, FREE_OFF, PtrField(o)), WritePtr(f2, FREE_OFF, o), ptroff, saveptr);
  }

  lemma FillBytes(idx: string, f: Files, o: nat, key: string, data: string, next: nat)
    requires Bytes(idx, f) && o in f.recs && ChainOff(key) in f.ptr && next <= PTR_MAX
    requires KeyOk(key) && NUL !in data && |key| == |f.recs[o].key|
    ensures Bytes(Splice(IdxWrittenAt(idx, o, f.recs[o].(key := key), next), ChainOff(key), PtrField(o)),
                  WritePtr(Fill(f, o, key, data, next), ChainOff(key), o))
  {
    hide Bytes, Splice, PtrField, Body, LegalEntry, RecLen, ChainOff;
    var e := f.recs[o];
    Db.LegalEntries(idx, f, o);
    RenamedIsLegal(e, key);
    DatBytes(idx, f, e.datoff, data);
    WriteIdxBytes(idx, WriteDat(f, e.datoff, data), o, e.(key := key), next);
    WritePtrBytes(IdxWrittenAt(idx, o, e.(key := key), next), Fill(f, o, key, data, next), ChainOff(key), o);
  }

  /** What a process knows about where it is going to write. */
  lemma Targets(s: State, p: nat, idx: string)
    requires p < |s.procs| && !s.procs[p].pc.Idle? && Bytes(idx, s.f)
    requires Inv(s)
    ensures FREE_OFF in s.f.ptr && ChainOff(s.procs[p].op.key) in s.f.ptr
    ensures var pc := s.procs[p].pc;
            && (pc.WantFreeToDelete? ==> pc.o in s.f.recs && pc.ptroff in s.f.ptr && pc.saveptr <= PTR_MAX)
            && (pc.Took? ==> (pc.o in s.f.recs && pc.next <= PTR_MAX && |s.f.recs[pc.o].key| == |s.procs[p].op.key|))
            && (pc.WantIdxEnd? ==> pc.next <= PTR_MAX)
            && (pc.IdxWritten? ==> pc.o in s.f.recs && pc.o <= PTR_MAX)
  {
    hide WF, Bytes, LocksOk, PrivateOk, MapOk, Hash, Content, Contents;
    var pr := s.procs[p];
    var c := SlotOf(pr.op.key);
    assert ProcOk(s.f, s.sh, p, pr);
    Db.PathsCount(s.f, s.sh, 0);
    Db.PathsCount(s.f, s.sh, c);
    ListNext(s.f, s.sh, 0, 0);
    ListNext(s.f, s.sh, c, 0);
    Db.PtrIsSmall(idx, s.f, Slot(c));
    if pr.pc.WantFreeToDelete? {
      ListNext(s.f, s.sh, c, pr.pc.i - 1);
      ListNext(s.f, s.sh, c, pr.pc.i);
      Db.PtrIsSmall(idx, s.f, pr.pc.o);
    }
    if pr.pc.IdxWritten? { Db.LegalEntries(idx, s.f, pr.pc.o); }
  }

  /** A step within the limits writes bytes that say what its records say. */
  lemma StepKeepsBytes(idx: string, s: State, p: nat, a: Action)
    requires Enabled(s, p, a) && HasRoom(s, p, a) && OpsOk(s.procs) && Bytes(idx, s.f)
    requires Inv(s)
    ensures Bytes(IdxAfter(idx, s, p, a), Next(s, p, a).f)
  {
    hide Inv, Bytes, Splice, PtrField, Body, ChainOff, LegalEntry, IdxDeleted, IdxWrittenAt, Granted, Stops;
    hide DoDelete, Fill, WriteDat, AppendDat, AppendIdx, WritePtr;
    if a.Go? {
      var pr := s.procs[p];
      Targets(s, p, idx);
      match pr.pc
      case Begin => BeginBytes(idx, s, p, a);
      case WantFreeToDelete(o, ptroff, saveptr, _) => DeleteBytes(idx, s.f, o, ptroff, saveptr);
      case WantFreeToReuse(_) => TakeBytes(idx, s, p, a);
      case Took(o, next) => FillBytes(idx, s.f, o, pr.op.key, pr.op.data, next);
      case WantDatEnd(_) => DatBytes(idx, s.f, 0, pr.op.data);
      case WantIdxEnd(d, next) => AppendIdxBytes(idx, s.f, Entry(pr.op.key, d, |pr.op.data| + 1), next);
      case IdxWritten(o) => WritePtrBytes(idx, s.f, ChainOff(pr.op.key), o);
      case _ =>
    }
  }

  /** The walk writes data at most. */
  lemma BeginBytes(idx: string, s: State, p: nat, a: Action)
    requires Enabled(s, p, a) && a.Go? && s.procs[p].pc.Begin? && OpsOk(s.procs) && Bytes(idx, s.f)
    requires Inv(s)
    ensures Bytes(IdxAfter(idx, s, p, a), Next(s, p, a).f)
  {
    hide WF, LocksOk, PrivateOk, MapOk, ProcOk, Bytes, Splice, Hash, Content, Contents, WriteDat, AppendDat, Granted;
    var pr := s.procs[p];
    var path := s.sh.paths[SlotOf(pr.op.key)];
    if pr.op.Store? && a.i > 0 { DatBytes(idx, s.f, s.f.recs[path[a.i]].datoff, pr.op.data); }
  }

  /** Taking a record off the free list writes one pointer. */
  lemma TakeBytes(idx: string, s: State, p: nat, a: Action)
    requires Enabled(s, p, a) && a.Go? && s.procs[p].pc.WantFreeToReuse? && Bytes(idx, s.f)
    requires Inv(s)
    ensures Bytes(IdxAfter(idx, s, p, a), Next(s, p, a).f)
  {
    hide WF, LocksOk, PrivateOk, MapOk, ProcOk, Bytes, Splice, PtrField, Hash, Content, Contents, Granted, WritePtr;
    if a.i > 0 {
      ListNext(s.f, s.sh, 0, a.i - 1);
      ListNext(s.f, s.sh, 0, a.i);
      Db.PtrIsSmall(idx, s.f, s.sh.paths[0][a.i]);
      WritePtrBytes(idx, s.f, s.sh.paths[0][a.i - 1], At(s.f.ptr, s.sh.paths[0][a.i]));
    }
  }

  // ----- runs -----

  /** Every step of the run is within the limits. */
  ghost predicate Roomy(s: State, t: Trace)
    requires Runs(s, t)
    decreases |t|
  {
    t == [] || (HasRoom(s, t[0].0, t[0].1) && Roomy(Next(s, t[0].0, t[0].1), t[1..]))
  }

  ghost function IdxLast(idx: string, s: State, t: Trace): string
    requires Runs(s, t)
    decreases |t|
  {
    if t == [] then idx else IdxLast(IdxAfter(idx, s, t[0].0, t[0].1), Next(s, t[0].0, t[0].1), t[1..])
  }

  lemma OpsStayOk(s: State, p: nat, a: Action)
    requires Enabled(s, p, a) && HasRoom(s, p, a) && OpsOk(s.procs)
    ensures OpsOk(Next(s, p, a).procs)
  {
    hide OpOk, Enabled, Next;
    NextSizes(s, p, a);
    forall q | 0 <= q < |s.procs| && !Next(s, p, a).procs[q].pc.Idle? ensures OpOk(Next(s, p, a).procs[q].op) {
      StepOf(s, p, a, q);
    }
  }

  /** All runs within the limits, of any number of processes, keep the file spelling out the records. */
  lemma {:induction false} RunsKeepBytes(idx: string, s: State, t: Trace)
    requires Bytes(idx, s.f) && OpsOk(s.procs) && Runs(s, t) && Roomy(s, t)
    requires Inv(s)
    ensures Bytes(IdxLast(idx, s, t), Last(s, t).f)
    decreases |t|
  {
    hide Inv, Bytes, Enabled, Next, HasRoom, IdxAfter, OpsOk, Refines;
    if t != [] {
      var p, a := t[0].0, t[0].1;
      NextSizes(s, p, a);
      StepKeepsInv(s, p, a);
      StepKeepsBytes(idx, s, p, a);
      OpsStayOk(s, p, a);
      RunsKeepBytes(IdxAfter(idx, s, p, a), Next(s, p, a), t[1..]);
    }
  }

  /** The text of the record at o, as long as its length field says. */
  function TextAt(idx: string, o: nat): string {
    var b := o + PTR_SZ + IDXLEN_SZ;
    if b > |idx| then []
    else
      var n := Atol(idx[o + PTR_SZ..b]);
      if 0 <= n && b + n <= |idx| then idx[b..b + n] else []
  }

  /** Key k is in the file: the record at o reads as k, and the data it points to is d and a newline. */
  predicate OnDisk(idx: string, dat: string, o: nat, k: string, d: string) {
    match ParseText(TextAt(idx, o))
    case None => false
    case Some(e) =>
      e.key == k && e.datlen == |d| + 1 && e.datoff + e.datlen <= |dat|
      && dat[e.datoff..e.datoff + e.datlen] == d + [NEWLINE]
  }

  /**
   * From an empty file on, at every moment of every run within the limits: a key that no store is
   * just replacing is in the map with its data exactly when it is on disk in a record on its chain.
   */
  lemma MapIsOnDisk(s: State, t: Trace, k: string)
    requires Init(s) && Runs(s, t) && Roomy(s, t)
    requires forall q :: !Replaces(Last(s, t).procs, q, k)
    ensures var s' := Last(s, t);
            var idx := IdxLast(Db.EmptyHeader(SLOTS) + [NEWLINE], s, t);
            Bytes(idx, s'.f) && |s'.sh.paths| == SLOTS && (k in s'.m <==> k in s'.sh.at)
            && (k in s'.m ==> (s'.sh.at[k] in s'.sh.paths[SlotOf(k)] && OnDisk(idx, s'.f.dat, s'.sh.at[k], k, s'.m[k])))
  {
    hide Inv, Bytes, WF, OpsOk, OnDisk, Content, Contents, Hash, Db.EmptyFiles, Db.EmptyShape, Db.EmptyHeader;
    hide Runs, Roomy, Last, IdxLast;
    var idx0, s' := Db.EmptyHeader(SLOTS) + [NEWLINE], Last(s, t);
    InitIsGood(s);
    Db.EmptyIsSound();
    NoOps(s);
    RunsKeepBytes(idx0, s, t);
    RunsAreAtomic(s, t);
    MapHasKey(s', k);
    ShapeOf(s');
    if k in s'.m { KeyOnDisk(IdxLast(idx0, s, t), s', k); }
  }

  lemma ShapeOf(s: State)
    requires Inv(s)
    ensures |s.sh.paths| == SLOTS
  {
    hide Hash;
    Db.PathsCount(s.f, s.sh, 0);
  }

  lemma NoOps(s: State)
    requires Init(s)
    ensures OpsOk(s.procs)
  {
  }

  lemma KeyOnDisk(idx: string, s: State, k: string)
    requires Bytes(idx, s.f) && k in s.m && k in s.sh.at && s.m[k] == Contents(s.f, s.sh)[k]
    requires Inv(s)
    ensures |s.sh.paths| == SLOTS && s.sh.at[k] in s.sh.paths[SlotOf(k)] && OnDisk(idx, s.f.dat, s.sh.at[k], k, s.m[k])
  {
    hide Bytes, WF, LocksOk, PrivateOk, MapOk, ProcOk, Hash, Text, LegalEntry, ParseText, TextAt, OnDisk, Content;
    KeyOnChain(s.f, s.sh, k);
    ShapeOf(s);
    RecordOnDisk(idx, s.f, s.sh, s.sh.at[k]);
  }

  lemma RecordOnDisk(idx: string, f: Files, sh: Shape, o: nat)
    requires Bytes(idx, f) && WF(f, sh) && o in f.recs
    ensures OnDisk(idx, f.dat, o, f.recs[o].key, Content(f.dat, f.recs[o]))
  {
    hide Bytes, WF, Text, LegalEntry, ParseText, TextAt;
    TextAtIs(idx, f, o);
    Db.LegalEntries(idx, f, o);
    ParseText_RoundTrip(f.recs[o]);
    LimitsOf(idx, f);
    Db.DataOf(f, sh, o);
    var e := f.recs[o];
    assert f.dat[e.datoff..e.datoff + e.datlen] == Content(f.dat, e) + [NEWLINE];
  }

  lemma TextAtIs(idx: string, f: Files, o: nat)
    requires Bytes(idx, f) && o in f.recs
    ensures TextAt(idx, o) == Text(f.recs[o])
  {
    hide Bytes, Text, Atol, TextLen, RecLen, LegalEntry;
    RecordBytes(idx, f, o);
  }

  lemma LimitsOf(idx: string, f: Files)
    requires Bytes(idx, f)
    ensures Limits(f)
  {
  }
}
