/** How the index file's bytes spell out the pointer cells and entries. */
module DbBytes {
  import opened Decimal
  import opened DbRecord
  import opened CStrings
  import opened DbFiles

  /** Byte for byte, idx is the header and the records of f. */
  ghost predicate Encodes(idx: string, f: Files) {
    && |idx| == f.idxEnd
    && IDX_BASE <= |idx| && idx[IDX_BASE - 1] == NEWLINE
    && (forall l :: l in f.ptr ==> PtrAt(idx, l, f.ptr[l]))
    && (forall o :: o in f.recs ==> BodyAt(idx, o, f.recs[o]))
  }

  ghost predicate PtrAt(idx: string, l: nat, v: nat) {
    l + PTR_SZ <= |idx| && idx[l..l + PTR_SZ] == PtrField(v)
  }

  ghost predicate BodyAt(idx: string, o: nat, e: Entry) {
    o + RecLen(e) <= |idx| && idx[o + PTR_SZ..o + RecLen(e)] == Body(e)
  }

  /** The fields of the index file do not overlap. */
  ghost predicate Apart(f: Files) {
    && Cells(f.ptr, f.recs)
    && (forall o :: o in f.recs ==> IDX_BASE <= o && o + RecLen(f.recs[o]) <= f.idxEnd)
    && (forall o, o' :: o in f.recs && o' in f.recs && o < o' ==> o + RecLen(f.recs[o]) <= o')
  }

  /** Everything written so far passes the checks that guard reading and writing it. */
  ghost predicate Limits(f: Files) {
    && (forall l :: l in f.ptr ==> f.ptr[l] <= PTR_MAX)
    && (forall o :: o in f.recs ==> o <= PTR_MAX && LegalEntry(f.recs[o]))
    && NUL !in f.dat
  }

  ghost predicate Bytes(idx: string, f: Files) { Encodes(idx, f) && Apart(f) && Limits(f) }

  lemma CellsApart(f: Files, l: nat, o: nat)
    requires Apart(f) && l in f.ptr
    ensures o in f.ptr && o != l ==> o + PTR_SZ <= l || l + PTR_SZ <= o
    ensures o in f.recs ==> l + PTR_SZ <= o + PTR_SZ || o + RecLen(f.recs[o]) <= l
    ensures l + PTR_SZ <= IDX_BASE - 1 || IDX_BASE <= l
  {
  }

  lemma PtrFieldWidth(v: nat)
    requires v <= PTR_MAX
    ensures |PtrField(v)| == PTR_SZ && Atol(PtrField(v)) == v
  {
    assert Pow10(7) == 10000000;
    FieldWidth(v, PTR_SZ);
    AtolPadded(v, PTR_SZ);
  }

  lemma PtrAtKept(idx: string, o: nat, t: string, l: nat, v: nat)
    requires PtrAt(idx, l, v) && o + |t| <= |idx| && (l + PTR_SZ <= o || o + |t| <= l)
    ensures PtrAt(Splice(idx, o, t), l, v)
  {
    SpliceSlices(idx, o, t, l, l + PTR_SZ);
  }

  lemma BodyAtKept(idx: string, o: nat, t: string, x: nat, e: Entry)
    requires BodyAt(idx, x, e) && o + |t| <= |idx| && (x + RecLen(e) <= o || o + |t| <= x + PTR_SZ)
    ensures BodyAt(Splice(idx, o, t), x, e)
  {
    hide Body;
    SpliceSlices(idx, o, t, x + PTR_SZ, x + RecLen(e));
  }

  lemma NewlineKept(idx: string, o: nat, t: string)
    requires o + |t| <= |idx| && IDX_BASE <= |idx| && idx[IDX_BASE - 1] == NEWLINE
    requires o + |t| <= IDX_BASE - 1 || IDX_BASE <= o
    ensures Splice(idx, o, t)[IDX_BASE - 1] == NEWLINE
  {
    SpliceSlices(idx, o, t, IDX_BASE - 1, IDX_BASE);
    assert Splice(idx, o, t)[IDX_BASE - 1..IDX_BASE][0] == idx[IDX_BASE - 1..IDX_BASE][0];
  }

  lemma RecordWritten(idx: string, o: nat, next: nat, e: Entry)
    requires next <= PTR_MAX && LegalEntry(e) && o + RecLen(e) <= |idx|
    ensures |PtrField(next) + Body(e)| == RecLen(e)
    ensures PtrAt(Splice(idx, o, PtrField(next) + Body(e)), o, next)
    ensures BodyAt(Splice(idx, o, PtrField(next) + Body(e)), o, e)
  {
    hide Text;
    Fields_RoundTrip(next, e);
    var t := PtrField(next) + Body(e);
    SpliceSlices(idx, o, t, o, o + PTR_SZ);
    SpliceSlices(idx, o, t, o + PTR_SZ, o + RecLen(e));
    assert t[..PTR_SZ] == PtrField(next) && t[PTR_SZ..] == Body(e);
  }

  /** Writing a pointer field in place changes that pointer and no other byte of meaning. */
  lemma WritePtrBytes(idx: string, f: Files, l: nat, v: nat)
    requires Bytes(idx, f) && l in f.ptr && v <= PTR_MAX
    ensures Bytes(Splice(idx, l, PtrField(v)), WritePtr(f, l, v))
  {
    hide Body, PtrField, LegalEntry, Splice, BodyAt;
    var t := PtrField(v);
    var idx', f' := Splice(idx, l, t), WritePtr(f, l, v);
    PtrFieldWidth(v);
    assert PtrAt(idx, l, f.ptr[l]);
    forall x | x in f'.ptr ensures PtrAt(idx', x, f'.ptr[x]) {
      CellsApart(f, l, x);
      if x != l { PtrAtKept(idx, l, t, x, f.ptr[x]); } else { SpliceSlices(idx, l, t, l, l + PTR_SZ); }
    }
    forall o | o in f.recs ensures BodyAt(idx', o, f.recs[o]) {
      CellsApart(f, l, o);
      BodyAtKept(idx, l, t, o, f.recs[o]);
    }
    CellsApart(f, l, l);
    NewlineKept(idx, l, t);
    ApartKept(f, l, v);
  }

  lemma ApartKept(f: Files, l: nat, v: nat)
    requires Apart(f) && l in f.ptr
    ensures Apart(WritePtr(f, l, v))
  {
  }

  /** Rewriting a record in place with an entry of the same length touches no neighbour. */
  lemma WriteIdxBytes(idx: string, f: Files, o: nat, e: Entry, next: nat)
    requires Bytes(idx, f) && o in f.recs && next <= PTR_MAX && LegalEntry(e) && RecLen(e) == RecLen(f.recs[o])
    ensures |PtrField(next) + Body(e)| == RecLen(e)
    ensures Bytes(Splice(idx, o, PtrField(next) + Body(e)), WriteIdx(f, o, e, next))
  {
    hide Body, PtrField, LegalEntry, Splice, PtrAt, BodyAt, Apart, Limits, RecLen;
    var t := PtrField(next) + Body(e);
    var idx', f' := Splice(idx, o, t), WriteIdx(f, o, e, next);
    RecordsApart(f, o, o);
    RecordWritten(idx, o, next, e);
    forall x | x in f'.ptr ensures PtrAt(idx', x, f'.ptr[x]) {
      if x != o {
        CellsApart(f, x, o);
        PtrAtKept(idx, o, t, x, f.ptr[x]);
      }
    }
    forall x | x in f'.recs ensures BodyAt(idx', x, f'.recs[x]) {
      if x != o {
        RecordsApart(f, o, x);
        BodyAtKept(idx, o, t, x, f.recs[x]);
      }
    }
    NewlineKept(idx, o, t);
    ApartRewritten(f, o, e, next);
    LimitsRewritten(f, o, e, next);
  }

  lemma RecordsApart(f: Files, o: nat, x: nat)
    requires Apart(f) && o in f.recs && x in f.recs
    ensures IDX_BASE <= o && o in f.ptr && o + RecLen(f.recs[o]) <= f.idxEnd
    ensures x != o ==> x + RecLen(f.recs[x]) <= o || o + RecLen(f.recs[o]) <= x
  {
    hide RecLen;
  }

  lemma LimitsRewritten(f: Files, o: nat, e: Entry, next: nat)
    requires Limits(f) && o in f.recs && next <= PTR_MAX && LegalEntry(e)
    ensures Limits(WriteIdx(f, o, e, next))
  {
    hide LegalEntry;
  }

  lemma ApartRewritten(f: Files, o: nat, e: Entry, next: nat)
    requires Apart(f) && o in f.recs && RecLen(e) == RecLen(f.recs[o])
    ensures Apart(WriteIdx(f, o, e, next))
  {
    hide RecLen;
    assert forall x :: x in f.recs ==> RecLen(WriteIdx(f, o, e, next).recs[x]) == RecLen(f.recs[x]);
  }

  /** Appending a record leaves every byte before it alone. */
  lemma AppendIdxBytes(idx: string, f: Files, e: Entry, next: nat)
    requires Bytes(idx, f) && next <= PTR_MAX && LegalEntry(e) && f.idxEnd <= PTR_MAX
    ensures Bytes(idx + PtrField(next) + Body(e), AppendIdx(f, e, next))
  {
    hide Body, PtrField, LegalEntry, PtrAt, BodyAt;
    var o, t := f.idxEnd, PtrField(next) + Body(e);
    var idx', f' := idx + PtrField(next) + Body(e), AppendIdx(f, e, next);
    RecordAppended(idx, next, e);
    assert idx' == idx + t;
    forall x | x in f'.ptr ensures PtrAt(idx', x, f'.ptr[x]) {
      if x != o { FieldsExtended(idx, t, x, f.ptr[x], e); }
    }
    forall x | x in f'.recs ensures BodyAt(idx', x, f'.recs[x]) {
      if x != o { FieldsExtended(idx, t, x, 0, f.recs[x]); }
    }
    ApartAppended(f, e, next);
  }

  lemma FieldsExtended(idx: string, t: string, l: nat, v: nat, e: Entry)
    ensures PtrAt(idx, l, v) ==> PtrAt(idx + t, l, v)
    ensures BodyAt(idx, l, e) ==> BodyAt(idx + t, l, e)
  {
    hide Body, PtrField;
    if l + PTR_SZ <= |idx| { assert (idx + t)[l..l + PTR_SZ] == idx[l..l + PTR_SZ]; }
    if l + RecLen(e) <= |idx| { assert (idx + t)[l + PTR_SZ..l + RecLen(e)] == idx[l + PTR_SZ..l + RecLen(e)]; }
  }

  lemma RecordAppended(idx: string, next: nat, e: Entry)
    requires next <= PTR_MAX && LegalEntry(e)
    ensures |PtrField(next) + Body(e)| == RecLen(e)
    ensures PtrAt(idx + PtrField(next) + Body(e), |idx|, next)
    ensures BodyAt(idx + PtrField(next) + Body(e), |idx|, e)
  {
    hide Text, Body, PtrField;
    Fields_RoundTrip(next, e);
  }

  lemma ApartAppended(f: Files, e: Entry, next: nat)
    requires Apart(f) && IDX_BASE <= f.idxEnd
    ensures f.idxEnd !in f.recs && Apart(AppendIdx(f, e, next))
  {
  }

  /** What a read of the record at o finds, field by field. */
  lemma RecordBytes(idx: string, f: Files, o: nat)
    requires Bytes(idx, f) && o in f.recs
    ensures o in f.ptr && o < o + RecLen(f.recs[o]) <= |idx| && LegalEntry(f.recs[o])
    ensures var n, b := TextLen(f.recs[o]), o + PTR_SZ + IDXLEN_SZ;
            IDXLEN_MIN <= n <= IDXLEN_MAX && o + RecLen(f.recs[o]) == b + n
            && Atol(idx[o..o + PTR_SZ]) == f.ptr[o] && Atol(idx[o + PTR_SZ..b]) == n
            && idx[b..b + n] == Text(f.recs[o]) && Text(f.recs[o])[n - 1] == NEWLINE
  {
    hide Apart, Body, Text, Dec, PtrField, Atol, KeyOk;
    ApartCells(f);
    var e := f.recs[o];
    assert PtrAt(idx, o, f.ptr[o]) && BodyAt(idx, o, e);
    Fields_RoundTrip(f.ptr[o], e);
    hide Encodes, Limits;
    SubSlices(idx, o + PTR_SZ, o + PTR_SZ + IDXLEN_SZ, o + RecLen(e));
    TextEnds(e);
  }

  lemma SubSlices(s: string, a: nat, b: nat, c: nat)
    requires a <= b <= c <= |s|
    ensures s[a..c][..b - a] == s[a..b] && s[a..c][b - a..] == s[b..c]
  {
  }

  lemma TextEnds(e: Entry)
    ensures |Text(e)| > 0 && Text(e)[|Text(e)| - 1] == NEWLINE
  {
  }

  lemma ApartCells(f: Files)
    requires Apart(f)
    ensures Cells(f.ptr, f.recs)
  {
  }
}
