/** The database library over its two files, one process at a time. */
module Db {
  import opened Decimal
  import opened Chain
  import opened DbRecord
  import opened CStrings
  import opened Options
  import opened DbFiles
  import opened DbSteps
  import opened DbBytes

  const DB_INSERT := 1
  const DB_REPLACE := 2
  const DB_STORE := 3

  /** The map db_store leaves, and its return value. */
  function StoreSpec(m: map<string, string>, key: string, data: string, flag: int): (map<string, string>, int) {
    if flag !in {DB_INSERT, DB_REPLACE, DB_STORE} then (m, -1)
    else if key in m && flag == DB_INSERT then (m, 1)
    else if key !in m && flag == DB_REPLACE then (m, -1)
    else (m[key := data], 0)
  }

  /** Whether db_store needs a new record: no record of that key, or of the right size, to write into. */
  ghost predicate WouldAppend(f: Files, sh: Shape, key: string, data: string, flag: int) {
    if key in sh.at then flag != DB_INSERT && key in Contents(f, sh) && |Contents(f, sh)[key]| != |data|
    else flag != DB_REPLACE && !FreeFits(f, sh, |key|, |data| + 1)
  }

  class DB {
    var idx: string             // contents of the index file
    var dat: string             // contents of the data file
    var idxpos: nat             // offset of the next read from the index file
    const idxbuf: array<char>
    const datbuf: array<char>
    var idxoff: nat             // offset of the current index record
    var idxlen: nat
    var datoff: nat
    var datlen: nat
    var ptrval: nat             // chain pointer of the current index record
    var ptroff: nat             // where the pointer to it is
    var chainoff: nat

    ghost var f: Files
    ghost var sh: Shape

    /** The bytes of the files say f; this holds between any two writes. */
    ghost predicate Spelled()
      reads this
    {
      && Bytes(idx, f) && dat == f.dat
      && idxbuf != datbuf && idxbuf.Length == IDXLEN_MAX + 2 && datbuf.Length == DATLEN_MAX + 2
    }

    /** ... and f has shape sh, with some records perhaps off the lists. */
    ghost predicate Sound()
      reads this
    {
      Spelled() && WF(f, sh)
    }

    /** Between two calls every record is on a hash chain or on the free list. */
    ghost predicate Valid()
      reads this
    {
      Sound() && (forall o :: o in sh.place ==> sh.place[o] < SLOTS)
    }

    /** What the database holds. */
    ghost function Map(): map<string, string>
      reads this
    {
      Contents(f, sh)
    }

    /** idxbuf and the handle describe the record at offset o. */
    ghost predicate Loaded(o: nat)
      reads this, idxbuf
    {
      && o in f.recs && o in f.ptr && idxoff == o && ptrval == f.ptr[o]
      && CString(idxbuf[..]) == f.recs[o].key && datoff == f.recs[o].datoff && datlen == f.recs[o].datlen
    }

    // ----- one field or record at a time -----

    /** Read a chain pointer field from anywhere in the index file. */
    method ReadPtr(offset: nat) returns (v: nat)
      requires Spelled() && offset in f.ptr
      modifies this`idxpos
      ensures v == f.ptr[offset]
    {
      assert PtrAt(idx, offset, f.ptr[offset]);
      PtrFieldWidth(f.ptr[offset]);
      idxpos := offset + PTR_SZ;
      v := Atol(idx[offset..offset + PTR_SZ]);
    }

    method WritePtr(offset: nat, v: nat)
      requires Spelled() && offset in f.ptr && v <= PTR_MAX
      modifies this`idx, this`idxpos, this`f
      ensures Spelled() && f == DbFiles.WritePtr(old(f), offset, v)
    {
      WritePtrBytes(idx, f, offset, v);
      PtrFieldWidth(v);
      assert PtrAt(idx, offset, f.ptr[offset]);
      idx := Splice(idx, offset, PtrField(v));
      idxpos := offset + PTR_SZ;
      f := DbFiles.WritePtr(f, offset, v);
    }

    /**
     * Read an index record into idxbuf, cut it at its separators, and set the handle from
     * it.  Offset 0 means the record at the current position, or -1 at the end of the file.
     * The assertions are the checks that would end the process.
     */
    method ReadIdx(offset: nat) returns (r: int)
      requires Spelled()
      requires if offset == 0 then idxpos == |idx| || idxpos in f.recs else offset in f.recs
      modifies this`idxpos, this`idxoff, this`idxlen, this`datoff, this`datlen, this`ptrval, idxbuf
      ensures var o := if offset == 0 then old(idxpos) else offset;
              if o in f.recs then Loaded(o) && r == ptrval && idxpos == o + RecLen(f.recs[o])
              else r == -1 && idxpos == old(idxpos)
    {
      hide Bytes, Text, CString, LegalEntry, RecLen, TextLen, Atol, ParseText;
      idxoff := if offset == 0 then idxpos else offset;
      if idxoff == |idx| {
        assert idxoff !in f.recs by { if idxoff in f.recs { RecordBytes(idx, f, idxoff); } }
        return -1;
      }
      ghost var e := f.recs[idxoff];
      RecordBytes(idx, f, idxoff);
      ptrval := Atol(idx[idxoff..idxoff + PTR_SZ]);
      var base := idxoff + PTR_SZ + IDXLEN_SZ;
      var len := Atol(idx[idxoff + PTR_SZ..base]);
      assert IDXLEN_MIN <= len <= IDXLEN_MAX;                  // invalid length
      idxlen := len;
      idxpos := base + idxlen;
      ParseText_RoundTrip(e);
      var ok := LoadText(base);
      assert ok;
      return ptrval;
    }

    /**
     * Read idxlen bytes of the index file into idxbuf and take them apart; not ok where one of
     * the checks fails.  Whatever the bytes are, that is what ParseText makes of them.
     */
    method LoadText(base: nat) returns (ok: bool)
      requires idxbuf.Length == IDXLEN_MAX + 2 && IDXLEN_MIN <= idxlen <= IDXLEN_MAX && base + idxlen <= |idx|
      modifies this`datoff, this`datlen, idxbuf
      ensures var parsed := ParseText(idx[base..base + idxlen]);
              ok == parsed.Some? && (ok ==> parsed.value == Entry(CString(idxbuf[..]), datoff, datlen))
    {
      hide CString, ParseFields;
      ghost var text := idx[base..base + idxlen];
      forall i | 0 <= i < idxlen { idxbuf[i] := idx[base + i]; }
      assert idxbuf[..idxlen] == text;
      if idxbuf[idxlen - 1] != NEWLINE {                       // missing newline
        return false;
      }
      idxbuf[idxlen - 1] := NUL;
      assert idxbuf[..idxlen - 1] == text[..idxlen - 1];
      CutShort(idxbuf[..], idxlen - 1);
      ok := CutRecord();
    }

    /** Replace the separators of the string in idxbuf with NULs and read the numbers between them. */
    method CutRecord() returns (ok: bool)
      requires NUL in idxbuf[..]
      modifies this`datoff, this`datlen, idxbuf
      ensures var parsed := ParseFields(CString(old(idxbuf[..])));
              ok == parsed.Some? && (ok ==> parsed.value == Entry(CString(idxbuf[..]), datoff, datlen))
    {
      hide CString, StrChr, Atol;
      ghost var buf := idxbuf[..];
      assert idxbuf[0..] == buf;
      var p1, p2: nat;
      ok, p1 := CutAt(0);                                      // missing first separator
      if !ok {
        return;
      }
      ghost var buf1 := idxbuf[..];
      assert idxbuf[0..] == buf1;
      ok, p2 := CutAt(p1);                                     // missing second separator
      if !ok {
        return;
      }
      BehindTheEnd(buf1, p2 - 1);
      if SEP in CString(idxbuf[p2..]) {                        // too many separators
        return false;
      }
      var off, len := Atol(CString(idxbuf[p1..])), Atol(CString(idxbuf[p2..]));
      if off < 0 || len <= 0 || len > DATLEN_MAX {             // starting offset < 0, or invalid length
        return false;
      }
      datoff, datlen := off, len;
    }

    /** Put a NUL over the first separator of the string at k; what is behind it starts at p. */
    method CutAt(k: nat) returns (ok: bool, p: nat)
      requires k <= idxbuf.Length && NUL in idxbuf[k..]
      modifies idxbuf
      ensures var s := CString(old(idxbuf[k..]));
              var n := StrChr(s, SEP);
              if n == |s| then !ok && idxbuf[..] == old(idxbuf[..])
              else ok && p == k + n + 1 && k + |s| < idxbuf.Length && idxbuf[..] == old(idxbuf[..])[p - 1 := NUL]
                   && CString(idxbuf[k..]) == s[..n] && CString(idxbuf[p..]) == s[n + 1..] && NUL in idxbuf[p..]
    {
      hide CString, StrChr;
      ghost var buf := idxbuf[..];
      var s := CString(idxbuf[k..]);
      var n := StrChr(s, SEP);
      if n == |s| {
        return false, k;
      }
      assert buf[k..] == idxbuf[k..];
      CutField(buf, k, n);
      ok, p := true, k + n + 1;
      idxbuf[k + n] := NUL;
      ghost var cut := buf[k + n := NUL];
      assert idxbuf[..] == cut;
      assert idxbuf[k..] == cut[k..] && idxbuf[p..] == cut[p..];
    }

    /** Format an index record into idxbuf and write it, over the record at offset or at the end. */
    method WriteIdx(key: string, offset: nat, append: bool, next: nat)
      requires Spelled() && next <= PTR_MAX && LegalEntry(Entry(key, datoff, datlen))
      requires if append then |idx| <= PTR_MAX
               else offset in f.recs && RecLen(Entry(key, datoff, datlen)) == RecLen(f.recs[offset])
      modifies this`idx, this`idxpos, this`idxoff, this`ptrval, this`f, idxbuf
      ensures Spelled() && ptrval == next && idxoff == if append then old(|idx|) else offset
      ensures var e := Entry(key, datoff, datlen);
              f == if append then DbFiles.AppendIdx(old(f), e, next) else DbFiles.WriteIdx(old(f), offset, e, next)
    {
      hide Bytes, WF, PtrField, Padded, LegalEntry;
      ghost var e := Entry(key, datoff, datlen);
      ptrval := next;
      var text := Text(Entry(key, datoff, datlen));
      var len := |text|;
      assert IDXLEN_MIN <= len <= IDXLEN_MAX by { LegalLength(e); }   // invalid length
      forall i | 0 <= i < len { idxbuf[i] := text[i]; }
      idxbuf[len] := NUL;
      assert idxbuf[..len] == text;
      var asciiptrlen := PtrField(next) + Padded(len, IDXLEN_SZ);
      idxoff := if append then |idx| else offset;
      BodyIs(next, e);
      EndOfFile(idx, f);
      if append {
        AppendIdxBytes(idx, f, e, next);
        assert idx + (asciiptrlen + idxbuf[..len]) == idx + PtrField(next) + Body(e);
        idx := idx + (asciiptrlen + idxbuf[..len]);
        f := DbFiles.AppendIdx(f, e, next);
      } else {
        WriteIdxBytes(idx, f, offset, e, next);
        idx := Splice(idx, idxoff, asciiptrlen + idxbuf[..len]);
        f := DbFiles.WriteIdx(f, offset, e, next);
      }
      idxpos := idxoff + PTR_SZ + IDXLEN_SZ + len;
    }

    /** Write a data record, over the one at offset or at the end. */
    method WriteDat(data: string, offset: nat, append: bool)
      requires Spelled() && NUL !in data && (!append ==> offset + |data| < |dat|)
      modifies this`dat, this`datoff, this`datlen, this`f
      ensures Spelled() && datlen == |data| + 1 && datoff == if append then old(|dat|) else offset
      ensures f == if append then DbFiles.AppendDat(old(f), data) else DbFiles.WriteDat(old(f), offset, data)
    {
      hide Encodes, Cells;
      datoff := if append then |dat| else offset;
      datlen := |data| + 1;
      if append {
        dat := dat + data + [NEWLINE];
        f := DbFiles.AppendDat(f, data);
      } else {
        SpliceHoldsNo(dat, offset, data + [NEWLINE], NUL);
        dat := Splice(dat, offset, data + [NEWLINE]);
        f := DbFiles.WriteDat(f, offset, data);
      }
      SameIndex(idx, old(f), f);
    }

    /** Read the data record the handle describes into datbuf. */
    method ReadDat(ghost o: nat) returns (data: string)
      requires Sound() && Loaded(o)
      modifies datbuf
      ensures data == Content(f.dat, f.recs[o])
    {
      hide WF, Encodes, CString;
      DataOf(f, sh, o);
      ghost var content := Content(f.dat, f.recs[o]);
      assert |content| == datlen - 1 && forall i :: 0 <= i < |content| ==> content[i] == dat[datoff + i];
      hide Content;
      forall i | 0 <= i < datlen { datbuf[i] := dat[datoff + i]; }
      assert datbuf[datlen - 1] == NEWLINE;                    // missing newline
      datbuf[datlen - 1] := NUL;
      assert datbuf[..datlen - 1] == content;
      CStringOf(datbuf[..], content);
      data := CString(datbuf[..]);
    }

    // ----- walking the lists -----

    method DbHash(key: string) returns (h: nat)
      ensures h == Hash(key)
    {
      var hval, i := 0, 0;
      while i < |key|
        invariant i <= |key| && hval == KeySum(key[..i]) % ULONG
      {
        assert key[..i + 1][..i] == key[..i];
        SumWraps(KeySum(key[..i]), CharValue(key[i]) * (i + 1));
        hval := (hval + CharValue(key[i]) * (i + 1)) % ULONG;
        i := i + 1;
      }
      assert key[..|key|] == key;
      h := hval % NHASH_DEF;
    }

    /** Walk the key's hash chain; i is where on it the search stopped. */
    method FindAndLock(key: string) returns (rc: int, ghost i: nat)
      requires Sound() && NUL !in key
      modifies this`idxpos, this`idxoff, this`idxlen, this`datoff, this`datlen, this`ptrval
      modifies this`ptroff, this`chainoff, idxbuf
      ensures chainoff == Slot(SlotOf(key)) && rc == if key in sh.at then 0 else -1
      ensures rc == 0 ==> var p := sh.paths[SlotOf(key)];
              0 < i < |p| && p[i] == sh.at[key] && ptroff == p[i - 1] && Loaded(p[i])
    {
      hide Bytes, WF, Hash, CString, KeySum;
      var h := DbHash(key);
      chainoff := h * PTR_SZ + HASH_OFF;
      assert chainoff == ChainOff(key);
      ptroff := chainoff;
      ghost var c := SlotOf(key);
      PathsCount(f, sh, c);
      ghost var p := sh.paths[c];
      i := 1;
      ListNext(f, sh, c, 0);
      var offset := ReadPtr(ptroff);
      while offset != 0
        invariant chainoff == Slot(c) && 0 < i <= |p| && ptroff == p[i - 1] && offset == Next(p, i - 1)
        invariant forall j :: 0 < j < i ==> p[j] in f.recs && f.recs[p[j]].key != key
        decreases |p| - i
      {
        assert i < |p|;
        ListNext(f, sh, c, i);
        var nextoffset := ReadIdx(offset);
        if CString(idxbuf[..]) == key { break; }
        ptroff := offset;
        offset := nextoffset;
        i := i + 1;
      }
      KeyOnChain(f, sh, key);
      if offset == 0 {
        if i < |p| { ListNext(f, sh, c, i); }
        rc := -1;
      } else {
        FoundIsAt(f, sh, offset);
        rc := 0;
      }
    }

    /** Take a free record of the right sizes, if there is one, off the free list. */
    method FindFree(keylen: nat, datlen: nat) returns (rc: int, ghost i: nat)
      requires Sound()
      modifies this`idx, this`idxpos, this`idxoff, this`idxlen, this`datoff, this`datlen, this`ptrval
      modifies this`f, this`sh, idxbuf
      ensures Sound() && Map() == old(Map()) && sh.at == old(sh.at)
      ensures forall l :: l in sh.place && l != idxoff ==> l in old(sh.place) && sh.place[l] == old(sh.place[l])
      ensures f.recs == old(f.recs) && f.dat == old(f.dat) && f.idxEnd == old(f.idxEnd)
      ensures sh.paths[1..] == old(sh.paths[1..]) && |sh.paths| == SLOTS
      ensures rc == if FreeFits(old(f), old(sh), keylen, datlen) then 0 else -1
      ensures rc == 0 ==> Loaded(idxoff) && idxoff in sh.place && sh.place[idxoff] == PRIVATE
                          && |f.recs[idxoff].key| == keylen && f.recs[idxoff].datlen == datlen
      ensures rc == -1 ==> f == old(f) && sh == old(sh)
      ensures var p := old(sh.paths[0]);
              rc == 0 ==> (0 < i < |p| && idxoff == p[i] && sh == TakenShape(old(sh), i, 0)
                           && forall j :: 0 < j < i ==> !Fits(old(f), p[j], keylen, datlen))
    {
      hide Bytes, WF, CString;
      var saveoffset := FREE_OFF;
      PathsCount(f, sh, 0);
      ghost var p := sh.paths[0];
      i := 1;
      ListNext(f, sh, 0, 0);
      var offset := ReadPtr(saveoffset);
      while offset != 0
        invariant 0 < i <= |p| && saveoffset == p[i - 1] && offset == Next(p, i - 1)
        invariant forall j :: 0 < j < i ==> !Fits(f, p[j], keylen, datlen)
        modifies this`idxpos, this`idxoff, this`idxlen, this`datoff, this`datlen, this`ptrval, idxbuf
        decreases |p| - i
      {
        assert i < |p|;
        ListNext(f, sh, 0, i);
        var nextoffset := ReadIdx(offset);
        if |CString(idxbuf[..])| == keylen && this.datlen == datlen { break; }
        saveoffset := offset;
        offset := nextoffset;
        i := i + 1;
      }
      if offset == 0 {
        if i < |p| { ListNext(f, sh, 0, i); }
        rc := -1;
      } else {
        assert Fits(f, p[i], keylen, datlen);
        TakeFree(saveoffset, i);
        rc := 0;
      }
    }

    /** Take the current record, element i of the free list, off it. */
    method TakeFree(saveoffset: nat, ghost i: nat)
      requires |sh.paths| == SLOTS && 0 < i < |sh.paths[0]| && sh.paths[0][i] == idxoff
               && sh.paths[0][i - 1] == saveoffset
      requires Loaded(idxoff) && Sound()
      modifies this`idx, this`idxpos, this`f, this`sh
      ensures Sound() && Map() == old(Map()) && Loaded(idxoff)
      ensures f == DbFiles.WritePtr(old(f), saveoffset, ptrval) && sh == TakenShape(old(sh), i, 0)
    {
      hide Bytes, WF, CString, Contents;
      ListNext(f, sh, 0, i);
      ListNext(f, sh, 0, i - 1);
      PtrIsSmall(idx, f, idxoff);
      ghost var f0, sh0 := f, sh;
      WritePtr(saveoffset, ptrval);
      sh := TakenShape(sh, i, 0);
      TakeStep(f0, sh0, i, 1, 0, f, sh);
    }

    // ----- the operations -----

    /** Move the current record, element i of its hash chain, to the free list. */
    method DoDelete(ghost i: nat)
      requires Sound() && idxoff in f.recs && Loaded(idxoff)
      requires var c := SlotOf(f.recs[idxoff].key);
               0 < i < |sh.paths[c]| && sh.paths[c][i] == idxoff && ptroff == sh.paths[c][i - 1]
      modifies this`idx, this`dat, this`idxpos, this`idxoff, this`datoff, this`datlen, this`ptrval
      modifies this`f, this`sh, idxbuf, datbuf
      ensures Sound() && old(idxoff) in old(f).recs && Map() == old(Map()) - {old(f).recs[old(idxoff)].key}
      ensures sh == DeletedShape(old(sh), SlotOf(old(f).recs[old(idxoff)].key), i, old(f).recs[old(idxoff)].key)
      ensures f == DbFiles.DoDelete(old(f), old(idxoff), old(ptroff), old(ptrval))
      ensures |idx| == old(|idx|) && |dat| == old(|dat|)
    {
      hide Bytes, WF, CString, Hash, Content, Contents;
      ghost var o, e, f0, sh0 := idxoff, f.recs[idxoff], f, sh;
      ghost var c := SlotOf(e.key);
      PathsCount(f, sh, c);
      PathsCount(f, sh, 0);
      ListNext(f, sh, c, i);
      ListNext(f, sh, c, i - 1);
      ListNext(f, sh, 0, 0);
      RecordFacts(f, sh, o);
      LegalEntries(idx, f, o);
      PtrIsSmall(idx, f, o);
      PtrIsSmall(idx, f, FREE_OFF);
      BlankBuffers();
      var blank := CString(idxbuf[..]);
      WriteDat(CString(datbuf[..]), datoff, false);
      var freeptr := ReadPtr(FREE_OFF);
      var saveptr := ptrval;
      RewriteKeepsLength(e, blank);
      WriteIdx(blank, idxoff, false, freeptr);
      WritePtr(FREE_OFF, idxoff);
      WritePtr(ptroff, saveptr);
      sh := DeletedShape(sh, c, i, e.key);
      DeleteStep(f0, sh0, c, i, 0, f, sh);
      DeletedSizes(f0, o, old(ptroff), saveptr);
      EndOfFile(old(idx), f0);
      EndOfFile(idx, f);
    }

    /** Set the data buffer and the key to all blanks. */
    method BlankBuffers()
      requires idxbuf != datbuf && idxbuf.Length == IDXLEN_MAX + 2 && datbuf.Length == DATLEN_MAX + 2
      requires 0 < datlen <= DATLEN_MAX && |CString(idxbuf[..])| < idxbuf.Length
      modifies idxbuf, datbuf
      ensures CString(datbuf[..]) == Blanks(datlen - 1)
      ensures CString(idxbuf[..]) == Blanks(|old(CString(idxbuf[..]))|)
    {
      hide CString;
      var i := 0;
      while i < datlen - 1
        invariant i <= datlen - 1 && idxbuf[..] == old(idxbuf[..])
        invariant forall k :: 0 <= k < i ==> datbuf[k] == ' '
        modifies datbuf
      {
        datbuf[i] := ' ';
        i := i + 1;
      }
      datbuf[i] := NUL;
      assert datbuf[..][..i] == Blanks(i);
      CStringOf(datbuf[..], Blanks(i));
      ghost var dbuf := datbuf[..];
      CStringIs(idxbuf[..]);
      var n, buf := |CString(idxbuf[..])|, idxbuf[..];
      i := 0;
      while idxbuf[i] != NUL
        invariant i <= n && idxbuf[i..] == buf[i..]
        invariant forall k :: 0 <= k < i ==> idxbuf[k] == ' '
        modifies idxbuf
        decreases n - i
      {
        assert idxbuf[i] == idxbuf[i..][0] == buf[i];
        assert i < n;
        idxbuf[i] := ' ';
        i := i + 1;
        assert idxbuf[i..] == buf[i - 1..][1..];
      }
      assert idxbuf[i] == idxbuf[i..][0] == buf[i];
      assert idxbuf[..][..i] == Blanks(i);
      CStringOf(idxbuf[..], Blanks(i));
      assert datbuf[..] == dbuf;
    }

    /** Append data and index record and put the record at the front of its chain. */
    method AppendRecord(key: string, data: string, next: nat)
      requires Sound() && key !in sh.at && NUL !in data && chainoff == Slot(SlotOf(key))
      requires chainoff in f.ptr && next == f.ptr[chainoff] && |idx| <= PTR_MAX
      requires LegalEntry(Entry(key, |dat|, |data| + 1))
      modifies this`idx, this`dat, this`idxpos, this`idxoff, this`datoff, this`datlen, this`ptrval
      modifies this`f, this`sh, idxbuf
      ensures Sound() && Map() == old(Map())[key := data]
      ensures sh.place == old(sh.place)[old(|idx|) := SlotOf(key)]
      ensures |idx| == old(|idx|) + RecLen(Entry(key, old(|dat|), |data| + 1)) && |dat| == old(|dat|) + |data| + 1
    {
      hide Bytes, WF, CString, Hash, Content, Contents, LegalEntry;
      ghost var f0, sh0, c := f, sh, SlotOf(key);
      EndOfFile(idx, f);
      PathsCount(f, sh, c);
      PtrIsSmall(idx, f, chainoff);
      WriteDat(data, 0, true);
      ghost var f1 := f;
      WriteIdx(key, 0, true, next);
      ghost var f2 := f;
      WritePtr(chainoff, idxoff);
      sh := LinkedShape(IdxAppendedShape(DatAppendedShape(sh, datoff, datlen, 0), idxoff, datoff, 0), c, idxoff, key);
      AppendRecordStep(f0, sh0, key, data, f1, f2, f, sh);
      EndOfFile(idx, f);
    }

    /** Fill the free record the handle describes and put it at the front of its chain. */
    method ReuseRecord(key: string, data: string, next: nat)
      requires Sound() && key !in sh.at && NUL !in data && KeyOk(key) && chainoff == Slot(SlotOf(key))
      requires Loaded(idxoff) && idxoff in sh.place && sh.place[idxoff] == PRIVATE
      requires |f.recs[idxoff].key| == |key| && f.recs[idxoff].datlen == |data| + 1
      requires chainoff in f.ptr && next == f.ptr[chainoff]
      modifies this`idx, this`dat, this`idxpos, this`idxoff, this`datoff, this`datlen, this`ptrval
      modifies this`f, this`sh, idxbuf
      ensures Sound() && Map() == old(Map())[key := data]
      ensures sh.place == old(sh.place)[old(idxoff) := SlotOf(key)]
      ensures |idx| == old(|idx|) && |dat| == old(|dat|)
    {
      hide Bytes, WF, CString, Hash, Content, Contents;
      ghost var f0, sh0, c, o := f, sh, SlotOf(key), idxoff;
      PathsCount(f, sh, c);
      RecordFacts(f, sh, o);
      LegalEntries(idx, f, o);
      PtrIsSmall(idx, f, chainoff);
      RewriteKeepsLength(f.recs[o], key);
      WriteDat(data, datoff, false);
      WriteIdx(key, idxoff, false, next);
      ghost var f1 := f;
      WritePtr(chainoff, idxoff);
      sh := LinkedShape(sh, c, idxoff, key);
      ListNext(f0, sh0, c, 0);
      ReuseRecordStep(f0, sh0, o, key, data, f1, f, sh);
      EndOfFile(old(idx), f0);
      EndOfFile(idx, f);
    }

    /** Create an empty database: 138 chain pointers of value 0 and a newline. */
    constructor ()
      ensures Valid() && Map() == map[] && |idx| == IDX_BASE && dat == [] && fresh(idxbuf) && fresh(datbuf)
    {
      idx, dat, idxpos := EmptyHeader(SLOTS) + [NEWLINE], [], IDX_BASE;
      idxbuf, datbuf := new char[IDXLEN_MAX + 2], new char[DATLEN_MAX + 2];
      f, sh := EmptyFiles(), EmptyShape();
      new;
      EmptyIsSound();
    }

    /** Fetch the data stored under a key. */
    method Fetch(key: string) returns (data: Option<string>)
      requires Valid() && NUL !in key
      modifies this`idxpos, this`idxoff, this`idxlen, this`datoff, this`datlen, this`ptrval
      modifies this`ptroff, this`chainoff, idxbuf, datbuf
      ensures Valid() && f == old(f) && sh == old(sh)
      ensures data == if key in Map() then Some(Map()[key]) else None
    {
      hide Bytes, WF, CString, Hash, Content;
      var rc, i := FindAndLock(key);
      if rc < 0 {
        data := None;
      } else {
        KeyOnChain(f, sh, key);
        var text := ReadDat(sh.at[key]);
        data := Some(text);
      }
    }

    /** Delete the record of a key, if there is one. */
    method Delete(key: string) returns (rc: int)
      requires Valid() && NUL !in key
      modifies this, idxbuf, datbuf
      ensures Valid() && Map() == old(Map()) - {key}
      ensures rc == if key in old(Map()) then 0 else -1
    {
      hide Bytes, WF, CString, Hash, Content;
      var found, i := FindAndLock(key);
      if found == 0 {
        KeyOnChain(f, sh, key);
        DoDelete(i);
        rc := 0;
      } else {
        assert Map() - {key} == Map();
        rc := -1;
      }
    }

    /** Store data under a key: insert, replace or both. */
    method Store(key: string, data: string, flag: int) returns (rc: int)
      requires Valid() && KeyOk(key) && NUL !in data
      requires flag in {DB_INSERT, DB_REPLACE, DB_STORE} ==> DATLEN_MIN <= |data| + 1 <= DATLEN_MAX
      requires flag in {DB_INSERT, DB_REPLACE, DB_STORE} && WouldAppend(f, sh, key, data, flag) ==> HasRoom(key, data)
      modifies this, idxbuf, datbuf
      ensures Valid() && (Map(), rc) == StoreSpec(old(Map()), key, data, flag)
      ensures flag < 1 || flag > 3 ==> rc == -1 && Map() == old(Map())
      ensures flag == 1 && key in old(Map()) ==> rc == 1 && Map() == old(Map())
      ensures flag == 2 && key !in old(Map()) ==> rc == -1 && Map() == old(Map())
      ensures (flag == 1 && key !in old(Map())) || (flag == 2 && key in old(Map())) || flag == 3 ==>
                rc == 0 && Map() == old(Map())[key := data]
      ensures var grows := rc == 0 && if key in old(Map()) then |old(Map())[key]| != |data|
                                      else !FreeFits(old(f), old(sh), |key|, |data| + 1);
              && |idx| == old(|idx|) + (if grows then RecLen(Entry(key, old(|dat|), |data| + 1)) else 0)
              && |dat| == old(|dat|) + (if grows then |data| + 1 else 0)
    {
      hide Bytes, WF, CString, Hash, Content, LegalEntry, FreeFits;
      if flag != DB_INSERT && flag != DB_REPLACE && flag != DB_STORE { return -1; }
      var found, i := FindAndLock(key);
      assert key in Map() <==> key in sh.at;
      if found < 0 {
        if flag == DB_REPLACE { return -1; }
        StoreNew(key, data);
      } else {
        if flag == DB_INSERT { return 1; }
        KeyOnChain(f, sh, key);
        StoreOver(key, data, i);
      }
      rc := 0;
    }

    /** What the checks on a new record's length and offset ask for. */
    ghost predicate HasRoom(key: string, data: string)
      reads this
    {
      |idx| <= PTR_MAX && LegalEntry(Entry(key, |dat|, |data| + 1))
    }

    /** The key was not found: reuse a free record or append a new one. */
    method StoreNew(key: string, data: string)
      requires Valid() && KeyOk(key) && NUL !in data && key !in sh.at && chainoff == Slot(SlotOf(key))
      requires !FreeFits(f, sh, |key|, |data| + 1) ==> HasRoom(key, data)
      modifies this, idxbuf, datbuf
      ensures Valid() && Map() == old(Map())[key := data]
      ensures var grows := !FreeFits(old(f), old(sh), |key|, |data| + 1);
              && |idx| == old(|idx|) + (if grows then RecLen(Entry(key, old(|dat|), |data| + 1)) else 0)
              && |dat| == old(|dat|) + (if grows then |data| + 1 else 0)
    {
      hide Bytes, WF, CString, Hash, Content, Contents, LegalEntry, FreeFits;
      ghost var c := SlotOf(key);
      PathsCount(f, sh, c);
      ListNext(f, sh, c, 0);
      EndOfFile(idx, f);
      var ptrval := ReadPtr(chainoff);
      ghost var chain := sh.paths[c];
      var rf, j := FindFree(|key|, |data| + 1);
      SamePath(old(sh).paths, sh.paths, c);
      ListNext(f, sh, c, 0);
      EndOfFile(idx, f);
      if rf < 0 {
        AppendRecord(key, data, ptrval);
      } else {
        ReuseRecord(key, data, ptrval);
      }
    }

    /** The key was found: overwrite its data, or delete it and append it anew. */
    method StoreOver(key: string, data: string, ghost i: nat)
      requires Valid() && KeyOk(key) && NUL !in data && key in sh.at && Loaded(sh.at[key])
      requires f.recs[sh.at[key]].key == key && chainoff == Slot(SlotOf(key))
      requires var p := sh.paths[SlotOf(key)]; 0 < i < |p| && p[i] == sh.at[key] && ptroff == p[i - 1]
      requires |Content(f.dat, f.recs[sh.at[key]])| != |data| ==> HasRoom(key, data)
      modifies this, idxbuf, datbuf
      ensures Valid() && Map() == old(Map())[key := data]
      ensures var grows := |old(Map())[key]| != |data|;
              && |idx| == old(|idx|) + (if grows then RecLen(Entry(key, old(|dat|), |data| + 1)) else 0)
              && |dat| == old(|dat|) + (if grows then |data| + 1 else 0)
    {
      hide Bytes, WF, CString, Hash, Content, Contents, LegalEntry;
      ghost var o, c, f0 := sh.at[key], SlotOf(key), f;
      PathsCount(f, sh, c);
      ListNext(f, sh, c, i);
      RecordFacts(f, sh, o);
      ContentLength(f, sh, o);
      ContentsAt(f, sh, key);
      EndOfFile(idx, f);
      if |data| + 1 != datlen {
        DeletedSizes(f, o, ptroff, ptrval);
        DoDelete(i);
        PathsCount(f, sh, c);
        ListNext(f, sh, c, 0);
        var ptrval := ReadPtr(chainoff);
        EndOfFile(idx, f);
        AppendRecord(key, data, ptrval);
        assert (old(Map()) - {key})[key := data] == old(Map())[key := data];
      } else {
        WriteDat(data, datoff, false);
        OverwriteStep(f0, sh, o, data, c, 0, f);
        EndOfFile(idx, f);
      }
    }

    // ----- the sequential scan -----

    /** The read position is at the start of record k, or at the end of the file. */
    ghost predicate AtRecord(k: nat)
      reads this
    {
      k <= |sh.offs| && idxpos == if k < |sh.offs| then sh.offs[k] else |idx|
    }

    method Rewind()
      requires Valid()
      modifies this`idxpos, this`idxoff
      ensures Valid() && AtRecord(0)
    {
      hide Bytes, WF;
      idxpos := (NHASH_DEF + 1) * PTR_SZ + 1;
      idxoff := idxpos;
      EndOfFile(idx, f);
      OffsAt(f, sh, 0);
    }

    /** The next record whose key is not blank, in file order; None at the end. */
    method NextRec(ghost k: nat) returns (rec: Option<(string, string)>, ghost k': nat)
      requires Valid() && AtRecord(k)
      modifies this`idxpos, this`idxoff, this`idxlen, this`datoff, this`datlen, this`ptrval, idxbuf, datbuf
      ensures Valid() && AtRecord(k') && k <= k'
      ensures rec.None? ==> k' == |sh.offs| && forall j :: k <= j < k' ==> BlankAt(f, sh.offs, j)
      ensures rec.Some? ==> k < k' && (forall j :: k <= j < k' - 1 ==> BlankAt(f, sh.offs, j))
                            && !BlankAt(f, sh.offs, k' - 1) && rec.value == RecordAt(f, sh.offs[k' - 1])
    {
      hide Bytes, WF, CString, RecLen, Content, Contents, AllBlank;
      k' := k;
      var blank := true;
      while blank
        invariant AtRecord(k') && k <= k' && if blank then true else k < k'
        invariant forall j :: k <= j < k' - (if blank then 0 else 1) ==> BlankAt(f, sh.offs, j)
        invariant !blank ==> Loaded(sh.offs[k' - 1]) && !BlankAt(f, sh.offs, k' - 1)
        decreases blank, |sh.offs| - k'
      {
        EndOfFile(idx, f);
        OffsAt(f, sh, k');
        var r := ReadIdx(0);
        if r < 0 { return None, k'; }
        OffsAt(f, sh, k' + 1);
        KeyIsShort(idx, f, idxoff);
        blank := KeyIsBlank();
        k' := k' + 1;
      }
      var key := CString(idxbuf[..]);
      var data := ReadDat(sh.offs[k' - 1]);
      rec := Some((key, data));
    }

    /** Skip blanks until a NUL or something else. */
    method KeyIsBlank() returns (blank: bool)
      requires |CString(idxbuf[..])| < idxbuf.Length
      ensures blank == AllBlank(CString(idxbuf[..]))
    {
      ghost var key := CString(idxbuf[..]);
      CStringIs(idxbuf[..]);
      var i := 0;
      while idxbuf[i] != NUL && idxbuf[i] == ' '
        invariant i <= |key| && forall j :: 0 <= j < i ==> key[j] == ' '
        decreases |key| - i
      {
        i := i + 1;
      }
      blank := idxbuf[i] == NUL;
    }

    /** db_rewind and db_nextrec until it returns NULL. */
    method Scan() returns (out: seq<(string, string)>)
      requires Valid()
      modifies this`idxpos, this`idxoff, this`idxlen, this`datoff, this`datlen, this`ptrval, idxbuf, datbuf
      ensures Valid() && out == Visible(f, sh.offs)
    {
      hide Bytes, WF, Contents, BlankAt, RecordAt, Visible;
      VisibleEnds(f);
      Rewind();
      ghost var k := 0;
      out := [];
      while true
        invariant Valid() && AtRecord(k) && out + Visible(f, sh.offs[k..]) == Visible(f, sh.offs)
        decreases |sh.offs| - k
      {
        var rec, k' := NextRec(k);
        if rec.None? {
          VisibleSkips(f, sh.offs, k, k');
          assert sh.offs[k'..] == [] && out + [] == out;
          return;
        }
        VisibleSkips(f, sh.offs, k, k' - 1);
        ghost var rest := Visible(f, sh.offs[k'..]);
        assert (out + [rec.value]) + rest == out + ([rec.value] + rest);
        out := out + [rec.value];
        k := k';
      }
    }
  }

  ghost predicate BlankAt(f: Files, offs: seq<nat>, j: nat) {
    j < |offs| && offs[j] in f.recs && AllBlank(f.recs[offs[j]].key)
  }

  ghost function RecordAt(f: Files, o: nat): (string, string) {
    if o in f.recs then (f.recs[o].key, Content(f.dat, f.recs[o])) else ("", "")
  }

  /** The records at the given offsets whose key is not all blank. */
  ghost function Visible(f: Files, offs: seq<nat>): seq<(string, string)> {
    if offs == [] then []
    else (if BlankAt(f, offs, 0) then [] else [RecordAt(f, offs[0])]) + Visible(f, offs[1..])
  }

  lemma VisibleEnds(f: Files)
    ensures Visible(f, []) == []
  {
  }

  lemma {:induction false} VisibleSkips(f: Files, offs: seq<nat>, k: nat, k': nat)
    requires k <= k' <= |offs| && forall j :: k <= j < k' ==> BlankAt(f, offs, j)
    ensures Visible(f, offs[k..]) == Visible(f, offs[k'..])
    ensures k' < |offs| && !BlankAt(f, offs, k') ==>
              Visible(f, offs[k..]) == [RecordAt(f, offs[k'])] + Visible(f, offs[k' + 1..])
    decreases k' - k
  {
    if k < k' {
      assert BlankAt(f, offs, k) && offs[k..][0] == offs[k] && offs[k..][1..] == offs[k + 1..];
      VisibleSkips(f, offs, k + 1, k');
    } else if k < |offs| {
      assert offs[k..][1..] == offs[k + 1..];
    }
  }

  /**
   * The scan returns exactly the stored records whose key has a character that is not a
   * blank, each once and in file order.  A key of blanks alone is stored and fetched like
   * any other, yet the scan takes its record for a deleted one.
   */
  lemma ScanIsContents(f: Files, sh: Shape)
    requires WF(f, sh) && forall o :: o in sh.place ==> sh.place[o] < SLOTS
    ensures forall k, d :: (k, d) in Visible(f, sh.offs)
                           <==> (k in Contents(f, sh) && Contents(f, sh)[k] == d
                                 && exists i :: 0 <= i < |k| && k[i] != ' ')
    ensures InFileOrder(sh.at, Visible(f, sh.offs))
    ensures forall i, j :: 0 <= i < j < |Visible(f, sh.offs)| ==> Visible(f, sh.offs)[i].0 != Visible(f, sh.offs)[j].0
  {
    hide Lists, Regions, Owned, Hash, Content;
    OffsIncrease(f, sh);
    VisibleOnce(f, sh, sh.offs);
    forall k, d
      ensures (k, d) in Visible(f, sh.offs) <==> k in Contents(f, sh) && Contents(f, sh)[k] == d && !AllBlank(k)
    {
      hide AllBlank;
      if k in sh.at { assert Holds(f.recs, sh.place, sh.at[k], k); }
    }
  }

  /** A key of one blank, in a database that was empty: stored and fetched like any other, and not in the scan. */
  method ScanMissesBlankKey() returns (rc: int, data: Option<string>, out: seq<(string, string)>)
    ensures rc == 0 && data == Some("x") && out == []
  {
    hide WF, Contents, Bytes, Visible, LegalEntry;
    var db := new DB();
    BlankEntryIsLegal();
    rc := db.Store(" ", "x", DB_INSERT);
    data := db.Fetch(" ");
    ghost var m := db.Map();
    ScanIsContents(db.f, db.sh);
    out := db.Scan();
    assert forall k :: k in m ==> AllBlank(k);
    FirstIsIn(out);
  }

  lemma FirstIsIn(out: seq<(string, string)>)
    ensures out == [] || (out[0].0, out[0].1) in out
  {
  }

  /** Each key's record lies behind those of the keys before it. */
  predicate InFileOrder(at: map<string, nat>, out: seq<(string, string)>) {
    && (forall i :: 0 <= i < |out| ==> out[i].0 in at)
    && forall i, j :: 0 <= i < j < |out| ==> at[out[i].0] < at[out[j].0]
  }

  /** What Visible returns for distinct records: those stored under a key that is not blank. */
  lemma {:induction false} VisibleOnce(f: Files, sh: Shape, offs: seq<nat>)
    requires WF(f, sh) && forall o :: o in sh.place ==> sh.place[o] < SLOTS
    requires forall o :: o in offs ==> o in f.recs
    requires forall i, j :: 0 <= i < j < |offs| ==> offs[i] < offs[j]
    ensures forall k, d :: (k, d) in Visible(f, offs) <==>
              k in sh.at && sh.at[k] in offs && (k, d) == RecordAt(f, sh.at[k]) && !AllBlank(k)
    ensures InFileOrder(sh.at, Visible(f, offs))
  {
    hide WF, AllBlank, Content;
    if offs != [] {
      var o, rest := offs[0], offs[1..];
      assert offs == [o] + rest;
      VisibleOnce(f, sh, rest);
      StoredOrBlank(f, sh, o);
      var v, w := Visible(f, offs), Visible(f, rest);
      if BlankAt(f, offs, 0) {
        assert v == w;
        BlankIsNot(f, sh, o);
      } else {
        assert v == [RecordAt(f, o)] + w;
        forall j | 0 <= j < |w| ensures w[j].0 in sh.at && o < sh.at[w[j].0] { assert (w[j].0, w[j].1) in w; }
      }
    }
  }

  lemma StoredOrBlank(f: Files, sh: Shape, o: nat)
    requires WF(f, sh) && o in f.recs && forall l :: l in sh.place ==> sh.place[l] < SLOTS
    ensures !AllBlank(f.recs[o].key) ==> f.recs[o].key in sh.at && sh.at[f.recs[o].key] == o
    ensures forall k :: k in sh.at ==> sh.at[k] in f.recs && f.recs[sh.at[k]].key == k
  {
    hide Tiles, Regions, Owned, Hash, AllBlank, InPlace;
    assert o in f.ptr && o in sh.place;
    forall k | k in sh.at ensures sh.at[k] in f.recs && f.recs[sh.at[k]].key == k {
      assert Holds(f.recs, sh.place, sh.at[k], k);
    }
  }

  lemma BlankIsNot(f: Files, sh: Shape, o: nat)
    requires WF(f, sh) && o in f.recs && AllBlank(f.recs[o].key)
    ensures forall k :: k in sh.at && sh.at[k] == o ==> AllBlank(k)
  {
    forall k | k in sh.at && sh.at[k] == o ensures AllBlank(k) { assert Holds(f.recs, sh.place, sh.at[k], k); }
  }

  /** File order is increasing order. */
  lemma OffsIncrease(f: Files, sh: Shape)
    requires WF(f, sh)
    ensures forall i, j :: 0 <= i < j < |sh.offs| ==> sh.offs[i] < sh.offs[j]
  {
    forall i, j | 0 <= i < j < |sh.offs| ensures sh.offs[i] < sh.offs[j] { OffsLess(f, sh, i, j); }
  }

  lemma {:induction false} OffsLess(f: Files, sh: Shape, i: nat, j: nat)
    requires WF(f, sh) && i < j < |sh.offs|
    ensures sh.offs[i] < sh.offs[j]
  {
    hide WF, Hash;
    OffsAt(f, sh, j);
    if i < j - 1 { OffsLess(f, sh, i, j - 1); }
  }

  /** Record k starts where record k - 1 ends. */
  lemma OffsAt(f: Files, sh: Shape, k: nat)
    requires WF(f, sh)
    ensures k == 0 ==> IDX_BASE == if 0 < |sh.offs| then sh.offs[0] else f.idxEnd
    ensures k < |sh.offs| ==> sh.offs[k] in f.recs
    ensures 0 < k <= |sh.offs| ==>
              sh.offs[k - 1] in f.recs
              && sh.offs[k - 1] + RecLen(f.recs[sh.offs[k - 1]]) == if k < |sh.offs| then sh.offs[k] else f.idxEnd
    ensures k == |sh.offs| ==> f.idxEnd !in f.recs
  {
    hide Lists, Cells, Regions, Owned, Keys;
    if k < |sh.offs| { assert Tile(f.recs, sh.offs, f.idxEnd, k); }
    if 0 < k <= |sh.offs| { assert Tile(f.recs, sh.offs, f.idxEnd, k - 1); }
    TilesEnd(f.recs, sh.offs, f.idxEnd);
  }

  function EmptyHeader(n: nat): string {
    if n == 0 then [] else EmptyHeader(n - 1) + PtrField(0)
  }

  ghost function EmptyFiles(): Files {
    Files(map l: nat | 0 <= l < 966 && IsSlot(l) :: 0, map[], IDX_BASE, [])
  }

  ghost function EmptyShape(): Shape {
    Shape(seq(SLOTS, (c: nat) => [Slot(c)]), map l: nat | 0 <= l < 966 && IsSlot(l) :: l / 7, map[], [], map[], map[])
  }

  lemma {:induction false} EmptyHeaderPtr(n: nat)
    ensures |EmptyHeader(n)| == 7 * n
    ensures forall c :: 0 <= c < n ==> EmptyHeader(n)[7 * c..7 * c + 7] == PtrField(0)
  {
    hide Padded;
    PtrFieldWidth(0);
    if n > 0 {
      EmptyHeaderPtr(n - 1);
      var h := EmptyHeader(n - 1);
      forall c | 0 <= c < n ensures EmptyHeader(n)[7 * c..7 * c + 7] == PtrField(0) {
        if c < n - 1 { assert (h + PtrField(0))[7 * c..7 * c + 7] == h[7 * c..7 * c + 7]; }
      }
    }
  }

  lemma EmptyIsSound()
    ensures Bytes(EmptyHeader(SLOTS) + [NEWLINE], EmptyFiles()) && WF(EmptyFiles(), EmptyShape())
    ensures forall o :: o in EmptyShape().place ==> EmptyShape().place[o] < SLOTS
  {
    hide PtrField, EmptyHeader, PtrAt, Lists, InPlace;
    EmptyPtrs();
    EmptyLists(EmptyFiles().ptr, EmptyShape().paths);
    var f, sh := EmptyFiles(), EmptyShape();
    assert forall l :: l in f.ptr ==> f.ptr[l] == 0;
    assert |EmptyHeader(SLOTS)| == IDX_BASE - 1;
  }

  lemma EmptyPtrs()
    ensures |EmptyHeader(SLOTS)| == IDX_BASE - 1
    ensures forall l :: l in EmptyFiles().ptr ==> PtrAt(EmptyHeader(SLOTS) + [NEWLINE], l, 0)
  {
    hide PtrField, EmptyHeader;
    EmptyHeaderPtr(SLOTS);
    var h := EmptyHeader(SLOTS);
    forall l | l in EmptyFiles().ptr ensures PtrAt(h + [NEWLINE], l, 0) {
      assert h[7 * (l / 7)..7 * (l / 7) + 7] == PtrField(0);
      assert (h + [NEWLINE])[l..l + 7] == h[l..l + 7];
    }
  }

  lemma EmptyLists(ptr: map<nat, nat>, paths: seq<seq<nat>>)
    requires ptr == EmptyFiles().ptr && paths == EmptyShape().paths
    ensures Lists(ptr, paths, EmptyShape().place)
  {
    var place := EmptyShape().place;
    forall c | 0 <= c < SLOTS ensures Path(ptr, paths[c]) && paths[c] == [Slot(c)] {
      assert IsSlot(Slot(c));
      assert Linked(ptr, [Slot(c)], 0);
    }
    forall c, l | 0 <= c < SLOTS && l in paths[c] ensures l in place && place[l] == c {
      assert l == Slot(c) && IsSlot(l);
    }
    forall l | l in place && place[l] < SLOTS ensures l in paths[place[l]] {
      assert l == Slot(place[l]);
    }
  }

  lemma SamePath(paths: seq<seq<nat>>, paths': seq<seq<nat>>, c: nat)
    requires 0 < c < |paths| == |paths'| && paths[1..] == paths'[1..]
    ensures paths[c] == paths'[c]
  {
    assert paths[c] == paths[1..][c - 1];
  }

  lemma ContentLength(f: Files, sh: Shape, o: nat)
    requires WF(f, sh) && o in f.recs
    ensures |Content(f.dat, f.recs[o])| == f.recs[o].datlen - 1
  {
    hide Lists, Cells, Tiles, Keys;
    assert Owns(sh.segs, sh.owner, o, f.recs[o]);
  }

  lemma ContentsAt(f: Files, sh: Shape, key: string)
    requires key in sh.at && sh.at[key] in f.recs
    ensures key in Contents(f, sh) && Contents(f, sh)[key] == Content(f.dat, f.recs[sh.at[key]])
  {
  }

  lemma DeletedSizes(f: Files, o: nat, ptroff: nat, saveptr: nat)
    requires o in f.recs
    ensures var f' := DbFiles.DoDelete(f, o, ptroff, saveptr); f'.idxEnd == f.idxEnd && |f'.dat| == |f.dat|
  {
  }

  /** A C string has no NUL in it and a NUL behind it. */
  lemma CStringIs(s: string)
    ensures |CString(s)| <= |s| && forall k :: 0 <= k < |CString(s)| ==> s[k] != NUL
    ensures |CString(s)| < |s| ==> s[|CString(s)|] == NUL
  {
    var n := StrChr(s, NUL);
    forall k | 0 <= k < n ensures s[k] != NUL { assert s[..n][k] == s[k]; }
  }

  lemma KeyIsShort(idx: string, f: Files, o: nat)
    requires Bytes(idx, f) && o in f.recs
    ensures |f.recs[o].key| < IDXLEN_MAX
  {
    LegalEntries(idx, f, o);
  }

  lemma LegalEntries(idx: string, f: Files, o: nat)
    requires Bytes(idx, f) && o in f.recs
    ensures o <= PTR_MAX && LegalEntry(f.recs[o])
  {
  }

  /** Whether the record at o has room for exactly these sizes. */
  ghost predicate Fits(f: Files, o: nat, keylen: nat, datlen: nat) {
    o in f.recs && |f.recs[o].key| == keylen && f.recs[o].datlen == datlen
  }

  ghost predicate FreeFits(f: Files, sh: Shape, keylen: nat, datlen: nat) {
    |sh.paths| > 0 && exists i :: 0 < i < |sh.paths[0]| && Fits(f, sh.paths[0][i], keylen, datlen)
  }

  lemma PathsCount(f: Files, sh: Shape, c: nat)
    requires WF(f, sh) && c < SLOTS
    ensures |sh.paths| == SLOTS && |sh.paths[c]| > 0
  {
  }

  lemma PtrIsSmall(idx: string, f: Files, l: nat)
    requires Bytes(idx, f) && l in f.ptr
    ensures f.ptr[l] <= PTR_MAX
  {
  }

  /** The text of the record is " :0:2" and a newline: as short as a record can be. */
  lemma BlankEntryIsLegal()
    ensures LegalEntry(Entry(" ", 0, 2))
  {
    assert |Dec(0)| == 1 && |Dec(2)| == 1;
  }

  lemma LegalLength(e: Entry)
    requires LegalEntry(e)
    ensures IDXLEN_MIN <= |Text(e)| <= IDXLEN_MAX
  {
  }

  lemma BodyIs(next: nat, e: Entry)
    ensures PtrField(next) + Padded(|Text(e)|, IDXLEN_SZ) + Text(e) == PtrField(next) + Body(e)
  {
  }

  lemma EndOfFile(idx: string, f: Files)
    requires Bytes(idx, f)
    ensures |idx| == f.idxEnd
  {
  }

  lemma SpliceHoldsNo(s: string, o: nat, t: string, c: char)
    requires c !in s && c !in t
    ensures c !in Splice(s, o, t)
  {
  }

  /** Writes to the data file are nothing to the index file. */
  lemma SameIndex(idx: string, f: Files, f': Files)
    requires Encodes(idx, f) && Apart(f) && f'.ptr == f.ptr && f'.recs == f.recs && f'.idxEnd == f.idxEnd
    ensures Encodes(idx, f') && Apart(f')
  {
  }

  /** A record's data is in the file, has a newline behind it and fits the buffer. */
  lemma DataOf(f: Files, sh: Shape, o: nat)
    requires WF(f, sh) && Limits(f) && o in f.recs
    ensures var e := f.recs[o];
            0 < e.datlen <= DATLEN_MAX && e.datoff + e.datlen <= |f.dat|
            && f.dat[e.datoff + e.datlen - 1] == NEWLINE && NUL !in Content(f.dat, e)
  {
    hide Lists, Cells, Tiles, Keys;
    assert Owns(sh.segs, sh.owner, o, f.recs[o]) && LegalEntry(f.recs[o]);
  }
}
