/** A standard I/O stream over a memory buffer. */
module MemStream {
  import opened CStrings

  const INT_MAX := 0x7fff_ffff

  /** MS_READ, MS_WRITE, MS_APPEND, MS_TRUNCATE */
  datatype Flags = Flags(read: bool, write: bool, append: bool, truncate: bool)

  const NO_FLAGS := Flags(false, false, false, false)

  /** Opened with a '+'. */
  predicate Both(f: Flags) { f.read && f.write }

  function Initial(c: char): Flags { Flags(c == 'r', c == 'w', c == 'a', c == 'w') }

  /** r, w or a, and then any number of '+' and 'b'. */
  predicate LegalType(kind: string) {
    |kind| > 0 && (kind[0] == 'r' || kind[0] == 'w' || kind[0] == 'a')
    && forall i :: 0 < i < |kind| ==> kind[i] == '+' || kind[i] == 'b'
  }

  /** type_to_flags: it accepts exactly the legal types, and 0 stands for an error. */
  method TypeToFlags(kind: string) returns (flags: Flags)
    ensures flags == NO_FLAGS <==> !LegalType(kind)
    ensures LegalType(kind) ==>
              flags == if '+' in kind then Initial(kind[0]).(read := true, write := true) else Initial(kind[0])
    ensures flags != NO_FLAGS <==> (kind != [] && (kind[0] == 'r' || kind[0] == 'w' || kind[0] == 'a')
                                    && forall i :: 1 <= i < |kind| ==> kind[i] == '+' || kind[i] == 'b')
    ensures flags != NO_FLAGS ==>
              ((flags.read <==> kind[0] == 'r' || '+' in kind) && (flags.write <==> kind[0] == 'w' || '+' in kind)
               && (flags.append <==> kind[0] == 'a') && (flags.truncate <==> kind[0] == 'w'))
  {
    flags := NO_FLAGS;
    var i := 0;
    while i < |kind|
      invariant i <= |kind|
      invariant i == 0 ==> flags == NO_FLAGS
      invariant i > 0 ==> LegalType(kind[..i]) && flags != NO_FLAGS
      invariant i > 0 ==>
                  flags == if '+' in kind[..i] then Initial(kind[0]).(read := true, write := true) else Initial(kind[0])
    {
      assert kind[..i + 1] == kind[..i] + [kind[i]];
      assert LegalType(kind) ==> LegalType(kind[..i + 1]);
      if kind[i] == 'r' || kind[i] == 'w' || kind[i] == 'a' {
        if flags != NO_FLAGS {
          flags := NO_FLAGS;
          return;
        }
        flags := Initial(kind[i]);
      } else if kind[i] == '+' {
        if flags == NO_FLAGS {
          return;
        }
        flags := flags.(read := true, write := true);
      } else if kind[i] == 'b' {
        if flags == NO_FLAGS {
          return;
        }
      } else {
        flags := NO_FLAGS;
        return;
      }
      i := i + 1;
    }
    assert kind[..|kind|] == kind;
  }

  // ----- a stream as its user sees it -----

  /** What can be read, where the next read or write is, and how much fits. */
  datatype Stream = Stream(data: string, pos: nat, size: nat)

  predicate Ok(v: Stream) { v.pos <= |v.data| <= v.size }

  function Min(a: int, b: int): int { if a < b then a else b }

  /** These bytes written over a string at an offset, growing it where they go beyond its end. */
  function Over(data: string, off: nat, bytes: string): string
    requires off <= |data|
  {
    data[..off] + bytes + if off + |bytes| < |data| then data[off + |bytes|..] else []
  }

  /** Where a write goes: to the end of an append stream. */
  function WriteAt(v: Stream, append: bool): nat { if append then |v.data| else v.pos }

  function Written(v: Stream, append: bool, bytes: string): (v': Stream)
    requires Ok(v)
    ensures Ok(v') && v'.size == v.size
  {
    var off := WriteAt(v, append);
    var n := Min(|bytes|, v.size - off);
    Stream(Over(v.data, off, bytes[..n]), off + n, v.size)
  }

  function Read(v: Stream, n: nat): string
    requires Ok(v)
  {
    v.data[v.pos..v.pos + Min(n, |v.data| - v.pos)]
  }

  datatype Whence = SeekSet | SeekEnd | SeekCur

  function SeekTo(v: Stream, pos: int, whence: Whence): int {
    match whence
    case SeekSet => pos
    case SeekEnd => |v.data| + pos
    case SeekCur => v.pos + pos
  }

  /** A wider integer stored in an int: its last 32 bits. */
  function ToInt(x: int): int { (x + INT_MAX + 1) % 0x1_0000_0000 - INT_MAX - 1 }

  /** What has been written can be read back from where it was written; nothing before it has changed. */
  lemma WrittenReadsBack(v: Stream, append: bool, bytes: string)
    requires Ok(v)
    ensures var off, v' := WriteAt(v, append), Written(v, append, bytes);
            var n := v'.pos - off;
            0 <= n <= |bytes| && off <= |v'.data| && Read(v'.(pos := off), n) == bytes[..n]
            && v'.data[..off] == v.data[..off]
            && (n < |bytes| ==> |v'.data| == v.size)
            && (append ==> v'.data == v.data + bytes[..n])
            && forall i :: off + n <= i < |v.data| ==> i < |v'.data| && v'.data[i] == v.data[i]
  {
    var off, v' := WriteAt(v, append), Written(v, append, bytes);
    var n := v'.pos - off;
    assert v'.data[off..off + n] == bytes[..n];
    assert v'.data[..off] == v.data[..off];
    if append { assert v.data[..off] == v.data; }
  }

  // ----- the stream -----

  /** find_end: the first NUL, or the end of the buffer. */
  method FindEnd(buf: array<char>) returns (off: nat)
    ensures off == StrChr(buf[..], NUL)
    ensures off <= buf.Length && (forall i :: 0 <= i < off ==> buf[i] != NUL) && (off < buf.Length ==> buf[off] == NUL)
  {
    off := 0;
    while off < buf.Length
      invariant off <= buf.Length && NUL !in buf[..off] && forall i :: 0 <= i < off ==> buf[i] != NUL
    {
      if buf[off] == NUL {
        break;
      }
      off := off + 1;
    }
    StrChrIs(buf[..], NUL, off);
  }

  /** What a stream shows when it has just been opened. */
  function Opened(buf: string, flags: Flags, mine: bool): (v: Stream)
    ensures Ok(v)
  {
    if flags.append then var data := if mine then [] else CString(buf); Stream(data, |data|, |buf|)
    else if flags.truncate then Stream([], 0, |buf|)
    else Stream(buf, 0, |buf|)
  }

  /**
   * fmemopen; a null buffer stands for one to be allocated, and is only good for both directions.
   * room and more say whether the two calls of malloc succeed, opens whether funopen does.
   */
  method FMemOpen(buf: array?<char>, size: nat, kind: string, room: bool, more: bool, opens: bool)
    returns (ms: MemoryStream?)
    requires size <= INT_MAX && (buf != null ==> buf.Length == size)
    ensures ms != null <==> size > 0 && LegalType(kind) && room && opens && (buf == null ==> '+' in kind && more)
    ensures ms != null ==> ms.Valid() && fresh(ms) && ms.buf.Length == size
    ensures ms != null ==> if buf == null then fresh(ms.buf) else ms.buf == buf
    ensures ms != null ==> ms.View() == Opened(ms.buf[..], ms.flags, buf == null)
    ensures ms != null ==> (ms.flags.read <==> kind[0] == 'r' || '+' in kind)
    ensures ms != null ==> (ms.flags.write <==> kind[0] == 'w' || '+' in kind) && (ms.flags.append <==> kind[0] == 'a')
    ensures ms != null && kind[0] == 'r' ==> ms.curpos == 0 && ms.vsize == size
    ensures ms != null && kind[0] == 'w' ==> ms.curpos == 0 && ms.vsize == 0
    ensures ms != null && kind[0] == 'a' ==> ms.curpos == ms.vsize && (buf == null ==> ms.vsize == 0)
    ensures ms != null && kind[0] == 'a' && buf != null ==>
              (forall i :: 0 <= i < ms.vsize ==> buf[i] != NUL) && (ms.vsize < size ==> buf[ms.vsize] == NUL)
  {
    ms := null;
    if size == 0 || !room {
      return;
    }
    var flags := TypeToFlags(kind);
    if flags == NO_FLAGS {
      return;
    }
    if buf == null {
      if !Both(flags) || !more {
        return;
      }
      var mine := new char[size];
      ms := new MemoryStream(mine, flags, true);
    } else {
      ms := new MemoryStream(buf, flags, false);
    }
    if !opens {
      ms := null;
    }
  }

  class MemoryStream {
    const buf: array<char>
    const flags: Flags
    var vsize: nat
    var curpos: nat

    /** The positions are in order, and small enough for the int variables that hold them. */
    predicate Valid()
      reads this
    {
      curpos <= vsize <= buf.Length <= INT_MAX && buf.Length > 0 && flags != NO_FLAGS
    }

    function View(): (v: Stream)
      requires Valid()
      reads this, buf
      ensures Ok(v)
    {
      Stream(buf[..vsize], curpos, buf.Length)
    }

    /** fmemopen on a buffer of the caller's, or on one of its own, once everything else is checked. */
    constructor (buf: array<char>, flags: Flags, mine: bool)
      requires 0 < buf.Length <= INT_MAX && flags != NO_FLAGS
      ensures Valid() && this.buf == buf && this.flags == flags && View() == Opened(buf[..], flags, mine)
      ensures flags.append ==> curpos == vsize && (mine ==> vsize == 0)
      ensures flags.append && !mine ==>
                (forall i :: 0 <= i < vsize ==> buf[i] != NUL) && (vsize < buf.Length ==> buf[vsize] == NUL)
      ensures !flags.append ==> curpos == 0 && vsize == if flags.truncate then 0 else buf.Length
    {
      this.buf, this.flags := buf, flags;
      var end := 0;
      if flags.append && !mine {
        end := FindEnd(buf);
      }
      curpos := end;
      vsize := if flags.append then end else if flags.truncate then 0 else buf.Length;
    }

    /** mstream_read */
    method MRead(n: nat) returns (nr: int, bytes: string)
      requires Valid()
      modifies this`curpos
      ensures Valid()
      ensures !flags.read ==> nr == -1 && View() == old(View())
      ensures flags.read ==> nr == |bytes| && bytes == Read(old(View()), n)
      ensures flags.read ==> View() == old(View()).(pos := old(curpos) + nr)
      ensures flags.read ==> nr == (if old(curpos) + n <= vsize then n else vsize - old(curpos)) == |bytes|
                             && bytes == buf[old(curpos)..old(curpos) + nr] && curpos == old(curpos) + nr
    {
      bytes := [];
      if !flags.read {
        return -1, [];
      }
      if curpos >= vsize {
        return 0, [];
      }
      nr := Min(n, vsize - curpos);
      bytes := buf[curpos..curpos + nr];
      assert bytes == buf[..vsize][curpos..curpos + nr];
      curpos := curpos + nr;
    }

    /**
     * mstream_write.  With '+' the user sees exactly the bytes written over; the NUL that is
     * put behind them is not part of the stream.  Without, see EndsWithNul.
     */
    method MWrite(bytes: string) returns (nw: int)
      requires Valid()
      modifies this`curpos, this`vsize, buf
      ensures Valid()
      ensures !flags.append && !flags.write ==> nw == -1 && View() == old(View())
      ensures flags.append || flags.write ==>
                (var v := Written(old(View()), flags.append, bytes);
                 nw == v.pos - WriteAt(old(View()), flags.append)
                 && View() == if flags.read then v else EndsWithNul(v))
      ensures flags.append || flags.write ==>
                (var off := if flags.append then old(vsize) else old(curpos);
                 var nul := if !flags.read then (if curpos < buf.Length then curpos else buf.Length - 1)
                            else if flags.write && old(vsize) < curpos < buf.Length then curpos else -1;
                 nw == (if off + |bytes| <= buf.Length then |bytes| else buf.Length - off)
                 && curpos == off + nw && vsize == (if curpos > old(vsize) then curpos else old(vsize))
                 && forall i :: 0 <= i < buf.Length ==>
                      buf[i] == if i == nul then NUL else if off <= i < off + nw then bytes[i - off] else old(buf[i]))
    {
      if !flags.append && !flags.write {
        return -1;
      }
      hide Over, Written, EndsWithNul;
      var off := if flags.append then vsize else curpos;
      nw := Min(|bytes|, buf.Length - off);
      ghost var v := Written(View(), flags.append, bytes);
      WrittenIs(View(), flags.append, bytes);
      CopyIn(off, bytes[..nw]);
      assert View() == v;
      if (flags.write || flags.append) && !flags.read {
        PutNul(v);
      }
    }

    /** The bytes at off, the position behind them, and with '+' a NUL behind the new end of the data. */
    method CopyIn(off: nat, bytes: string)
      requires Valid() && off <= vsize && off + |bytes| <= buf.Length
      modifies this`curpos, this`vsize, buf
      ensures Valid() && View() == Stream(Over(old(buf[..vsize]), off, bytes), off + |bytes|, buf.Length)
      ensures curpos == off + |bytes| && vsize == if curpos > old(vsize) then curpos else old(vsize)
      ensures var nul := if flags.read && flags.write && old(vsize) < curpos < buf.Length then curpos else -1;
              forall i :: 0 <= i < buf.Length ==>
                buf[i] == if i == nul then NUL else if off <= i < off + |bytes| then bytes[i - off] else old(buf[i])
    {
      hide Over;
      MemCpy(off, bytes);
      curpos := off + |bytes|;
      if curpos > vsize {
        vsize := curpos;
        if flags.read && flags.write && vsize < buf.Length {
          ghost var copied := buf[..];
          buf[vsize] := NUL;
          assert buf[..vsize] == copied[..vsize];
        }
      }
    }

    /** memcpy(ms->buf + off, bytes, nw) */
    method MemCpy(off: nat, bytes: string)
      requires Valid() && off <= vsize && off + |bytes| <= buf.Length
      modifies buf
      ensures var end := if off + |bytes| > vsize then off + |bytes| else vsize;
              buf[..end] == Over(old(buf[..vsize]), off, bytes)
      ensures forall i :: 0 <= i < buf.Length ==>
                buf[i] == if off <= i < off + |bytes| then bytes[i - off] else old(buf[i])
    {
      ghost var before := buf[..];
      forall i | 0 <= i < |bytes| { buf[off + i] := bytes[i]; }
      CopiedIs(before, buf[..], vsize, off, bytes);
    }

    /** The NUL behind what has been written to a stream that cannot be read. */
    method PutNul(ghost v: Stream)
      requires Valid() && v == View()
      modifies buf
      ensures View() == EndsWithNul(v)
      ensures var nul := if curpos < buf.Length then curpos else buf.Length - 1;
              forall i :: 0 <= i < buf.Length ==> buf[i] == if i == nul then NUL else old(buf[i])
    {
      ghost var copied := buf[..];
      if curpos < buf.Length {
        buf[curpos] := NUL;
        EndsWithNulIs(copied, buf[..], vsize, curpos, v);
      } else {
        buf[buf.Length - 1] := NUL;
        EndsWithNulIs(copied, buf[..], vsize, buf.Length - 1, v);
      }
    }

    /** mstream_seek: the offset is kept in an int. */
    method MSeek(pos: int, whence: Whence) returns (off: int)
      requires Valid()
      modifies this`curpos
      ensures Valid() && (off, View()) == Seek(old(View()), ToInt(SeekTo(old(View()), pos, whence)))
      ensures var to := match whence case SeekSet => pos case SeekEnd => vsize + pos case SeekCur => old(curpos) + pos;
              -0x8000_0000 <= to < 0x8000_0000 ==>
                if 0 <= to <= vsize then off == curpos == to else off == -1 && curpos == old(curpos)
    {
      hide ToInt;
      ToIntIs(SeekTo(View(), pos, whence));
      off := match whence
        case SeekSet => ToInt(pos)
        case SeekEnd => ToInt(vsize + pos)
        case SeekCur => ToInt(curpos + pos);
      if off < 0 || off > vsize {
        return -1;
      }
      curpos := off;
    }
  }

  /** Seeking to an offset: anywhere up to the end of the data, and nowhere else. */
  function Seek(v: Stream, to: int): (r: (int, Stream)) {
    if 0 <= to <= |v.data| then (to, v.(pos := to)) else (-1, v)
  }

  /**
   * For any position and stream: the seek does what is asked exactly when the offset fits an int
   * or misses the data even so.
   */
  lemma SeekIsRight(v: Stream, pos: int, whence: Whence)
    requires Ok(v) && v.size <= INT_MAX
    ensures var to := SeekTo(v, pos, whence);
            Seek(v, ToInt(to)) == Seek(v, to)
            <==> -INT_MAX - 1 <= to <= INT_MAX || to % 0x1_0000_0000 > |v.data|
  {
    var to := SeekTo(v, pos, whence);
    ToIntIs(to);
    if !(-INT_MAX - 1 <= to <= INT_MAX) {
      assert Seek(v, to) == (-1, v);
      assert Seek(v, ToInt(to)).0 == -1 <==> ToInt(to) < 0 || ToInt(to) > |v.data|;
    }
  }

  lemma ToIntIs(x: int)
    ensures -INT_MAX - 1 <= x <= INT_MAX ==> ToInt(x) == x
    ensures var r := x % 0x1_0000_0000; ToInt(x) == if r <= INT_MAX then r else r - 0x1_0000_0000
  {
  }

  /** Four gigabytes past the start of an empty stream is taken for its start. */
  lemma SeekFarLands()
    ensures var v := Stream([], 0, 1);
            Seek(v, ToInt(SeekTo(v, 0x1_0000_0000, SeekSet))).0 == 0
            && Seek(v, SeekTo(v, 0x1_0000_0000, SeekSet)).0 == -1
  {
    ToIntIs(0x1_0000_0000);
  }

  /** After a write to a stream that cannot be read: a NUL at the position, or in the last byte of a full buffer. */
  function EndsWithNul(v: Stream): (v': Stream)
    requires Ok(v)
    ensures Ok(v')
  {
    var c := if v.pos < v.size then v.pos else v.size - 1;
    if 0 <= c < |v.data| then v.(data := v.data[c := NUL]) else v
  }

  /**
   * That NUL leaves the data alone exactly when the write ended at the end of the data, short of
   * the buffer's, or a NUL was there.
   */
  lemma NulIsHarmless(v: Stream)
    requires Ok(v) && v.size > 0
    ensures EndsWithNul(v) == v
            <==> (v.pos == |v.data| < v.size
                  || (v.pos < |v.data| && v.data[v.pos] == NUL)
                  || (v.pos == |v.data| == v.size && v.data[v.size - 1] == NUL))
  {
    var c := if v.pos < v.size then v.pos else v.size - 1;
    if 0 <= c < |v.data| && v.data[c] == NUL { assert v.data[c := NUL] == v.data; }
    if 0 <= c < |v.data| { assert v.data[c := NUL][c] == NUL; }
  }

  lemma EndsWithNulIs(before: string, after: string, vsize: nat, c: nat, v: Stream)
    requires vsize <= |before| == |after| == v.size && Ok(v) && before[..vsize] == v.data
    requires c < |before| && c == (if v.pos < v.size then v.pos else v.size - 1) && after == before[c := NUL]
    ensures EndsWithNul(v) == v.(data := after[..vsize])
  {
    assert c < vsize ==> after[..vsize] == before[..vsize][c := NUL];
    assert c >= vsize ==> after[..vsize] == before[..vsize];
  }

  /** Bytes copied into a buffer, seen up to the old end of the data or their own. */
  lemma CopiedIs(before: string, after: string, vsize: nat, off: nat, bytes: string)
    requires off <= vsize <= |before| == |after| && off + |bytes| <= |before|
    requires forall i :: 0 <= i < |before| ==>
               after[i] == if off <= i < off + |bytes| then bytes[i - off] else before[i]
    ensures var end := if off + |bytes| > vsize then off + |bytes| else vsize;
            after[..end] == Over(before[..vsize], off, bytes)
  {
  }

  lemma WrittenIs(v: Stream, append: bool, bytes: string)
    requires Ok(v)
    ensures var off := WriteAt(v, append);
            var n := Min(|bytes|, v.size - off);
            Written(v, append, bytes) == Stream(Over(v.data, off, bytes[..n]), off + n, v.size)
  {
  }
}
