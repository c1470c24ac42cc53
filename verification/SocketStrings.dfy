/** Strings sent over a stream socket with their NUL, and received by peeking at what has arrived. */
module SocketStrings {
  import opened CStrings
  import opened Options

  // ----- framing, on the bytes of the stream -----

  /** The stream that Sputs makes of some strings. */
  function Sent(strings: seq<string>): string {
    if strings == [] then [] else strings[0] + [NUL] + Sent(strings[1..])
  }

  datatype Got = Got(text: string, rest: string)

  /** What Sgets takes from a stream that ends there; None when it ends too early. */
  function Gets(stream: string, maxbuf: nat): Option<Got>
    requires maxbuf >= 2
  {
    var k, most := StrChr(stream, NUL), maxbuf - 2;
    if most == 0 then Some(Got("", stream))                    // it does not read at all
    else if k < |stream| && k < most then Some(Got(stream[..k], stream[k + 1..]))
    else if most <= |stream| then Some(Got(stream[..most], stream[most..]))
    else None
  }

  datatype GotAll = GotAll(texts: seq<string>, rest: string)

  function GetsMany(stream: string, maxbuf: nat, n: nat): Option<GotAll>
    requires maxbuf >= 2
  {
    if n == 0 then Some(GotAll([], stream))
    else
      var g := Gets(stream, maxbuf);
      if g.None? then None
      else
        var more := GetsMany(g.value.rest, maxbuf, n - 1);
        if more.None? then None else Some(GotAll([g.value.text] + more.value.texts, more.value.rest))
  }

  /** One string comes back, and nothing behind it is touched, exactly when it is at most maxbuf - 3 long. */
  lemma GetsString(s: string, rest: string, maxbuf: nat)
    requires maxbuf >= 2 && NUL !in s
    ensures Gets(s + [NUL] + rest, maxbuf) == Some(Got(s, rest)) <==> |s| + 3 <= maxbuf
  {
    var stream := s + [NUL] + rest;
    assert stream[..|s|] == s && stream[|s|] == NUL && stream[|s| + 1..] == rest;
    StrChrIs(stream, NUL, |s|);
    if maxbuf - 2 <= |stream| { assert |stream[maxbuf - 2..]| == |stream| - (maxbuf - 2); }
  }

  /** A longer string comes back cut to maxbuf - 2, its rest left for the next; an unended one does not. */
  lemma GetsOtherwise(s: string, rest: string, maxbuf: nat)
    requires maxbuf >= 2 && NUL !in s
    ensures |s| + 2 >= maxbuf ==> Gets(s + rest, maxbuf) == Some(Got(s[..maxbuf - 2], s[maxbuf - 2..] + rest))
    ensures |s| + 2 < maxbuf ==> Gets(s, maxbuf) == None
  {
    if |s| + 2 < maxbuf {
      GetsTooShort(s, maxbuf);
    } else {
      assert (s + rest)[..maxbuf - 2] == s[..maxbuf - 2] && (s + rest)[maxbuf - 2..] == s[maxbuf - 2..] + rest;
      if maxbuf > 2 {
        assert forall i :: 0 <= i < maxbuf - 2 ==> (s + rest)[i] == s[i];
        GetsFull(s + rest, maxbuf);
      }
    }
  }

  function Total(texts: seq<string>): nat { if texts == [] then 0 else |texts[0]| + 1 + Total(texts[1..]) }

  lemma {:induction false} SentLength(strings: seq<string>)
    ensures |Sent(strings)| == Total(strings)
  {
    if strings != [] { SentLength(strings[1..]); }
  }

  predicate AllFit(texts: seq<string>, maxbuf: nat) { forall i :: 0 <= i < |texts| ==> |texts[i]| + 3 <= maxbuf }

  /** A string that fills the buffer leaves its NUL in the stream: then less than the whole is consumed. */
  lemma {:induction false} Consumed(stream: string, maxbuf: nat, n: nat)
    requires maxbuf >= 2 && GetsMany(stream, maxbuf, n).Some?
    ensures var g := GetsMany(stream, maxbuf, n).value;
            |g.texts| == n && |stream| <= |g.rest| + Total(g.texts)
            && (|stream| == |g.rest| + Total(g.texts) ==> AllFit(g.texts, maxbuf))
    decreases n
  {
    if n > 0 {
      var g, one := GetsMany(stream, maxbuf, n).value, Gets(stream, maxbuf).value;
      Consumed(one.rest, maxbuf, n - 1);
      var more := GetsMany(one.rest, maxbuf, n - 1).value;
      assert g.texts[1..] == more.texts && g.texts[0] == one.text;
      GetsConsumes(stream, maxbuf);
      if |stream| == |g.rest| + Total(g.texts) {
        forall i | 0 <= i < |g.texts| ensures |g.texts[i]| + 3 <= maxbuf {
          if i > 0 { assert g.texts[i] == more.texts[i - 1]; }
        }
      }
    }
  }

  lemma GetsConsumes(stream: string, maxbuf: nat)
    requires maxbuf >= 2 && Gets(stream, maxbuf).Some?
    ensures var g := Gets(stream, maxbuf).value;
            |stream| <= |g.rest| + |g.text| + 1 && (|stream| == |g.rest| + |g.text| + 1 ==> |g.text| + 3 <= maxbuf)
  {
  }

  /**
   * For any strings without NUL: getting as many strings as were put returns exactly those, in
   * order, and leaves the rest of the stream, if and only if each is at most maxbuf - 3 long.
   */
  lemma RoundTrip(strings: seq<string>, rest: string, maxbuf: nat)
    requires maxbuf >= 2 && forall i :: 0 <= i < |strings| ==> NUL !in strings[i]
    ensures GetsMany(Sent(strings) + rest, maxbuf, |strings|) == Some(GotAll(strings, rest))
            <==> AllFit(strings, maxbuf)
  {
    if AllFit(strings, maxbuf) {
      GetsBack(strings, rest, maxbuf);
    } else if GetsMany(Sent(strings) + rest, maxbuf, |strings|) == Some(GotAll(strings, rest)) {
      Consumed(Sent(strings) + rest, maxbuf, |strings|);
      SentLength(strings);
    }
  }

  lemma SentFirst(strings: seq<string>, rest: string)
    requires strings != []
    ensures Sent(strings) + rest == strings[0] + [NUL] + (Sent(strings[1..]) + rest)
  {
  }

  lemma {:induction false} GetsBack(strings: seq<string>, rest: string, maxbuf: nat)
    requires maxbuf >= 2 && (forall i :: 0 <= i < |strings| ==> NUL !in strings[i]) && AllFit(strings, maxbuf)
    ensures GetsMany(Sent(strings) + rest, maxbuf, |strings|) == Some(GotAll(strings, rest))
    decreases |strings|
  {
    hide Gets;
    if strings == [] {
      assert Sent(strings) + rest == rest;
    } else {
      var behind := Sent(strings[1..]) + rest;
      SentFirst(strings, rest);
      GetsString(strings[0], behind, maxbuf);
      forall i | 0 <= i < |strings[1..]| ensures NUL !in strings[1..][i] && |strings[1..][i]| + 3 <= maxbuf {
        assert strings[1..][i] == strings[i + 1];
      }
      GetsBack(strings[1..], rest, maxbuf);
      assert strings == [strings[0]] + strings[1..];
    }
  }

  // ----- moving a given number of bytes -----

  /** The bytes moved by send or recv calls that returned these counts; a negative count is an error. */
  function Moved(counts: seq<int>): nat
    decreases |counts|
  {
    if counts == [] then 0
    else
      var c := counts[|counts| - 1];
      Moved(counts[..|counts| - 1]) + if c < 0 then 0 else c
  }

  predicate NoError(counts: seq<int>) { forall i :: 0 <= i < |counts| ==> counts[i] >= 0 }

  /** What the calls in Sreadbytes return, round by round, on a stream of avail bytes: 0 only where it ends. */
  predicate Recvs(avail: nat, n: nat, counts: seq<int>)
    decreases |counts|
  {
    counts == []
    || (var before, c := counts[..|counts| - 1], counts[|counts| - 1];
        && Recvs(avail, n, before) && NoError(before) && Moved(before) < n
        && (c >= 0 ==> Moved(before) + c <= n && Moved(before) + c <= avail && (c == 0 <==> Moved(before) == avail)))
  }

  /** What the calls in Swrite return; none that does not fail returns 0. */
  predicate Sends(n: nat, counts: seq<int>)
    decreases |counts|
  {
    counts == []
    || (var before, c := counts[..|counts| - 1], counts[|counts| - 1];
        Sends(n, before) && NoError(before) && Moved(before) < n && c != 0 && (c > 0 ==> Moved(before) + c <= n))
  }

  lemma NoneYet(avail: nat, n: nat)
    ensures Recvs(avail, n, []) && Sends(n, []) && NoError([]) && Moved([]) == 0
  {
  }

  lemma SendsMore(n: nat, counts: seq<int>, c: int)
    requires Sends(n, counts) && NoError(counts) && Moved(counts) < n && c != 0 && (c > 0 ==> Moved(counts) + c <= n)
    ensures Sends(n, counts + [c]) && (c < 0 ==> Over(n, counts + [c])) && (c >= 0 ==> NoError(counts + [c]))
    ensures Moved(counts + [c]) == Moved(counts) + if c < 0 then 0 else c
  {
    assert (counts + [c])[..|counts|] == counts;
  }

  lemma RecvsMore(avail: nat, n: nat, counts: seq<int>, c: int)
    requires Recvs(avail, n, counts) && NoError(counts) && Moved(counts) < n
    requires c >= 0 ==> Moved(counts) + c <= n && Moved(counts) + c <= avail && (c == 0 <==> Moved(counts) == avail)
    ensures Recvs(avail, n, counts + [c]) && (c < 0 ==> Over(n, counts + [c])) && (c >= 0 ==> NoError(counts + [c]))
    ensures Moved(counts + [c]) == Moved(counts) + if c < 0 then 0 else c
  {
    assert (counts + [c])[..|counts|] == counts;
  }

  /** The loop is over: everything is moved, or the last call failed. */
  predicate Over(n: nat, counts: seq<int>) { Moved(counts) == n || (counts != [] && counts[|counts| - 1] < 0) }

  /**
   * Without errors, after n rounds Sreadbytes has ended, or it never will: exactly when the
   * stream ends before n bytes.
   */
  lemma ReadingEnds(avail: nat, n: nat, counts: seq<int>)
    requires Recvs(avail, n, counts) && NoError(counts) && (Over(n, counts) || |counts| >= n)
    ensures (Over(n, counts) <==> n <= avail) && (Moved(counts) == n <==> n <= avail)
  {
    RecvsGoOn(avail, n, counts);
  }

  lemma {:induction false} RecvsGoOn(avail: nat, n: nat, counts: seq<int>)
    requires Recvs(avail, n, counts) && NoError(counts)
    ensures Moved(counts) <= n && Moved(counts) <= avail && (n <= avail ==> Moved(counts) >= |counts|)
    decreases |counts|
  {
    if counts != [] { RecvsGoOn(avail, n, counts[..|counts| - 1]); }
  }

  /** The documentation of Swrite: the bytes transmitted, or their negative when the write failed. */
  predicate AsDocumented(ret: int, counts: seq<int>) {
    var moved: int := Moved(counts);
    ret == if NoError(counts) then moved else -moved
  }

  /** Swrite returns what its documentation says exactly when no send failed, or the very first did. */
  lemma {:induction false} SwriteDocumented(n: nat, counts: seq<int>)
    requires Sends(n, counts) && Over(n, counts)
    ensures AsDocumented(Moved(counts), counts) <==> NoError(counts) || counts[0] < 0
  {
    if counts != [] && counts[0] >= 0 { SomethingMoved(n, counts); }
  }

  lemma {:induction false} SomethingMoved(n: nat, counts: seq<int>)
    requires Sends(n, counts) && counts != [] && counts[0] >= 0
    ensures Moved(counts) > 0
    decreases |counts|
  {
    if |counts| > 1 {
      SomethingMoved(n, counts[..|counts| - 1]);
    } else {
      assert counts[..0] == [];
    }
  }

  /** Of five bytes three are sent and then send fails: 3 is returned where -3 is documented. */
  lemma SwriteFailsAfterThree()
    ensures Sends(5, [3, -1]) && Over(5, [3, -1]) && Moved([3, -1]) == 3 && !AsDocumented(3, [3, -1])
  {
    assert [3, -1][..1] == [3] && [3][..0] == [];
    assert Moved([3]) == 3 && Sends(5, [3]);
    assert [3, -1][1] < 0;
  }

  // ----- the socket -----

  /**
   * One end of a connection.  incoming is everything that will still arrive, in order, before the
   * peer closes; how much of it a call sees is not known.  good means that no call reports an error.
   */
  class Socket {
    const good: bool
    var incoming: string
    var outgoing: string

    constructor (good: bool, incoming: string)
      ensures this.good == good && this.incoming == incoming && outgoing == []
    {
      this.good, this.incoming, outgoing := good, incoming, [];
    }

    /** Swait: false on an error. */
    method Wait() returns (ok: bool)
      ensures good ==> ok
    {
      ok := *;
      ok := ok || good;
    }

    /** recv with MSG_PEEK: some of what is coming, at most n bytes; 0 at its end. */
    method Peek(buf: array<char>, b: nat, n: nat) returns (cnt: int)
      requires 0 < n && b + n <= buf.Length
      modifies buf
      ensures cnt <= n && cnt <= |incoming| && (good ==> cnt >= 0) && (cnt >= 0 ==> (cnt == 0 <==> incoming == []))
      ensures forall i :: 0 <= i < buf.Length && !(b <= i < b + cnt) ==> buf[i] == old(buf[i])
      ensures cnt > 0 ==> buf[b..b + cnt] == incoming[..cnt]
    {
      var fails: bool := *;
      if fails && !good { return -1; }
      cnt := SomeOf(if n <= |incoming| then n else |incoming|);
      forall i | 0 <= i < cnt { buf[b + i] := incoming[i]; }
    }

    method SomeOf(most: nat) returns (cnt: nat)
      ensures cnt <= most && (cnt == 0 <==> most == 0)
    {
      cnt :| 0 <= cnt <= most && (cnt == 0 <==> most == 0);
    }

    /** recv: the same, and what it returns is consumed. */
    method Recv(buf: array<char>, b: nat, n: nat) returns (cnt: int)
      requires 0 < n && b + n <= buf.Length
      modifies this`incoming, buf
      ensures cnt <= n && cnt <= |old(incoming)| && (good ==> cnt >= 0)
              && (cnt >= 0 ==> (cnt == 0 <==> old(incoming) == []))
      ensures forall i :: 0 <= i < buf.Length && !(b <= i < b + cnt) ==> buf[i] == old(buf[i])
      ensures cnt > 0 ==> buf[b..b + cnt] == old(incoming)[..cnt]
      ensures incoming == if cnt > 0 then old(incoming)[cnt..] else old(incoming)
    {
      cnt := Peek(buf, b, n);
      if cnt > 0 { incoming := incoming[cnt..]; }
    }

    /** send: takes some of the bytes. */
    method Send(bytes: string) returns (cnt: int)
      requires bytes != []
      modifies this`outgoing
      ensures cnt <= |bytes| && (good ==> cnt >= 1)
      ensures outgoing == if cnt > 0 then old(outgoing) + bytes[..cnt] else old(outgoing)
      ensures cnt != 0
    {
      var fails: bool := *;
      if fails && !good { return -1; }
      cnt := SomeOf(|bytes|);
      outgoing := outgoing + bytes[..cnt];
    }

    /** Swrite.  On an error it returns the number of bytes sent so far; counts are what its sends returned. */
    method Swrite(buf: string) returns (cnt: nat, ghost counts: seq<int>)
      modifies this`outgoing
      ensures cnt <= |buf| && outgoing == old(outgoing) + buf[..cnt] && (good ==> cnt == |buf|)
      ensures Sends(|buf|, counts) && Over(|buf|, counts) && cnt == Moved(counts) && (good ==> NoError(counts))
    {
      hide Sends, Moved, NoError;
      cnt, counts := 0, [];
      NoneYet(0, |buf|);
      while cnt < |buf|
        invariant cnt <= |buf| && outgoing == old(outgoing) + buf[..cnt]
        invariant Sends(|buf|, counts) && NoError(counts) && cnt == Moved(counts)
      {
        var wcnt := Send(buf[cnt..]);
        SendsMore(|buf|, counts, wcnt);
        counts := counts + [wcnt];
        if wcnt < 0 {
          return;
        }
        assert buf[..cnt] + buf[cnt..][..wcnt] == buf[..cnt + wcnt];
        cnt := cnt + wcnt;
      }
    }

    /** Sputs; after an error the string may be cut off anywhere. */
    method Sputs(s: string)
      requires NUL !in s
      modifies this`outgoing
      ensures good ==> outgoing == old(outgoing) + Sent([s]) == old(outgoing) + (s + [NUL])
      ensures old(outgoing) <= outgoing <= old(outgoing) + (s + [NUL])
    {
      ghost var counts;
      var cnt: nat;
      cnt, counts := Swrite(s + [NUL]);
      assert (s + [NUL])[..|s| + 1] == s + [NUL] == Sent([s]);
    }

    /** One round of Sreadbytes: the next bytes of the stream, behind the cnt that are there. */
    method ReadOn(buf: array<char>, b: nat, n: nat, cnt: nat, ghost stream: string) returns (rcnt: int)
      requires cnt < n && b + n <= buf.Length && cnt <= |stream|
      requires incoming == stream[cnt..] && buf[b..b + cnt] == stream[..cnt]
      modifies this`incoming, buf
      ensures cnt + rcnt <= n && cnt + rcnt <= |stream| && (good ==> rcnt >= 0)
      ensures rcnt >= 0 ==> (rcnt == 0 <==> cnt == |stream|)
      ensures forall i :: 0 <= i < buf.Length && !(b + cnt <= i < b + cnt + rcnt) ==> buf[i] == old(buf[i])
      ensures var got := if rcnt < 0 then cnt else cnt + rcnt;
              incoming == stream[got..] && buf[b..b + got] == stream[..got]
    {
      ghost var before := buf[..];
      rcnt := Recv(buf, b + cnt, n - cnt);
      if rcnt < 0 {
        assert buf[..] == before;
      } else {
        Joined(stream, before, buf[..], b, cnt, rcnt);
      }
    }

    /**
     * Sreadbytes, watched for a number of rounds; counts are what its recvs returned.  Where
     * the stream ends before n bytes, no number of rounds is enough.
     */
    method Sreadbytes(buf: array<char>, b: nat, n: nat, rounds: nat) returns (cnt: nat, ghost counts: seq<int>)
      requires b + n <= buf.Length
      modifies this`incoming, buf
      ensures cnt <= n && cnt <= |old(incoming)| && incoming == old(incoming)[cnt..]
              && buf[b..b + cnt] == old(incoming)[..cnt]
      ensures forall i :: 0 <= i < buf.Length && !(b <= i < b + cnt) ==> buf[i] == old(buf[i])
      ensures Recvs(|old(incoming)|, n, counts) && cnt == Moved(counts) && (good ==> NoError(counts))
      ensures Over(n, counts) || |counts| == rounds
      ensures good && rounds >= n ==> (cnt == n <==> n <= |old(incoming)|)
    {
      hide Recvs, Moved, NoError;
      cnt, counts := 0, [];
      NoneYet(|incoming|, n);
      var round := 0;
      while cnt < n && round < rounds
        invariant cnt <= n && cnt <= |old(incoming)| && round <= rounds
        invariant incoming == old(incoming)[cnt..] && buf[b..b + cnt] == old(incoming)[..cnt]
        invariant forall i :: 0 <= i < buf.Length && !(b <= i < b + cnt) ==> buf[i] == old(buf[i])
        invariant Recvs(|old(incoming)|, n, counts) && NoError(counts) && cnt == Moved(counts) && |counts| == round
        decreases rounds - round
      {
        var rcnt := ReadOn(buf, b, n, cnt, old(incoming));
        RecvsMore(|old(incoming)|, n, counts, rcnt);
        counts := counts + [rcnt];
        if rcnt < 0 {
          return;
        }
        cnt, round := cnt + rcnt, round + 1;
      }
      if rounds >= n { ReadingEnds(|old(incoming)|, n, counts); }
    }

    /** The NUL has been seen at nb: read up to and including it. */
    method ReadToNul(buf: array<char>, b: nat, nb: nat, ghost stream: string)
      requires b <= nb && nb + 2 < buf.Length && nb - b < |incoming|
      requires good ==> Partly(stream, incoming, buf[..], b)
      requires good ==> nb < |stream| && stream[nb] == NUL && forall i :: 0 <= i < nb ==> stream[i] != NUL
      modifies this`incoming, buf
      ensures Later(old(incoming), incoming, nb - b + 1) && buf[buf.Length - 1] == old(buf[buf.Length - 1])
      ensures good ==> Gets(stream, buf.Length) == Some(Got(CString(buf[..]), incoming))
    {
      hide CString, Gets;
      ghost var before := buf[..];
      var cnt, counts := Sreadbytes(buf, b, nb - b + 1, nb - b + 1);
      if good {
        assert buf[..b] == before[..b];
        Extend(stream, buf[..], b, nb + 1);
        assert buf[nb] == buf[..nb + 1][nb] && buf[..nb] == buf[..nb + 1][..nb];
        GetsAt(stream, buf.Length, nb);
        ReadTo(stream, buf[..], nb);
      }
    }

    /** The buffer will be full before a NUL comes: fill it and end it. */
    method ReadToFull(buf: array<char>, b: nat, buflen: nat, ghost stream: string)
      requires 0 < buflen <= |incoming| && b + buflen + 2 == buf.Length
      requires good ==> Partly(stream, incoming, buf[..], b)
      requires good ==> b + buflen <= |stream| && forall i :: 0 <= i < b + buflen ==> stream[i] != NUL
      modifies this`incoming, buf
      ensures Later(old(incoming), incoming, buflen) && buf[buf.Length - 1] == old(buf[buf.Length - 1])
      ensures good ==> Gets(stream, buf.Length) == Some(Got(CString(buf[..]), incoming))
    {
      hide CString, Gets;
      ghost var before := buf[..];
      var cnt, counts := Sreadbytes(buf, b, buflen, buflen);
      if cnt <= 0 {
        return;
      }
      ghost var filled := buf[..];
      if good {
        assert filled[..b] == before[..b];
        Extend(stream, filled, b, b + buflen);
      }
      buf[b + buflen] := NUL;
      if good {
        assert buf[..b + buflen] == filled[..b + buflen];
        GetsFull(stream, buf.Length);
        ReadTo(stream, buf[..], b + buflen);
      }
    }

    /** No NUL among the bytes that have come: read them. */
    method ReadPart(buf: array<char>, b: nat, mesglen: nat, ghost stream: string) returns (cnt: nat)
      requires 0 < mesglen <= |incoming| && b + mesglen + 1 < buf.Length
      requires good ==> Partly(stream, incoming, buf[..], b)
      requires good ==> b + mesglen <= |stream| && forall i :: 0 <= i < b + mesglen ==> stream[i] != NUL
      modifies this`incoming, buf
      ensures good ==> cnt > 0 && Partly(stream, incoming, buf[..], b + mesglen)
      ensures Later(old(incoming), incoming, mesglen) && buf[buf.Length - 1] == old(buf[buf.Length - 1])
    {
      ghost var before := buf[..];
      ghost var counts;
      cnt, counts := Sreadbytes(buf, b, mesglen, mesglen);
      if good {
        assert buf[..b] == before[..b];
        Extend(stream, buf[..], b, b + mesglen);
      }
    }

    /** Peek at what has come, and look for a NUL from b on: there is one at nb, if only the buffer's last. */
    method Look(buf: array<char>, b: nat, buflen: nat, ghost stream: string) returns (mesglen: int, nb: nat)
      requires 0 < buflen && b + buflen + 2 == buf.Length && buf[buf.Length - 1] == NUL
      requires good ==> Partly(stream, incoming, buf[..], b)
      modifies buf
      ensures mesglen <= buflen && mesglen <= |incoming| && buf[buf.Length - 1] == NUL
      ensures mesglen > 0 ==> b <= nb < buf.Length
      ensures good ==> mesglen >= 0 && Partly(stream, incoming, buf[..], b)
      ensures good && mesglen == 0 ==> Gets(stream, buf.Length).None?
      ensures good && mesglen > 0 ==> (b + mesglen <= |stream| && (nb < b + mesglen ==> stream[nb] == NUL)
                                       && forall i :: 0 <= i < nb && i < b + mesglen ==> stream[i] != NUL)
    {
      hide Gets, StrChr;
      ghost var before := buf[..];
      mesglen := Peek(buf, b, buflen);
      nb := 0;
      assert buf[..b] == before[..b];
      if mesglen > 0 {
        nb := StrChr(buf[b..], NUL) + b;
        FirstNul(buf[..], b, nb);
        Peeked(stream, buf[..], b, mesglen, nb, good);
      } else if good {
        GetsTooShort(stream, buf.Length);
      }
    }

    /** Once round the loop of Sgets: over when it returns or leaves the loop, otherwise mesglen bytes are read. */
    method Round(buf: array<char>, b: nat, buflen: nat, ghost stream: string)
      returns (over: bool, ok: bool, mesglen: int)
      requires 0 < buflen && b + buflen + 2 == buf.Length && buf[buf.Length - 1] == NUL
      requires good ==> Partly(stream, incoming, buf[..], b)
      modifies this`incoming, buf
      ensures !over ==> 0 < mesglen < buflen && (good ==> Partly(stream, incoming, buf[..], b + mesglen))
      ensures Later(old(incoming), incoming, if over then buflen else mesglen) && buf[buf.Length - 1] == NUL
      ensures over && good ==> GetsDid(stream, buf[..], ok, incoming)
    {
      hide CString, Gets, Partly;
      over, mesglen := true, 0;
      ok := Wait();
      if ok {
        var nb: nat;
        mesglen, nb := Look(buf, b, buflen, stream);
        if mesglen <= 0 {
          ok := false;
        } else if nb < b + mesglen {
          ReadToNul(buf, b, nb, stream);
        } else if mesglen >= buflen {
          ReadToFull(buf, b, buflen, stream);
        } else {
          var cnt := ReadPart(buf, b, mesglen, stream);
          over := cnt <= 0;
        }
      }
    }

    /** Sgets, with a buffer of maxbuf bytes; ok is false where it returns a null pointer. */
    method Sgets(buf: array<char>) returns (ok: bool)
      requires buf.Length >= 2
      modifies this`incoming, buf
      ensures buf[buf.Length - 1] == NUL && Later(old(incoming), incoming, buf.Length - 2)
      ensures good ==> GetsDid(old(incoming), buf[..], ok, incoming)
    {
      hide CString, Gets, Later, Partly;
      ghost var stream := incoming;
      buf[0] := NUL;
      var buflen, b := buf.Length - 2, 0;
      buf[buflen + 1] := NUL;
      NothingRead(stream, buf[..]);
      while buflen > 0
        invariant b + buflen == buf.Length - 2 && buflen >= 0 && buf[buf.Length - 1] == NUL
        invariant Later(stream, incoming, b) && (good ==> Partly(stream, incoming, buf[..], b))
        invariant buflen == 0 ==> buf.Length == 2 && incoming == stream && buf[0] == NUL
        decreases buflen
      {
        ghost var now := incoming;
        var over, done, mesglen := Round(buf, b, buflen, stream);
        LaterStill(stream, now, incoming, b, if over then buflen else mesglen, buf.Length - 2);
        if over {
          return done;
        }
        b, buflen := b + mesglen, buflen - mesglen;
      }
      ok := true;
      GetsNothing(stream);
      ReadTo(stream, buf[..], 0);
    }
  }

  /** What Sgets does where no call reports an error: the outcome that Gets gives for the stream. */
  predicate GetsDid(stream: string, buf: string, ok: bool, incoming: string)
    requires |buf| >= 2
  {
    var got := Gets(stream, |buf|);
    ok == got.Some? && (ok ==> CString(buf) == got.value.text && incoming == got.value.rest)
  }

  /** b bytes without a NUL have been read into the buffer. */
  predicate Partly(stream: string, incoming: string, buf: string, b: nat) {
    b <= |stream| && b <= |buf| && incoming == stream[b..] && buf[..b] == stream[..b] && NUL !in stream[..b]
  }

  /** At most n bytes of the stream have gone, and what has not gone is what is still to come. */
  predicate Later(stream: string, incoming: string, n: nat) {
    |incoming| <= |stream| <= |incoming| + n && incoming == stream[|stream| - |incoming|..]
  }

  lemma NothingRead(stream: string, buf: string)
    ensures Later(stream, stream, 0) && Partly(stream, stream, buf, 0)
  {
  }

  lemma LaterStill(stream: string, now: string, incoming: string, b: nat, n: nat, most: nat)
    requires Later(stream, now, b) && Later(now, incoming, n) && b + n <= most
    ensures Later(stream, incoming, b + n) && Later(stream, incoming, most)
  {
  }

  /** What a recv adds to what the ones before it have read. */
  lemma Joined(stream: string, before: string, after: string, b: nat, cnt: nat, rcnt: nat)
    requires cnt + rcnt <= |stream| && b + cnt + rcnt <= |before| == |after|
    requires before[b..b + cnt] == stream[..cnt] && after[b + cnt..b + cnt + rcnt] == stream[cnt..][..rcnt]
    requires forall i :: 0 <= i < b + cnt ==> after[i] == before[i]
    ensures after[b..b + cnt + rcnt] == stream[..cnt + rcnt] && stream[cnt..][rcnt..] == stream[cnt + rcnt..]
  {
    assert after[b..b + cnt] == before[b..b + cnt];
    assert after[b..b + cnt + rcnt] == after[b..b + cnt] + after[b + cnt..b + cnt + rcnt];
  }

  /** strchr from b on. */
  lemma FirstNul(buf: string, b: nat, nb: nat)
    requires b < |buf| && buf[|buf| - 1] == NUL && nb == StrChr(buf[b..], NUL) + b
    ensures nb < |buf| && buf[nb] == NUL && forall i :: b <= i < nb ==> buf[i] != NUL
  {
    var s := buf[b..];
    assert s[|s| - 1] == NUL && s[..|s|] == s;
    forall i | b <= i < nb ensures buf[i] != NUL { assert s[..nb - b][i - b] == buf[i]; }
  }

  /** What the peek says about the stream: no NUL before nb, as far as it goes, and one at nb if it goes there. */
  lemma Peeked(stream: string, buf: string, b: nat, mesglen: nat, nb: nat, good: bool)
    requires good ==> b + mesglen <= |stream| && b + mesglen <= |buf| && NUL !in stream[..b] && b <= nb < |buf|
    requires good ==> buf[b..b + mesglen] == stream[b..][..mesglen]
    requires good ==> buf[nb] == NUL && forall i :: b <= i < nb ==> buf[i] != NUL
    ensures good ==> forall i :: 0 <= i < nb && i < b + mesglen ==> stream[i] != NUL
    ensures good && nb < b + mesglen ==> stream[nb] == NUL
  {
    if good {
      forall i | 0 <= i < b ensures stream[i] != NUL { assert stream[i] == stream[..b][i]; }
      forall i | b <= i < b + mesglen ensures stream[i] == buf[i] {
        assert buf[b..b + mesglen][i - b] == stream[b..][..mesglen][i - b];
      }
    }
  }

  /** The bytes from b to e have been read behind the first b. */
  lemma Extend(stream: string, buf: string, b: nat, e: nat)
    requires b <= e <= |stream| && e <= |buf| && buf[..b] == stream[..b] && buf[b..e] == stream[b..][..e - b]
    ensures buf[..e] == stream[..e]
  {
    assert buf[..e] == buf[..b] + buf[b..e];
  }

  lemma ReadTo(stream: string, buf: string, k: nat)
    requires k < |buf| && k <= |stream| && buf[..k] == stream[..k] && NUL !in stream[..k] && buf[k] == NUL
    ensures CString(buf) == stream[..k]
  {
    CStringOf(buf, stream[..k]);
  }

  lemma GetsNothing(stream: string)
    ensures Gets(stream, 2) == Some(Got("", stream))
  {
  }

  lemma GetsAt(stream: string, maxbuf: nat, k: nat)
    requires k + 2 < maxbuf && k < |stream| && stream[k] == NUL && forall i :: 0 <= i < k ==> stream[i] != NUL
    ensures Gets(stream, maxbuf) == Some(Got(stream[..k], stream[k + 1..]))
  {
    StrChrIs(stream, NUL, k);
  }

  lemma GetsFull(stream: string, maxbuf: nat)
    requires 2 < maxbuf <= |stream| + 2 && forall i :: 0 <= i < maxbuf - 2 ==> stream[i] != NUL
    ensures Gets(stream, maxbuf) == Some(Got(stream[..maxbuf - 2], stream[maxbuf - 2..]))
  {
    var k := StrChr(stream, NUL);
    assert k < |stream| ==> stream[k] == NUL;
  }

  lemma GetsTooShort(stream: string, maxbuf: nat)
    requires |stream| + 2 < maxbuf && NUL !in stream
    ensures Gets(stream, maxbuf) == None
  {
    assert stream[..|stream|] == stream;
    StrChrIs(stream, NUL, |stream|);
  }
}
