/** The index record: its text, its fixed-width prefix, and how it is parsed back. */
module DbRecord {
  import opened CStrings
  import opened Decimal
  import opened Options

  const IDXLEN_SZ := 4
  const PTR_SZ := 7
  const PTR_MAX := 9999999
  const NHASH_DEF := 137
  const FREE_OFF := 0
  const HASH_OFF := 7
  const IDXLEN_MIN := 6
  const IDXLEN_MAX := 1024
  const DATLEN_MIN := 2
  const DATLEN_MAX := 1024
  const ULONG := 0x1_0000_0000_0000_0000
  const SEP := ':'
  const NEWLINE := '\n'

  /** What an index record says besides its chain pointer. */
  datatype Entry = Entry(key: string, datoff: nat, datlen: nat)

  /** sprintf("%s%c%lld%c%ld\n", key, SEP, datoff, SEP, datlen) */
  function Text(e: Entry): string {
    e.key + [SEP] + Dec(e.datoff) + [SEP] + Dec(e.datlen) + [NEWLINE]
  }

  function PtrField(v: nat): string { Padded(v, PTR_SZ) }

  /** The record after its chain pointer: the length field and the text. */
  function Body(e: Entry): string { Padded(|Text(e)|, IDXLEN_SZ) + Text(e) }

  function TextLen(e: Entry): (n: nat)
    ensures n == |Text(e)|
  {
    |e.key| + |Dec(e.datoff)| + |Dec(e.datlen)| + 3
  }

  function RecLen(e: Entry): nat { PTR_SZ + IDXLEN_SZ + TextLen(e) }

  predicate KeyOk(key: string) { NUL !in key && SEP !in key }

  predicate LegalEntry(e: Entry) {
    KeyOk(e.key) && IDXLEN_MIN <= |Text(e)| <= IDXLEN_MAX && 1 <= e.datlen <= DATLEN_MAX
  }

  /** Every check _db_readidx makes on a record text; None stands for err_dump. */
  function ParseText(t: string): Option<Entry> {
    if |t| < IDXLEN_MIN || |t| > IDXLEN_MAX || t[|t| - 1] != NEWLINE then None else ParseFields(CString(t[..|t| - 1]))
  }

  function ParseFields(s: string): Option<Entry> {
    var p1 := StrChr(s, SEP);
    if p1 == |s| then None
    else
      var s1 := s[p1 + 1..];
      var p2 := StrChr(s1, SEP);
      if p2 == |s1| then None
      else
        var s2 := s1[p2 + 1..];
        if SEP in s2 then None
        else if Atol(s1[..p2]) < 0 then None
        else if Atol(s2) <= 0 || Atol(s2) > DATLEN_MAX then None
        else Some(Entry(s[..p1], Atol(s1[..p2]), Atol(s2)))
  }

  lemma DigitsHoldNo(s: string, c: char)
    requires AllDigits(s) && !IsDigit(c)
    ensures c !in s
  {
  }

  /** Where the separators of a record text are, and what lies between them. */
  lemma TextParts(e: Entry)
    requires LegalEntry(e)
    ensures var t, o, l := Text(e), Dec(e.datoff), Dec(e.datlen);
            t == (e.key + [SEP] + o + [SEP] + l) + [NEWLINE]
            && NUL !in e.key + [SEP] + o + [SEP] + l && SEP !in e.key && SEP !in o && SEP !in l
            && NUL !in o && NUL !in l && Atol(o) == e.datoff && Atol(l) == e.datlen
  {
    DigitsHoldNo(Dec(e.datoff), SEP);
    DigitsHoldNo(Dec(e.datlen), SEP);
    DigitsHoldNo(Dec(e.datoff), NUL);
    DigitsHoldNo(Dec(e.datlen), NUL);
    AtolPadded(e.datoff, 0);
    AtolPadded(e.datlen, 0);
  }

  /**
   * A NUL put over the first separator of the string at k leaves the field before it, and
   * then the rest, as strings of their own.
   */
  lemma CutField(buf: string, k: nat, p: nat)
    requires k <= |buf| && NUL in buf[k..] && p == StrChr(CString(buf[k..]), SEP) < |CString(buf[k..])|
    ensures k + |CString(buf[k..])| < |buf|
    ensures var s, cut := CString(buf[k..]), buf[k + p := NUL];
            CString(cut[k..]) == s[..p] && CString(cut[k + p + 1..]) == s[p + 1..] && NUL in cut[k + p + 1..]
  {
    hide StrChr;
    var rest := buf[k..];
    var n, cut := StrChr(rest, NUL), buf[k + p := NUL];
    assert n < |rest| by { assert rest[..|rest|] == rest; }
    Unterminated(rest, n);
    assert rest[n] == buf[k + n] == cut[k + n] == cut[k + p + 1..][n - p - 1];
    forall i | 0 <= i < p ensures cut[k..][i] == rest[i] {}
    assert cut[k..][..p] == rest[..n][..p];
    CStringOf(cut[k..], rest[..n][..p]);
    assert cut[k + p + 1..][..n - p - 1] == rest[..n][p + 1..];
    CStringOf(cut[k + p + 1..], rest[..n][p + 1..]);
  }

  lemma Unterminated(s: string, n: nat)
    requires n == StrChr(s, NUL)
    ensures forall i :: 0 <= i < n ==> s[i] != NUL
  {
    forall i | 0 <= i < n ensures s[i] != NUL { assert s[..n][i] == s[i]; }
  }

  /** A NUL in a buffer ends its string there at the latest. */
  lemma CutShort(buf: string, n: nat)
    requires n < |buf| && buf[n] == NUL
    ensures NUL in buf && CString(buf) == CString(buf[..n])
  {
    var m := StrChr(buf[..n], NUL);
    assert buf[..n][..m] == buf[..m];
    StrChrIs(buf, NUL, m);
  }

  /** What is put behind the end of a string is not part of it. */
  lemma BehindTheEnd(buf: string, j: nat)
    requires |CString(buf)| < j < |buf|
    ensures CString(buf[j := NUL]) == CString(buf)
  {
    hide StrChr;
    var s := CString(buf);
    assert buf[j := NUL][..|s|] == s;
    CStringOf(buf[j := NUL], s);
  }

  /** Three strings joined by separators come apart at the first separator, twice. */
  lemma SplitTwice(k: string, o: string, l: string)
    requires SEP !in k && SEP !in o && NUL !in k + [SEP] + o + [SEP] + l
    ensures var s, s1 := k + [SEP] + o + [SEP] + l, o + [SEP] + l;
            CString(s) == s && StrChr(s, SEP) == |k| && s[..|k|] == k && s[|k| + 1..] == s1
            && StrChr(s1, SEP) == |o| && s1[..|o|] == o && s1[|o| + 1..] == l
  {
    hide CString, StrChr;
    var s, s1 := k + [SEP] + o + [SEP] + l, o + [SEP] + l;
    assert s[..|k|] == k && s1[..|o|] == o;
    CStringAll(s);
    StrChrIs(s, SEP, |k|);
    StrChrIs(s1, SEP, |o|);
  }

  /** Reading what was written gives back the same key, data offset and data length. */
  lemma ParseText_RoundTrip(e: Entry)
    requires LegalEntry(e)
    ensures ParseText(Text(e)) == Some(e)
  {
    TextParts(e);
    var t, o, l := Text(e), Dec(e.datoff), Dec(e.datlen);
    hide Text, Dec, CString, StrChr, Atol;
    assert ParseText(t) == ParseFields(CString(t[..|t| - 1]));
    assert t[..|t| - 1] == e.key + [SEP] + o + [SEP] + l && t[|t| - 1] == NEWLINE;
    SplitTwice(e.key, o, l);
  }

  /** A text of the right size and end with three fields in it is accepted exactly when its two numbers are in range. */
  lemma ParseAccepts(t: string, k: string, o: string, l: string)
    requires 6 <= |t| <= 1024 && t[|t| - 1] == '\n' && ':' !in k && ':' !in o && ':' !in l
    requires CString(t[..|t| - 1]) == k + ":" + o + ":" + l
    ensures ParseText(t) == if Atol(o) >= 0 && 0 < Atol(l) <= 1024 then Some(Entry(k, Atol(o), Atol(l))) else None
  {
    hide CString, StrChr, Atol;
    var s := CString(t[..|t| - 1]);
    CStringHoldsNone(t[..|t| - 1]);
    assert s == k + [SEP] + o + [SEP] + l;
    SplitTwice(k, o, l);
  }

  lemma CStringHoldsNone(s: string)
    ensures NUL !in CString(s)
  {
  }

  /** Any other text is refused. */
  lemma ParseRefuses(t: string)
    requires |t| < 6 || |t| > 1024 || t[|t| - 1] != '\n' || multiset(CString(t[..|t| - 1]))[':'] != 2
    ensures ParseText(t) == None
  {
    hide CString, Atol;
    if |t| > 0 {
      var s := CString(t[..|t| - 1]);
      var p1 := StrChr(s, SEP);
      OneLess(s, SEP);
      if p1 < |s| { OneLess(s[p1 + 1..], SEP); }
    }
  }

  lemma OneLess(s: string, c: char)
    ensures var p := StrChr(s, c);
            multiset(s)[c] == if p == |s| then 0 else 1 + multiset(s[p + 1..])[c]
  {
    var p := StrChr(s, c);
    if p < |s| {
      assert s == s[..p] + [s[p]] + s[p + 1..];
      assert multiset(s[..p])[c] == 0;
    } else {
      assert s[..p] == s;
    }
  }

  /** What the records of key ab with one byte of data, at the front of the data file, look like, and its chain. */
  lemma RecordOfAb()
    ensures Text(Entry("ab", 0, 2)) == "ab:0:2\n" && Body(Entry("ab", 0, 2)) == "   7ab:0:2\n"
    ensures PtrField(12) == "     12"
    ensures Hash("ab") == (97 * 1 + 98 * 2) % 137 && Hash([233 as char]) == (0x1_0000_0000_0000_0000 - 23) % 137
  {
    DecOne(0);
    DecOne(2);
    DecOne(7);
    assert Dec(12) == Dec(1) + [Digit(2)];
    DecOne(1);
    assert "ab"[..1] == "a" && "a"[..0] == "";
    assert KeySum("ab") == KeySum("a") + 98 * 2;
    assert KeySum("a") == KeySum("") + 97 * 1;
    assert [233 as char][..0] == "" && KeySum([233 as char]) == KeySum("") - 23;
  }

  lemma DecOne(n: nat)
    requires n < 10
    ensures Dec(n) == [Digit(n)]
  {
  }

  /** The two fixed-width fields of a legal record have exactly their width and read back. */
  lemma Fields_RoundTrip(next: nat, e: Entry)
    requires next <= PTR_MAX && LegalEntry(e)
    ensures |PtrField(next)| == PTR_SZ && Atol(PtrField(next)) == next
    ensures |Body(e)| == IDXLEN_SZ + |Text(e)|
    ensures Atol(Body(e)[..IDXLEN_SZ]) == |Text(e)| && Body(e)[IDXLEN_SZ..] == Text(e)
  {
    assert Pow10(7) == 10000000 && Pow10(4) == 10000;
    FieldWidth(next, PTR_SZ);
    FieldWidth(|Text(e)|, IDXLEN_SZ);
    AtolPadded(next, PTR_SZ);
    AtolPadded(|Text(e)|, IDXLEN_SZ);
  }

  /**
   * A record rewritten with another key of the same length over the same data region
   * has exactly the old byte length; this is what deletion and reuse rely on.
   */
  lemma RewriteKeepsLength(e: Entry, key: string)
    ensures RecLen(e.(key := key)) == RecLen(e) <==> |key| == |e.key|
  {
  }

  /** A plain char is taken to be signed, as on the usual ABIs. */
  function CharValue(c: char): int { if c as int < 128 then c as int else c as int - 256 }

  /** The characters times their 1-based index, added up. */
  function KeySum(key: string): int {
    if key == [] then 0 else KeySum(key[..|key| - 1]) + CharValue(key[|key| - 1]) * |key|
  }

  /** _db_hash: that sum, in an unsigned long. */
  function Hash(key: string): (h: nat)
    ensures h < NHASH_DEF
  {
    KeySum(key) % ULONG % NHASH_DEF
  }

  lemma SumWraps(x: int, y: int)
    ensures (x % ULONG + y) % ULONG == (x + y) % ULONG
  {
    assert x == x / ULONG * ULONG + x % ULONG;
    assert x + y == x / ULONG * ULONG + (x % ULONG + y);
  }

  /** The header location of a hash bucket's chain pointer. */
  function ChainOff(key: string): (l: nat)
    ensures HASH_OFF <= l <= NHASH_DEF * PTR_SZ && l % PTR_SZ == 0
  {
    Hash(key) * PTR_SZ + HASH_OFF
  }

  predicate AllBlank(key: string) { forall i :: 0 <= i < |key| ==> key[i] == ' ' }
}
