/** Strings that end at their first NUL. */
module CStrings {
  const NUL := '\0'

  /** strchr: the index of the first c in s, or |s| when there is none. */
  function StrChr(s: string, c: char): (n: nat)
    ensures n <= |s| && c !in s[..n] && (n < |s| ==> s[n] == c)
  {
    if s == [] || s[0] == c then 0 else
      var n := StrChr(s[1..], c) + 1;
      assert s[..n] == [s[0]] + s[1..][..n - 1];
      n
  }

  /** The C string at the front of a buffer. */
  function CString(s: string): string { s[..StrChr(s, NUL)] }

  lemma StrChrIs(s: string, c: char, n: nat)
    requires n <= |s| && c !in s[..n] && (n < |s| ==> s[n] == c)
    ensures StrChr(s, c) == n
  {
    var m := StrChr(s, c);
    assert forall k :: 0 <= k < n ==> s[k] == s[..n][k] != c;
    assert forall k :: 0 <= k < m ==> s[k] == s[..m][k] != c;
  }

  /** A string followed by its NUL reads as that string, whatever lies behind. */
  lemma CStringOf(buf: string, s: string)
    requires NUL !in s && |s| < |buf| && buf[..|s|] == s && buf[|s|] == NUL
    ensures CString(buf) == s
  {
    StrChrIs(buf, NUL, |s|);
  }

  lemma CStringAll(s: string)
    requires NUL !in s
    ensures CString(s) == s
  {
    assert s[..|s|] == s;
    StrChrIs(s, NUL, |s|);
  }
}
