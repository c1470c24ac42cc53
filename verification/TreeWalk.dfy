/** The walk of a file tree that keeps the current pathname in one shared, growing buffer. */
module TreeWalk {
  import opened CStrings

  const NAME_MAX := 255

  /** What lstat and opendir find at a path; names are the entries of a directory, . and .. included. */
  datatype Kind = Other | Directory(readable: bool, names: seq<string>)

  /** A finite file system: a path that is not in it cannot be examined. */
  type FileSystem = map<string, Kind>

  datatype Flag = FTW_F | FTW_D | FTW_DNR | FTW_NS

  datatype Call = Call(path: string, flag: Flag)

  /** The caller's function; what it returns may depend on all its earlier calls. */
  type Func = (seq<Call>, Call) -> int

  // ----- the walk as a sequence of calls -----

  ghost function LongestIn(paths: set<string>): (n: nat)
    ensures forall p :: p in paths ==> |p| <= n
  {
    if paths == {} then 0
    else
      var p :| p in paths;
      var n := LongestIn(paths - {p});
      if |p| > n then |p| else n
  }

  /** How much longer than this path a path in the file system can be: the depth the walk can go. */
  ghost function Left(fs: FileSystem, path: string): nat {
    if path in fs then LongestIn(fs.Keys) + 1 - |path| else 0
  }

  predicate IsDot(name: string) { name == "." || name == ".." }

  /** Every file below path, a directory before what it holds. */
  ghost function Preorder(fs: FileSystem, path: string): (calls: seq<Call>)
    ensures |calls| > 0 && calls[0].path == path
    decreases Left(fs, path), 1, 0
  {
    if path !in fs then [Call(path, FTW_NS)]
    else match fs[path]
      case Other => [Call(path, FTW_F)]
      case Directory(readable, names) =>
        [Call(path, FTW_D)] + if readable then Below(fs, path, names) else [Call(path + "/", FTW_DNR)]
  }

  ghost function Below(fs: FileSystem, path: string, names: seq<string>): seq<Call>
    requires path in fs
    decreases Left(fs, path), 0, |names|
  {
    if names == [] then []
    else (if IsDot(names[0]) then [] else Preorder(fs, path + "/" + names[0])) + Below(fs, path, names[1..])
  }

  /** How a path is reported: as what cannot be examined, a directory, or anything else. */
  function FlagOf(fs: FileSystem, path: string): Flag {
    if path !in fs then FTW_NS else if fs[path].Directory? then FTW_D else FTW_F
  }

  /** c is what the walk reports inside the directory that parent reports: an entry, or that it cannot be read. */
  ghost predicate Inside(fs: FileSystem, parent: Call, c: Call) {
    && parent.flag == FTW_D && parent.path in fs && fs[parent.path].Directory?
    && if fs[parent.path].readable
       then exists name :: name in fs[parent.path].names && name != "." && name != ".."
                           && c == Call(parent.path + "/" + name, FlagOf(fs, parent.path + "/" + name))
       else c == Call(parent.path + "/", FTW_DNR)
  }

  /** The walk starts with its own path, and reports everything else inside a directory reported before. */
  lemma {:induction false} WalkStaysInside(fs: FileSystem, path: string, i: nat) returns (j: nat)
    requires i < |Preorder(fs, path)|
    ensures i == 0 ==> Preorder(fs, path)[i] == Call(path, FlagOf(fs, path))
    ensures i > 0 ==> j < i && Inside(fs, Preorder(fs, path)[j], Preorder(fs, path)[i])
    decreases Left(fs, path), 1, 0
  {
    j := 0;
    if i > 0 && fs[path].readable {
      var names := fs[path].names;
      var top, k := BelowStaysInside(fs, path, names, i - 1);
      if top { assert Inside(fs, Preorder(fs, path)[0], Preorder(fs, path)[i]); } else { j := k + 1; }
    }
  }

  /** What the walk reports for one entry of a directory. */
  ghost function EntryCalls(fs: FileSystem, path: string, name: string): seq<Call> {
    if IsDot(name) then [] else Preorder(fs, path + "/" + name)
  }

  lemma BelowIs(fs: FileSystem, path: string, names: seq<string>)
    requires path in fs
    ensures names == [] ==> Below(fs, path, names) == []
    ensures names != [] ==> Below(fs, path, names) == EntryCalls(fs, path, names[0]) + Below(fs, path, names[1..])
  {
  }

  lemma {:induction false} BelowStaysInside(fs: FileSystem, path: string, names: seq<string>, i: nat)
      returns (top: bool, j: nat)
    requires path in fs && i < |Below(fs, path, names)|
    ensures top ==> exists name :: (name in names && name != "." && name != ".."
                                    && Below(fs, path, names)[i]
                                       == Call(path + "/" + name, FlagOf(fs, path + "/" + name)))
    ensures !top ==> j < i && Inside(fs, Below(fs, path, names)[j], Below(fs, path, names)[i])
    decreases Left(fs, path), 0, |names|
  {
    hide Below, Preorder, Left;
    BelowIs(fs, path, names);
    var first := EntryCalls(fs, path, names[0]);
    if i < |first| {
      LeftFalls(fs, path, names[0]);
      j := WalkStaysInside(fs, path + "/" + names[0], i);
      top := i == 0;
    } else {
      top, j := BelowStaysInside(fs, path, names[1..], i - |first|);
      j := j + |first|;
    }
  }

  lemma {:induction false} WalkVisitsAll(fs: FileSystem, path: string, i: nat, c: Call) returns (j: nat)
    requires i < |Preorder(fs, path)| && Inside(fs, Preorder(fs, path)[i], c)
    ensures i < j < |Preorder(fs, path)| && Preorder(fs, path)[j] == c
    decreases Left(fs, path), 1, 0
  {
    j := 1;
    if fs[path].readable {
      var names := fs[path].names;
      if i == 0 {
        var name :| name in names && name != "." && name != ".."
                    && c == Call(path + "/" + name, FlagOf(fs, path + "/" + name));
        j := BelowVisits(fs, path, names, name);
      } else {
        j := BelowVisitsAll(fs, path, names, i - 1, c);
      }
      j := j + 1;
    }
  }

  lemma {:induction false} BelowVisits(fs: FileSystem, path: string, names: seq<string>, name: string) returns (j: nat)
    requires path in fs && name in names && name != "." && name != ".."
    ensures j < |Below(fs, path, names)|
    ensures Below(fs, path, names)[j] == Call(path + "/" + name, FlagOf(fs, path + "/" + name))
    decreases |names|
  {
    hide Below, Preorder, Left;
    BelowIs(fs, path, names);
    var first := EntryCalls(fs, path, names[0]);
    if name == names[0] {
      j := 0;
      var k := WalkStaysInside(fs, path + "/" + name, 0);
    } else {
      j := BelowVisits(fs, path, names[1..], name);
      j := j + |first|;
    }
  }

  lemma {:induction false} BelowVisitsAll(fs: FileSystem, path: string, names: seq<string>, i: nat, c: Call)
      returns (j: nat)
    requires path in fs && i < |Below(fs, path, names)| && Inside(fs, Below(fs, path, names)[i], c)
    ensures i < j < |Below(fs, path, names)| && Below(fs, path, names)[j] == c
    decreases Left(fs, path), 0, |names|
  {
    hide Below, Preorder, Left;
    BelowIs(fs, path, names);
    var first := EntryCalls(fs, path, names[0]);
    if i < |first| {
      LeftFalls(fs, path, names[0]);
      j := WalkVisitsAll(fs, path + "/" + names[0], i, c);
    } else {
      j := BelowVisitsAll(fs, path, names[1..], i - |first|, c);
      j := j + |first|;
    }
  }

  /** Within a directory no two entries have the same name, and no name has a slash. */
  ghost predicate NamesPlain(fs: FileSystem) {
    forall p :: p in fs && fs[p].Directory? ==> Plain(fs[p].names)
  }

  predicate Plain(names: seq<string>) {
    && (forall i :: 0 <= i < |names| ==> '/' !in names[i])
    && forall i, j :: 0 <= i < j < |names| ==> names[i] != names[j]
  }

  /** Path q is p or something below it. */
  predicate IsAt(q: string, p: string) { p <= q && (|q| == |p| || q[|p|] == '/') }

  /** The walk reports nothing twice. */
  lemma {:induction false} NothingTwice(fs: FileSystem, path: string, i: nat, j: nat)
    requires NamesPlain(fs) && i < j < |Preorder(fs, path)|
    ensures Preorder(fs, path)[i] != Preorder(fs, path)[j]
    decreases Left(fs, path), 1, 0
  {
    if fs[path].readable {
      var names := fs[path].names;
      if i == 0 {
        var k := BelowIsAt(fs, path, names, j - 1);
      } else {
        BelowTwice(fs, path, names, i - 1, j - 1);
      }
    }
  }

  lemma {:induction false} BelowTwice(fs: FileSystem, path: string, names: seq<string>, i: nat, j: nat)
    requires NamesPlain(fs) && path in fs && Plain(names) && i < j < |Below(fs, path, names)|
    ensures Below(fs, path, names)[i] != Below(fs, path, names)[j]
    decreases Left(fs, path), 0, |names|
  {
    hide Below, Preorder, Left;
    BelowIs(fs, path, names);
    var first := EntryCalls(fs, path, names[0]);
    PlainRest(names);
    if j < |first| {
      LeftFalls(fs, path, names[0]);
      NothingTwice(fs, path + "/" + names[0], i, j);
    } else if i >= |first| {
      BelowTwice(fs, path, names[1..], i - |first|, j - |first|);
    } else {
      LeftFalls(fs, path, names[0]);
      WalkIsAt(fs, path + "/" + names[0], i);
      var k := BelowIsAt(fs, path, names[1..], j - |first|);
      var q := Below(fs, path, names[1..])[j - |first|].path;
      if IsAt(q, path + "/" + names[0]) { OneEntry(path, names[0], names[1..][k], q); }
    }
  }

  lemma PlainRest(names: seq<string>)
    requires Plain(names) && names != []
    ensures Plain(names[1..]) && '/' !in names[0] && forall k :: 0 <= k < |names[1..]| ==> names[1..][k] != names[0]
  {
  }

  /** A path is below one entry of a directory at most. */
  lemma OneEntry(path: string, a: string, b: string, q: string)
    requires '/' !in a && '/' !in b && IsAt(q, path + "/" + a) && IsAt(q, path + "/" + b)
    ensures a == b
  {
    var n := |path| + 1;
    assert q[n..n + |a|] == a && q[n..n + |b|] == b;
  }

  lemma {:induction false} WalkIsAt(fs: FileSystem, path: string, i: nat)
    requires i < |Preorder(fs, path)|
    ensures IsAt(Preorder(fs, path)[i].path, path)
    decreases Left(fs, path), 1, 0
  {
    if i > 0 && fs[path].readable { var k := BelowIsAt(fs, path, fs[path].names, i - 1); }
  }

  lemma {:induction false} BelowIsAt(fs: FileSystem, path: string, names: seq<string>, i: nat) returns (k: nat)
    requires path in fs && i < |Below(fs, path, names)|
    ensures k < |names| && IsAt(Below(fs, path, names)[i].path, path + "/" + names[k])
    ensures var q := Below(fs, path, names)[i].path; IsAt(q, path) && |q| > |path|
    decreases Left(fs, path), 0, |names|
  {
    hide Below, Preorder, Left;
    BelowIs(fs, path, names);
    var first := EntryCalls(fs, path, names[0]);
    if i < |first| {
      k := 0;
      LeftFalls(fs, path, names[0]);
      WalkIsAt(fs, path + "/" + names[0], i);
    } else {
      k := BelowIsAt(fs, path, names[1..], i - |first|);
      k := k + 1;
    }
  }

  /** The calls made, up to and including the first that returns nonzero, and what that returns. */
  function Made(f: Func, log: seq<Call>, calls: seq<Call>): (r: (seq<Call>, int))
    decreases |calls|
  {
    if calls == [] then ([], 0)
    else
      var v := f(log, calls[0]);
      if v != 0 then ([calls[0]], v)
      else var rest := Made(f, log + [calls[0]], calls[1..]); ([calls[0]] + rest.0, rest.1)
  }

  /** All calls are made if the result is 0, */
  lemma {:induction false} MadeIsPrefix(f: Func, log: seq<Call>, calls: seq<Call>)
    ensures var (made, ret) := Made(f, log, calls);
            made <= calls && (ret == 0 ==> made == calls) && (ret != 0 ==> made != [])
    decreases |calls|
  {
    if calls != [] && f(log, calls[0]) == 0 {
      MadeIsPrefix(f, log + [calls[0]], calls[1..]);
      assert calls == [calls[0]] + calls[1..];
    }
  }

  /** and every call made returned 0, but for the last one, which returned the result. */
  lemma {:induction false} MadeStopsAtFirst(f: Func, log: seq<Call>, calls: seq<Call>, i: nat)
    requires i < |Made(f, log, calls).0|
    ensures var (made, ret) := Made(f, log, calls); f(log + made[..i], made[i]) == if i + 1 < |made| then 0 else ret
    decreases |calls|
  {
    var made, log1 := Made(f, log, calls).0, log + [calls[0]];
    assert log + made[..0] == log;
    if f(log, calls[0]) == 0 {
      var made1 := Made(f, log1, calls[1..]).0;
      if i > 0 {
        MadeStopsAtFirst(f, log1, calls[1..], i - 1);
        assert log + made[..i] == log1 + made1[..i - 1];
      }
    }
  }

  lemma {:induction false} MadeConcat(f: Func, log: seq<Call>, a: seq<Call>, b: seq<Call>)
    ensures var (made, ret) := Made(f, log, a);
            Made(f, log, a + b)
            == if ret != 0 then (made, ret) else var rest := Made(f, log + a, b); (a + rest.0, rest.1)
    decreases |a|
  {
    if a == [] {
      assert a + b == b && log + a == log && a + Made(f, log, b).0 == Made(f, log, b).0;
    } else {
      assert (a + b)[1..] == a[1..] + b && (a + b)[0] == a[0];
      if f(log, a[0]) == 0 {
        var rest := Made(f, log + a, b).0;
        MadeConcat(f, log + [a[0]], a[1..], b);
        assert log + [a[0]] + a[1..] == log + a;
        assert [a[0]] + (a[1..] + rest) == a + rest;
      }
    }
  }

  /** The calls in done have all returned 0, and those in rest are still to come. */
  predicate Remains(f: Func, log: seq<Call>, calls: seq<Call>, done: seq<Call>, rest: seq<Call>) {
    Made(f, log, calls) == (done + Made(f, log + done, rest).0, Made(f, log + done, rest).1)
  }

  lemma RemainsNext(f: Func, log: seq<Call>, calls: seq<Call>, done: seq<Call>, a: seq<Call>, b: seq<Call>)
    requires Remains(f, log, calls, done, a + b)
    ensures var (made, ret) := Made(f, log + done, a);
            if ret == 0 then made == a && Remains(f, log, calls, done + a, b)
            else Made(f, log, calls) == (done + made, ret)
  {
    MadeConcat(f, log + done, a, b);
    MadeIsPrefix(f, log + done, a);
    assert log + done + a == log + (done + a);
    var rest := Made(f, log + (done + a), b).0;
    assert done + (a + rest) == done + a + rest;
  }

  // ----- the buffer -----

  /** The buffer holds this string and its NUL. */
  predicate Holds(buf: string, p: string) { NUL !in p && |p| < |buf| && buf[..|p|] == p && buf[|p|] == NUL }

  predicate NameOk(name: string) { |name| <= NAME_MAX && NUL !in name }

  ghost predicate NamesOk(fs: FileSystem) {
    forall p, i :: p in fs && fs[p].Directory? && 0 <= i < |fs[p].names| ==> NameOk(fs[p].names[i])
  }

  /**
   * Doubling a buffer that just holds a path makes room for any name exactly when it had NAME_MAX
   * bytes to spare for it.
   */
  lemma DoublingSuffices(pathlen: nat)
    ensures (forall n: nat :: n < pathlen ==> Fits(n, 2 * pathlen)) <==> pathlen == 0 || pathlen >= NAME_MAX + 1
  {
    if pathlen > 0 {
      var n: nat := pathlen - 1;
      assert Fits(n, 2 * pathlen) <==> pathlen >= NAME_MAX + 1;
    }
  }

  /** Behind a path of n bytes there is room for a slash, any name and a NUL. */
  predicate Fits(n: nat, pathlen: nat) { n + NAME_MAX + 2 <= pathlen }

  class Walker {
    var fullpath: array<char>
    var pathlen: nat
    var log: seq<Call>                                         // what the caller's function has seen

    predicate Valid()
      reads this
    {
      pathlen == fullpath.Length && pathlen >= NAME_MAX + 1
    }

    /** path_alloc: a buffer of PATH_MAX bytes. */
    constructor (pathMax: nat)
      requires pathMax >= NAME_MAX + 1
      ensures Valid() && log == [] && fresh(fullpath)
    {
      fullpath := new char[pathMax];
      pathlen, log := pathMax, [];
    }

    method Realloc(size: nat)
      requires pathlen == fullpath.Length <= size
      modifies this`fullpath
      ensures fresh(fullpath) && fullpath.Length == size && fullpath[..pathlen] == old(fullpath[..])
    {
      var bigger := new char[size];
      forall i | 0 <= i < fullpath.Length { bigger[i] := fullpath[i]; }
      fullpath := bigger;
    }

    /** strcpy(&fullpath[n], s) */
    method StrCpy(n: nat, s: string)
      requires n + |s| < fullpath.Length
      modifies fullpath
      ensures fullpath[..n] == old(fullpath[..n]) && fullpath[n..n + |s|] == s && fullpath[n + |s|] == NUL
    {
      forall i | 0 <= i < |s| { fullpath[n + i] := s[i]; }
      fullpath[n + |s|] := NUL;
    }

    method CallFunc(f: Func, flag: Flag, ghost p: string) returns (ret: int)
      requires Holds(fullpath[..], p)
      modifies this`log
      ensures log == old(log) + [Call(p, flag)] && ret == f(old(log), Call(p, flag))
    {
      CStringOf(fullpath[..], p);
      var call := Call(CString(fullpath[..]), flag);
      ret := f(log, call);
      log := log + [call];
    }

    method MyFtw(fs: FileSystem, pathname: string, f: Func) returns (ret: int)
      requires Valid() && NamesOk(fs) && NUL !in pathname
      modifies this, fullpath
      ensures Valid() && log == old(log) + Made(f, old(log), Preorder(fs, pathname)).0
      ensures ret == Made(f, old(log), Preorder(fs, pathname)).1
    {
      if pathlen <= |pathname| {
        Realloc(2 * |pathname|);
        pathlen := 2 * |pathname|;
      }
      StrCpy(0, pathname);
      assert fullpath[..|pathname|] == fullpath[0..0 + |pathname|] == pathname;
      ret := DoPath(fs, f, pathname);
    }

    /** Put a slash behind path p, in a buffer grown to hold any name behind that. */
    method AddSlash(ghost p: string) returns (n: nat)
      requires Valid() && Holds(fullpath[..], p)
      modifies this`fullpath, this`pathlen, fullpath
      ensures Valid() && (fullpath == old(fullpath) || fresh(fullpath)) && pathlen >= old(pathlen)
      ensures n == |p| + 1 && n + NAME_MAX + 1 <= pathlen && fullpath[..n] == p + "/" && fullpath[n] == NUL
    {
      CStringOf(fullpath[..], p);
      n := |CString(fullpath[..])|;                            // strlen(fullpath)
      if !Fits(n, pathlen) {
        Realloc(2 * pathlen);
        pathlen := 2 * pathlen;
      }
      fullpath[n] := '/';
      n := n + 1;
      fullpath[n] := NUL;
      assert fullpath[..n] == p + "/";
    }

    /**
     * Calls f for path p, which the buffer holds, and everything below it, in preorder up to
     * the first nonzero result.  The caller's path is left in front of the buffer; a directory
     * that could not be read leaves its slash there.
     */
    method DoPath(fs: FileSystem, f: Func, ghost p: string) returns (ret: int)
      requires Valid() && NamesOk(fs) && Holds(fullpath[..], p)
      modifies this, fullpath
      ensures Valid() && (fullpath == old(fullpath) || fresh(fullpath)) && pathlen >= old(pathlen)
      ensures log == old(log) + Made(f, old(log), Preorder(fs, p)).0
      ensures ret == Made(f, old(log), Preorder(fs, p)).1
      ensures Holds(fullpath[..], p)
              || (Holds(fullpath[..], p + "/") && p in fs && fs[p].Directory? && !fs[p].readable)
      decreases Left(fs, p), 1
    {
      hide Preorder, Made, Left, Below, NamesOk, Remains, CString;
      CallsFor(fs, p, f, log);
      CStringOf(fullpath[..], p);
      var path := CString(fullpath[..]);
      if path !in fs {
        ret := CallFunc(f, FTW_NS, p);
        return;
      }
      if fs[path].Other? {
        ret := CallFunc(f, FTW_F, p);
        return;
      }
      ghost var log0 := log;
      ret := CallFunc(f, FTW_D, p);
      if ret != 0 {
        return;
      }
      var n := AddSlash(p);
      if !fs[path].readable {
        ret := CallFunc(f, FTW_DNR, p + "/");
        return;
      }
      ret := ReadDir(fs, f, n, fs[path].names, p, log0);
      fullpath[n - 1] := NUL;
      assert fullpath[..|p|] == fullpath[..n][..|p|] == p;
    }

    /** The loop over the entries of directory p, whose path and slash are in front of the buffer. */
    method ReadDir(fs: FileSystem, f: Func, n: nat, names: seq<string>, ghost p: string, ghost log0: seq<Call>)
      returns (ret: int)
      requires Valid() && NamesOk(fs) && p in fs && fs[p].Directory? && names == fs[p].names && NUL !in p
      requires n == |p| + 1 && n + NAME_MAX + 1 <= pathlen && fullpath[..n] == p + "/"
      requires log == log0 + [Call(p, FTW_D)]
      requires Remains(f, log0, Preorder(fs, p), [Call(p, FTW_D)], Below(fs, p, names))
      modifies this, fullpath
      ensures Valid() && (fullpath == old(fullpath) || fresh(fullpath)) && pathlen >= old(pathlen)
      ensures n + NAME_MAX + 1 <= pathlen && fullpath[..n] == p + "/"
      ensures log == log0 + Made(f, log0, Preorder(fs, p)).0 && ret == Made(f, log0, Preorder(fs, p)).1
      decreases Left(fs, p), 0
    {
      hide Preorder, Made, Left, Remains, Below, NamesOk, CString;
      ghost var calls, done := Preorder(fs, p), [Call(p, FTW_D)];
      ret := 0;
      var i := 0;
      assert names[0..] == names;
      while i < |names|
        invariant i <= |names| && Valid() && (fullpath == old(fullpath) || fresh(fullpath)) && pathlen >= old(pathlen)
        invariant n + NAME_MAX + 1 <= pathlen && fullpath[..n] == p + "/" && ret == 0
        invariant log == log0 + done && Remains(f, log0, calls, done, Below(fs, p, names[i..]))
      {
        BelowNext(fs, p, names, i);
        if !IsDot(names[i]) {
          NameIsOk(fs, p, i);
          ghost var child, made := p + "/" + names[i], Made(f, log, Preorder(fs, p + "/" + names[i])).0;
          StrCpy(n, names[i]);
          HoldsChild(fullpath[..], p, names[i]);
          LeftFalls(fs, p, names[i]);
          RemainsNext(f, log0, calls, done, Preorder(fs, child), Below(fs, p, names[i + 1..]));
          ret := DoPath(fs, f, child);
          assert log0 + done + made == log0 + (done + made);
          KeepsFront(fullpath[..], child, n);
          if ret != 0 {
            return;
          }
          done := done + made;
        }
        i := i + 1;
      }
      BelowNothing(fs, p, names);
      RemainsNothing(f, log0, calls, done);
    }
  }

  /** The calls for a path, by what is there. */
  lemma CallsFor(fs: FileSystem, p: string, f: Func, log: seq<Call>)
    ensures var calls, d, dnr := Preorder(fs, p), Call(p, FTW_D), Call(p + "/", FTW_DNR);
            if p !in fs then Made(f, log, calls) == ([Call(p, FTW_NS)], f(log, Call(p, FTW_NS)))
            else if fs[p].Other? then Made(f, log, calls) == ([Call(p, FTW_F)], f(log, Call(p, FTW_F)))
            else if f(log, d) != 0 then Made(f, log, calls) == ([d], f(log, d))
            else if fs[p].readable then Remains(f, log, calls, [d], Below(fs, p, fs[p].names))
            else Made(f, log, calls) == ([d] + [dnr], f(log + [d], dnr))
  {
    if p !in fs {
      MadeOne(f, log, Call(p, FTW_NS));
    } else if fs[p].Other? {
      MadeOne(f, log, Call(p, FTW_F));
    } else {
      var d, dnr := Call(p, FTW_D), Call(p + "/", FTW_DNR);
      var rest := Preorder(fs, p)[1..];
      MadeOne(f, log, d);
      MadeOne(f, log + [d], dnr);
      assert Preorder(fs, p) == [d] + rest;
      MadeConcat(f, log, [d], rest);
      assert rest == if fs[p].readable then Below(fs, p, fs[p].names) else [dnr];
    }
  }

  lemma MadeOne(f: Func, log: seq<Call>, c: Call)
    ensures Made(f, log, [c]) == ([c], f(log, c))
  {
    assert [c][1..] == [] && [c] + [] == [c];
  }

  lemma BelowNext(fs: FileSystem, p: string, names: seq<string>, i: nat)
    requires p in fs && i < |names|
    ensures var rest := Below(fs, p, names[i + 1..]);
            Below(fs, p, names[i..]) == if IsDot(names[i]) then rest else Preorder(fs, p + "/" + names[i]) + rest
  {
    assert names[i..][0] == names[i] && names[i..][1..] == names[i + 1..];
    assert [] + Below(fs, p, names[i + 1..]) == Below(fs, p, names[i + 1..]);
  }

  lemma BelowNothing(fs: FileSystem, p: string, names: seq<string>)
    requires p in fs
    ensures names[|names|..] == [] && Below(fs, p, names[|names|..]) == []
  {
  }

  lemma NameIsOk(fs: FileSystem, p: string, i: nat)
    requires NamesOk(fs) && p in fs && fs[p].Directory? && i < |fs[p].names|
    ensures NameOk(fs[p].names[i])
  {
  }

  lemma RemainsNothing(f: Func, log: seq<Call>, calls: seq<Call>, done: seq<Call>)
    requires Remains(f, log, calls, done, [])
    ensures Made(f, log, calls) == (done, 0)
  {
    assert done + [] == done;
  }

  lemma HoldsChild(buf: string, p: string, name: string)
    requires NUL !in p && NUL !in name && |p| + 1 + |name| < |buf|
    requires buf[..|p| + 1] == p + "/" && buf[|p| + 1..|p| + 1 + |name|] == name && buf[|p| + 1 + |name|] == NUL
    ensures Holds(buf, p + "/" + name)
  {
    assert buf[..|p| + 1 + |name|] == buf[..|p| + 1] + buf[|p| + 1..|p| + 1 + |name|];
  }

  lemma KeepsFront(buf: string, child: string, n: nat)
    requires n <= |child| && (Holds(buf, child) || Holds(buf, child + "/"))
    ensures n <= |buf| && buf[..n] == child[..n]
  {
    assert buf[..n] == buf[..|child|][..n];
    if Holds(buf, child + "/") { assert buf[..n] == buf[..|child + "/"|][..n]; }
  }

  lemma LeftFalls(fs: FileSystem, path: string, name: string)
    requires path in fs
    ensures Left(fs, path + "/" + name) < Left(fs, path)
  {
  }
}
