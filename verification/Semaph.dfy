/**
 * The life of a three-member semaphore set shared by any number of processes, each of which
 * may die before any of its steps.  A step is one system call, or one try or wake-up of semop.
 */
module Semaph {
  import opened Options

  const BIGCOUNT := 10000
  const SEMVMX := 32767

  /** The set under the key: its identifier, its members, and whether [1] has been initialised. */
  datatype SemSet = SemSet(id: nat, v0: int, v1: int, v2: int, ready: bool)

  /** Where a process is: in sem_create, sem_open or sem_close, or done for. */
  datatype Pc =
    | Idle
    | CreateGet | CreateLock(id: nat) | CreateAsleep(id: nat)
    | CreateVal(id: nat) | CreateSet0(id: nat) | CreateSet1(id: nat) | CreateEnd(id: nat)
    | OpenGet | OpenDec(id: nat) | OpenAsleep(id: nat)
    | CloseLock(id: nat) | CloseAsleep(id: nat) | CloseVal(id: nat) | CloseRm(id: nat) | CloseUnlock(id: nat)
    | Dead

  /**
   * arg is what it last passed to sem_create, handles the identifiers it has open, adj1 and adj2
   * the kernel's undo values for the present set.
   */
  datatype Proc = Proc(pc: Pc, arg: int, handles: multiset<nat>, adj1: int, adj2: int)

  /** unused is above every identifier given out so far. */
  datatype State = State(cur: Option<SemSet>, unused: nat, procs: seq<Proc>)

  datatype Action = Create(init: int) | Open | Close(id: nat) | Remove(id: nat) | Die | Go

  // ----- system calls -----

  predicate Exists(s: State, id: nat) { s.cur.Some? && s.cur.value.id == id }

  /** The process's semop cannot be carried out now; it sleeps until it can, or the set is removed. */
  predicate Blocked(s: State, pc: Pc) {
    match pc
    case CreateAsleep(id) => Exists(s, id) && s.cur.value.v2 != 0
    case CloseAsleep(id) => Exists(s, id) && s.cur.value.v2 != 0
    case OpenAsleep(id) => Exists(s, id) && s.cur.value.v1 < 1
    case CreateEnd(id) => Exists(s, id) && (s.cur.value.v1 < 1 || s.cur.value.v2 < 1)
    case CloseUnlock(id) => Exists(s, id) && s.cur.value.v2 < 1
    case _ => false
  }

  predicate Enabled(s: State, p: nat, a: Action) {
    && p < |s.procs|
    && var pr := s.procs[p];
    match a
    case Create(_) => pr.pc.Idle?
    case Open => pr.pc.Idle?
    case Close(id) => pr.pc.Idle? && id in pr.handles
    case Remove(id) => pr.pc.Idle? && id in pr.handles
    case Die => !pr.pc.Dead?
    case Go => !pr.pc.Idle? && !pr.pc.Dead? && !Blocked(s, pr.pc)
  }

  /** A member after undo: the kernel keeps it within bounds. */
  function Clamp(v: int): int { if v < 0 then 0 else if v > SEMVMX then SEMVMX else v }

  /** The end of a process, by exit or otherwise: its undo values are applied. */
  function Died(s: State, p: nat): State
    requires p < |s.procs|
  {
    var pr := s.procs[p];
    var procs := s.procs[p := Proc(Dead, 0, multiset{}, 0, 0)];
    if s.cur.None? then s.(procs := procs)
    else
      var g := s.cur.value;
      s.(cur := Some(g.(v1 := Clamp(g.v1 + pr.adj1), v2 := Clamp(g.v2 + pr.adj2))), procs := procs)
  }

  function At(s: State, p: nat, pc: Pc): State
    requires p < |s.procs|
  {
    s.(procs := s.procs[p := s.procs[p].(pc := pc)])
  }

  /** semop by process p, adding d1 and d2 with SEM_UNDO, all at once. */
  function Semop(s: State, p: nat, d1: int, d2: int, pc: Pc, handles: multiset<nat>): State
    requires p < |s.procs| && s.cur.Some?
  {
    var g, pr := s.cur.value, s.procs[p];
    s.(cur := Some(g.(v1 := g.v1 + d1, v2 := g.v2 + d2)),
       procs := s.procs[p := Proc(pc, pr.arg, handles, pr.adj1 - d1, pr.adj2 - d2)])
  }

  /** IPC_RMID: the set goes and with it every process's undo values for it. */
  function Removed(s: State): State {
    s.(cur := None, procs := seq(|s.procs|, i requires 0 <= i < |s.procs| => s.procs[i].(adj1 := 0, adj2 := 0)))
  }

  /** SETVAL of [1] clears that member's undo values in every process. */
  function SetVal1(s: State): State
    requires s.cur.Some?
  {
    s.(cur := Some(s.cur.value.(v1 := BIGCOUNT, ready := true)),
       procs := seq(|s.procs|, i requires 0 <= i < |s.procs| => s.procs[i].(adj1 := 0)))
  }

  /** The next system call of process p; where it fails the process exits through err_sys, or tries again. */
  function After(s: State, p: nat): State
    requires p < |s.procs|
  {
    var pr := s.procs[p];
    match pr.pc
    case CreateGet =>
      if s.cur.Some? then At(s, p, CreateLock(s.cur.value.id))
      else At(s.(cur := Some(SemSet(s.unused, 0, 0, 0, false)), unused := s.unused + 1), p, CreateLock(s.unused))
    case CreateLock(id) =>
      if !Exists(s, id) then At(s, p, CreateGet)                       // EINVAL: goto again
      else if s.cur.value.v2 != 0 then At(s, p, CreateAsleep(id))
      else Semop(s, p, 0, 1, CreateVal(id), pr.handles)
    case CreateAsleep(id) =>
      if !Exists(s, id) then Died(s, p)                                      // EIDRM
      else Semop(s, p, 0, 1, CreateVal(id), pr.handles)
    case CreateVal(id) =>
      if !Exists(s, id) then Died(s, p)
      else if s.cur.value.v1 == 0 then At(s, p, CreateSet0(id))
      else At(s, p, CreateEnd(id))
    case CreateSet0(id) =>
      if !Exists(s, id) then Died(s, p)
      else At(s.(cur := Some(s.cur.value.(v0 := pr.arg))), p, CreateSet1(id))
    case CreateSet1(id) =>
      if !Exists(s, id) then Died(s, p) else At(SetVal1(s), p, CreateEnd(id))
    case CreateEnd(id) =>
      if !Exists(s, id) then Died(s, p) else Semop(s, p, -1, -1, Idle, pr.handles + multiset{id})
    case OpenGet =>
      if s.cur.None? then At(s, p, Idle) else At(s, p, OpenDec(s.cur.value.id))
    case OpenDec(id) =>
      if !Exists(s, id) then Died(s, p)
      else if s.cur.value.v1 < 1 then At(s, p, OpenAsleep(id))
      else Semop(s, p, -1, 0, Idle, pr.handles + multiset{id})
    case OpenAsleep(id) =>
      if !Exists(s, id) then Died(s, p) else Semop(s, p, -1, 0, Idle, pr.handles + multiset{id})
    case CloseLock(id) =>
      if !Exists(s, id) then Died(s, p)
      else if s.cur.value.v2 != 0 then At(s, p, CloseAsleep(id))
      else Semop(s, p, 1, 1, CloseVal(id), pr.handles - multiset{id})
    case CloseAsleep(id) =>
      if !Exists(s, id) then Died(s, p) else Semop(s, p, 1, 1, CloseVal(id), pr.handles - multiset{id})
    case CloseVal(id) =>
      if !Exists(s, id) || s.cur.value.v1 > BIGCOUNT then Died(s, p)
      else if s.cur.value.v1 == BIGCOUNT then At(s, p, CloseRm(id))
      else At(s, p, CloseUnlock(id))
    case CloseRm(id) =>
      if !Exists(s, id) then Died(s, p) else At(Removed(s), p, Idle)
    case CloseUnlock(id) =>
      if !Exists(s, id) then Died(s, p) else Semop(s, p, 0, -1, Idle, pr.handles)
    case Idle => s
    case Dead => s
  }

  function Next(s: State, p: nat, a: Action): State
    requires Enabled(s, p, a)
  {
    match a
    case Create(init) => s.(procs := s.procs[p := s.procs[p].(pc := CreateGet, arg := init)])
    case Open => At(s, p, OpenGet)
    case Close(id) => At(s, p, CloseLock(id))
    case Remove(id) => if Exists(s, id) then Removed(s) else Died(s, p)
    case Die => Died(s, p)
    case Go => After(s, p)
  }

  // ----- the invariant -----

  /** Between taking [2] and giving it back. */
  predicate Inside(pc: Pc, id: nat) {
    match pc
    case CreateVal(i) => i == id
    case CreateSet0(i) => i == id
    case CreateSet1(i) => i == id
    case CreateEnd(i) => i == id
    case CloseVal(i) => i == id
    case CloseRm(i) => i == id
    case CloseUnlock(i) => i == id
    case _ => false
  }

  /** The sum of all undo values for [1], which is the number of opens outstanding. */
  function Opens(procs: seq<Proc>): int {
    if procs == [] then 0 else procs[0].adj1 + Opens(procs[1..])
  }

  /** The sum of all undo values for [2]. */
  function Undo2(procs: seq<Proc>): int {
    if procs == [] then 0 else procs[0].adj2 + Undo2(procs[1..])
  }

  predicate HasId(pc: Pc) { !pc.Idle? && !pc.Dead? && !pc.CreateGet? && !pc.OpenGet? }

  /** The identifier a process is working with. */
  predicate Names(pc: Pc, id: nat) { HasId(pc) && pc.id == id }

  /** The value of [1] that the process has read, or the initialisation it has done, still counts. */
  predicate Phase(pc: Pc, ready: bool) {
    && (pc.CreateSet0? || pc.CreateSet1? ==> !ready)
    && (pc.CreateEnd? || pc.CloseVal? || pc.CloseRm? || pc.CloseUnlock? ==> ready)
  }

  predicate ProcOk(cur: Option<SemSet>, unused: nat, pr: Proc) {
    && (forall id :: id in pr.handles ==> id < unused)
    && (HasId(pr.pc) ==> pr.pc.id < unused)
    && (pr.pc.Dead? ==> pr.handles == multiset{})
    && (pr.pc.CloseLock? || pr.pc.CloseAsleep? ==> pr.pc.id in pr.handles)
    && (if cur.None? then pr.adj1 == 0 && pr.adj2 == 0
        else
          && pr.adj1 == pr.handles[cur.value.id]
          && pr.adj2 == (if Inside(pr.pc, cur.value.id) then -1 else 0)
          && (!cur.value.ready ==> pr.handles[cur.value.id] == 0)
          && (Names(pr.pc, cur.value.id) ==>
                (Phase(pr.pc, cur.value.ready) && (pr.pc.CreateSet1? ==> cur.value.v0 == pr.arg))))
  }

  predicate SetOk(g: SemSet, unused: nat, procs: seq<Proc>) {
    && g.id < unused
    && 0 <= g.v2 <= 1 && g.v2 + Undo2(procs) == 0
    && g.v1 >= 0 && g.v1 + Opens(procs) == if g.ready then BIGCOUNT else 0
  }

  predicate Inv(s: State) {
    && (s.cur.Some? ==> SetOk(s.cur.value, s.unused, s.procs))
    && forall p :: 0 <= p < |s.procs| ==> ProcOk(s.cur, s.unused, s.procs[p])
  }

  // ----- sums -----

  lemma {:induction false} SumsPut(procs: seq<Proc>, p: nat, pr: Proc)
    requires p < |procs|
    ensures Opens(procs[p := pr]) == Opens(procs) - procs[p].adj1 + pr.adj1
    ensures Undo2(procs[p := pr]) == Undo2(procs) - procs[p].adj2 + pr.adj2
  {
    var procs' := procs[p := pr];
    if p == 0 {
      assert procs'[1..] == procs[1..];
    } else {
      assert procs'[1..] == procs[1..][p - 1 := pr];
      SumsPut(procs[1..], p - 1, pr);
    }
  }

  /** Undo values of [1] are never negative, those of [2] never positive. */
  predicate Signs(procs: seq<Proc>) { forall p :: 0 <= p < |procs| ==> procs[p].adj1 >= 0 && -1 <= procs[p].adj2 <= 0 }

  lemma {:induction false} SumsBound(procs: seq<Proc>, p: nat)
    requires p < |procs| && Signs(procs)
    ensures 0 <= procs[p].adj1 <= Opens(procs) && Undo2(procs) <= procs[p].adj2
  {
    SumsSign(procs[1..]);
    if p > 0 { SumsBound(procs[1..], p - 1); }
  }

  lemma {:induction false} SumsSign(procs: seq<Proc>)
    requires Signs(procs)
    ensures Opens(procs) >= 0 && Undo2(procs) <= 0
  {
    if procs != [] { SumsSign(procs[1..]); }
  }

  lemma {:induction false} SumsBoundTwo(procs: seq<Proc>, p: nat, q: nat)
    requires p < q < |procs| && Signs(procs)
    ensures Undo2(procs) <= procs[p].adj2 + procs[q].adj2
  {
    if p > 0 { SumsBoundTwo(procs[1..], p - 1, q - 1); } else { SumsBound(procs[1..], q - 1); }
  }

  lemma {:induction false} SumsZero(procs: seq<Proc>)
    ensures (forall p :: 0 <= p < |procs| ==> procs[p].adj1 == 0) ==> Opens(procs) == 0
    ensures (forall p :: 0 <= p < |procs| ==> procs[p].adj2 == 0) ==> Undo2(procs) == 0
  {
    if procs != [] {
      SumsZero(procs[1..]);
    }
  }

  lemma SignsOf(s: State)
    requires Inv(s)
    ensures Signs(s.procs)
  {
  }

  /** At most one process is inside. */
  lemma OneInside(s: State, p: nat, q: nat)
    requires Inv(s) && s.cur.Some? && p < |s.procs| && q < |s.procs|
    requires Inside(s.procs[p].pc, s.cur.value.id) && Inside(s.procs[q].pc, s.cur.value.id)
    ensures p == q
  {
    SignsOf(s);
    if p < q { SumsBoundTwo(s.procs, p, q); } else if q < p { SumsBoundTwo(s.procs, q, p); }
  }

  // ----- steps -----

  /** A step that changes the set's members and one process. */
  lemma Conclude(s: State, p: nat, g: SemSet, pr: Proc, s': State)
    requires Inv(s) && p < |s.procs| && s.cur.Some? && g.id == s.cur.value.id
    requires s' == s.(cur := Some(g), procs := s.procs[p := pr])
    requires g.ready == s.cur.value.ready
             || (g.ready && Inside(s.procs[p].pc, g.id) && !Names(pr.pc, g.id) == !Names(s.procs[p].pc, g.id))
    requires g.v0 == s.cur.value.v0 || Inside(s.procs[p].pc, g.id)
    requires ProcOk(s'.cur, s'.unused, pr)
    requires 0 <= g.v2 <= 1 && g.v2 - s.cur.value.v2 == s.procs[p].adj2 - pr.adj2
    requires g.v1 >= 0
    requires g.ready == s.cur.value.ready ==> g.v1 - s.cur.value.v1 == s.procs[p].adj1 - pr.adj1
    requires g.ready != s.cur.value.ready ==> g.v1 == BIGCOUNT && s.procs[p].adj1 == pr.adj1
    ensures Inv(s')
  {
    SumsPut(s.procs, p, pr);
    var id := g.id;
    forall q | 0 <= q < |s.procs| && q != p ensures ProcOk(s'.cur, s'.unused, s.procs[q]) {
      assert ProcOk(s.cur, s.unused, s.procs[q]);
      if (g.ready != s.cur.value.ready || g.v0 != s.cur.value.v0) && Inside(s.procs[q].pc, id) { OneInside(s, p, q); }
    }
    if g.ready != s.cur.value.ready { NoOpens(s); }
  }

  lemma NoOpens(s: State)
    requires Inv(s) && s.cur.Some? && !s.cur.value.ready
    ensures Opens(s.procs) == 0 && forall p :: 0 <= p < |s.procs| ==> s.procs[p].adj1 == 0
  {
    SumsZero(s.procs);
  }

  /** A step that only moves one process on. */
  lemma ConcludePc(s: State, p: nat, pc: Pc)
    requires Inv(s) && p < |s.procs| && ProcOk(s.cur, s.unused, s.procs[p].(pc := pc))
    ensures Inv(At(s, p, pc))
  {
    SumsPut(s.procs, p, s.procs[p].(pc := pc));
  }

  /** Undo at exit is exact: it never runs into the kernel's bounds. */
  lemma UndoIsExact(s: State, p: nat)
    requires Inv(s) && s.cur.Some? && p < |s.procs|
    ensures var g, pr := s.cur.value, s.procs[p];
            Clamp(g.v1 + pr.adj1) == g.v1 + pr.adj1 && Clamp(g.v2 + pr.adj2) == g.v2 + pr.adj2
  {
    SignsOf(s);
    SumsBound(s.procs, p);
  }

  /** A process may end anywhere: its opens are given back and its lock is released. */
  lemma DiedKeepsInv(s: State, p: nat)
    requires Inv(s) && p < |s.procs|
    ensures Inv(Died(s, p))
  {
    hide Clamp, Opens, Undo2;
    SumsPut(s.procs, p, Proc(Dead, 0, multiset{}, 0, 0));
    if s.cur.Some? {
      UndoIsExact(s, p);
      SignsOf(s);
      SumsBound(s.procs, p);
    }
  }

  lemma RemovedKeepsInv(s: State)
    requires Inv(s)
    ensures Inv(Removed(s))
  {
    var s' := Removed(s);
    forall p | 0 <= p < |s'.procs| ensures ProcOk(s'.cur, s'.unused, s'.procs[p]) {
      assert ProcOk(s.cur, s.unused, s.procs[p]);
    }
  }

  /** The first semget with IPC_CREAT makes a set nobody knows of, all members 0. */
  lemma NewKeepsInv(s: State, p: nat)
    requires Inv(s) && p < |s.procs| && s.cur.None? && s.procs[p].pc == CreateGet
    ensures Inv(After(s, p))
  {
    var s' := After(s, p);
    forall q | 0 <= q < |s'.procs| ensures ProcOk(s'.cur, s'.unused, s'.procs[q]) {
      assert ProcOk(s.cur, s.unused, s.procs[q]);
    }
    SumsZero(s'.procs);
  }

  /** Initialising [1]: nobody has the set open, so no undo value is lost. */
  lemma SetVal1KeepsInv(s: State, p: nat, id: nat)
    requires Inv(s) && p < |s.procs| && s.procs[p].pc == CreateSet1(id) && Exists(s, id)
    ensures Inv(After(s, p))
  {
    assert ProcOk(s.cur, s.unused, s.procs[p]);
    NoOpens(s);
    assert SetVal1(s).procs == s.procs;
    Conclude(s, p, s.cur.value.(v1 := BIGCOUNT, ready := true), s.procs[p].(pc := CreateEnd(id)), After(s, p));
  }

  /** An initialised set has [1] at 0 exactly when BIGCOUNT opens are outstanding. */
  lemma CounterIsZero(s: State)
    requires Inv(s) && s.cur.Some? && s.cur.value.ready
    ensures s.cur.value.v1 == 0 <==> Opens(s.procs) == BIGCOUNT
    ensures s.cur.value.v1 == BIGCOUNT <==> forall p :: 0 <= p < |s.procs| ==> s.cur.value.id !in s.procs[p].handles
  {
    SignsOf(s);
    SumsZero(s.procs);
    if Opens(s.procs) == 0 {
      forall p | 0 <= p < |s.procs| ensures s.cur.value.id !in s.procs[p].handles { SumsBound(s.procs, p); }
    }
  }

  lemma SemopKeepsInv(s: State, p: nat, d1: int, d2: int, pc: Pc, handles: multiset<nat>)
    requires Inv(s) && p < |s.procs| && s.cur.Some?
    requires s.cur.value.v1 + d1 >= 0 && 0 <= s.cur.value.v2 + d2 <= 1
    requires ProcOk(s.cur, s.unused, Proc(pc, s.procs[p].arg, handles, s.procs[p].adj1 - d1, s.procs[p].adj2 - d2))
    ensures Inv(Semop(s, p, d1, d2, pc, handles))
  {
    var pr := s.procs[p];
    Conclude(s, p, s.cur.value.(v1 := s.cur.value.v1 + d1, v2 := s.cur.value.v2 + d2),
             Proc(pc, pr.arg, handles, pr.adj1 - d1, pr.adj2 - d2), Semop(s, p, d1, d2, pc, handles));
  }

  /** Creation, as long as fewer than BIGCOUNT opens are outstanding. */
  lemma CreateKeepsInv(s: State, p: nat)
    requires Inv(s) && Enabled(s, p, Go) && Opens(s.procs) < BIGCOUNT
    requires var pc := s.procs[p].pc;
             pc.CreateGet? || pc.CreateLock? || pc.CreateAsleep? || pc.CreateVal? || pc.CreateSet0? || pc.CreateSet1?
             || pc.CreateEnd?
    ensures Inv(After(s, p))
  {
    var pr := s.procs[p];
    assert ProcOk(s.cur, s.unused, pr);
    if pr.pc.CreateGet? {
      if s.cur.None? { NewKeepsInv(s, p); } else { ConcludePc(s, p, CreateLock(s.cur.value.id)); }
    } else if !Exists(s, pr.pc.id) {
      if pr.pc.CreateLock? { ConcludePc(s, p, CreateGet); } else { DiedKeepsInv(s, p); }
    } else if pr.pc.CreateLock? && s.cur.value.v2 != 0 {
      ConcludePc(s, p, CreateAsleep(pr.pc.id));
    } else if pr.pc.CreateLock? || pr.pc.CreateAsleep? {
      SemopKeepsInv(s, p, 0, 1, CreateVal(pr.pc.id), pr.handles);
    } else if pr.pc.CreateVal? {
      if s.cur.value.ready { CounterIsZero(s); } else { NoOpens(s); }
      ConcludePc(s, p, if s.cur.value.v1 == 0 then CreateSet0(pr.pc.id) else CreateEnd(pr.pc.id));
    } else if pr.pc.CreateSet0? {
      Conclude(s, p, s.cur.value.(v0 := pr.arg), pr.(pc := CreateSet1(pr.pc.id)), After(s, p));
    } else if pr.pc.CreateSet1? {
      SetVal1KeepsInv(s, p, pr.pc.id);
    } else {
      SemopKeepsInv(s, p, -1, -1, Idle, pr.handles + multiset{pr.pc.id});
    }
  }

  lemma OpenKeepsInv(s: State, p: nat)
    requires Inv(s) && Enabled(s, p, Go)
    requires var pc := s.procs[p].pc; pc.OpenGet? || pc.OpenDec? || pc.OpenAsleep?
    ensures Inv(After(s, p))
  {
    var pr := s.procs[p];
    assert ProcOk(s.cur, s.unused, pr);
    if pr.pc.OpenGet? {
      ConcludePc(s, p, if s.cur.None? then Idle else OpenDec(s.cur.value.id));
    } else if !Exists(s, pr.pc.id) {
      DiedKeepsInv(s, p);
    } else if s.cur.value.v1 < 1 {
      ConcludePc(s, p, OpenAsleep(pr.pc.id));
    } else {
      if !s.cur.value.ready { NoOpens(s); }
      SemopKeepsInv(s, p, -1, 0, Idle, pr.handles + multiset{pr.pc.id});
    }
  }

  lemma CloseKeepsInv(s: State, p: nat)
    requires Inv(s) && Enabled(s, p, Go)
    requires var pc := s.procs[p].pc;
             pc.CloseLock? || pc.CloseAsleep? || pc.CloseVal? || pc.CloseRm? || pc.CloseUnlock?
    ensures Inv(After(s, p))
  {
    var pr := s.procs[p];
    assert ProcOk(s.cur, s.unused, pr);
    if !Exists(s, pr.pc.id) {
      DiedKeepsInv(s, p);
    } else if pr.pc.CloseLock? && s.cur.value.v2 != 0 {
      ConcludePc(s, p, CloseAsleep(pr.pc.id));
    } else if pr.pc.CloseLock? || pr.pc.CloseAsleep? {
      SemopKeepsInv(s, p, 1, 1, CloseVal(pr.pc.id), pr.handles - multiset{pr.pc.id});
    } else if pr.pc.CloseVal? {
      SignsOf(s);
      SumsBound(s.procs, p);
      ConcludePc(s, p, if s.cur.value.v1 == BIGCOUNT then CloseRm(pr.pc.id) else CloseUnlock(pr.pc.id));
    } else if pr.pc.CloseRm? {
      RemovedKeepsInv(s);
      assert ProcOk(None, s.unused, Removed(s).procs[p].(pc := Idle));
      ConcludePc(Removed(s), p, Idle);
    } else {
      SemopKeepsInv(s, p, 0, -1, Idle, pr.handles);
    }
  }

  /** Every step of every process, its death included, keeps the invariant. */
  lemma StepKeepsInv(s: State, p: nat, a: Action)
    requires Inv(s) && Enabled(s, p, a) && Opens(s.procs) < BIGCOUNT
    ensures Inv(Next(s, p, a))
  {
    hide Opens, Clamp, Inside, Phase, After, Died, Removed;
    var pr := s.procs[p];
    assert ProcOk(s.cur, s.unused, pr);
    match a {
      case Create(init) => BeginKeepsInv(s, p, CreateGet, init);
      case Open => BeginKeepsInv(s, p, OpenGet, pr.arg);
      case Close(id) => BeginKeepsInv(s, p, CloseLock(id), pr.arg);
      case Remove(id) => if Exists(s, id) { RemovedKeepsInv(s); } else { DiedKeepsInv(s, p); }
      case Die => DiedKeepsInv(s, p);
      case Go =>
        if pr.pc.OpenGet? || pr.pc.OpenDec? || pr.pc.OpenAsleep? { OpenKeepsInv(s, p); }
        else if pr.pc.CloseLock? || pr.pc.CloseAsleep? || pr.pc.CloseVal? || pr.pc.CloseRm? || pr.pc.CloseUnlock? {
          CloseKeepsInv(s, p);
        } else { CreateKeepsInv(s, p); }
    }
  }

  lemma BeginKeepsInv(s: State, p: nat, pc: Pc, arg: int)
    requires Inv(s) && p < |s.procs| && s.procs[p].pc.Idle?
    requires pc.CreateGet? || pc.OpenGet? || (pc.CloseLock? && pc.id in s.procs[p].handles)
    ensures Inv(s.(procs := s.procs[p := s.procs[p].(pc := pc, arg := arg)]))
  {
    assert ProcOk(s.cur, s.unused, s.procs[p]);
    SumsPut(s.procs, p, s.procs[p].(pc := pc, arg := arg));
  }

  // ----- what the invariant says -----

  /**
   * Member [1] and the undo values of all processes together are BIGCOUNT once [1] is initialised;
   * member [2] is 0 or 1, and is 1 exactly while one process is inside create or close.
   */
  lemma Conserved(s: State)
    requires Inv(s) && s.cur.Some?
    ensures s.cur.value.ready ==> s.cur.value.v1 + Opens(s.procs) == BIGCOUNT
    ensures s.cur.value.v2 == 0 || s.cur.value.v2 == 1
    ensures s.cur.value.v2 == 1 <==> exists p :: 0 <= p < |s.procs| && Inside(s.procs[p].pc, s.cur.value.id)
    ensures forall p, q :: (0 <= p < |s.procs| && 0 <= q < |s.procs|
                            && Inside(s.procs[p].pc, s.cur.value.id)
                            && Inside(s.procs[q].pc, s.cur.value.id)) ==> p == q
  {
    var id := s.cur.value.id;
    forall p, q | 0 <= p < |s.procs| && 0 <= q < |s.procs| && Inside(s.procs[p].pc, id) && Inside(s.procs[q].pc, id)
      ensures p == q
    {
      OneInside(s, p, q);
    }
    SumsZero(s.procs);
    SignsOf(s);
    forall p | 0 <= p < |s.procs| && Inside(s.procs[p].pc, id) ensures s.cur.value.v2 == 1 { SumsBound(s.procs, p); }
    if s.cur.value.v2 == 1 {
      var p :| 0 <= p < |s.procs| && s.procs[p].adj2 != 0;
      assert Inside(s.procs[p].pc, id);
    }
  }

  /** The step that initialises [1] leaves in [0] the value that its process passed to sem_create. */
  lemma InitialValue(s: State, p: nat, a: Action)
    requires Inv(s) && Enabled(s, p, a) && Opens(s.procs) < BIGCOUNT && s.cur.Some? && !s.cur.value.ready
    ensures var s' := Next(s, p, a);
            Exists(s', s.cur.value.id) && s'.cur.value.ready ==> s'.cur.value.v0 == s.procs[p].arg && a == Go
  {
    hide Opens, Undo2, Clamp;
    assert ProcOk(s.cur, s.unused, s.procs[p]);
  }

  /** What a process passed to sem_create stays so until it calls it again. */
  lemma ArgumentIsKept(s: State, p: nat, a: Action, q: nat)
    requires Enabled(s, p, a) && q < |s.procs| && !s.procs[q].pc.Dead?
    ensures q < |Next(s, p, a).procs|
    ensures var pr' := Next(s, p, a).procs[q];
            pr'.pc.Dead? || pr'.arg == if q == p && a.Create? then a.init else s.procs[q].arg
  {
    hide Clamp;
  }

  /** Once [1] is initialised, no later sem_create of the same set writes [0]. */
  lemma ValueIsKept(s: State, p: nat, a: Action)
    requires Inv(s) && Enabled(s, p, a) && s.cur.Some? && s.cur.value.ready
    ensures var s' := Next(s, p, a);
            Exists(s', s.cur.value.id) ==> s'.cur.value.ready && s'.cur.value.v0 == s.cur.value.v0
  {
    hide Opens, Undo2, Clamp;
    assert ProcOk(s.cur, s.unused, s.procs[p]);
  }

  // ----- progress -----

  /**
   * As long as some process is inside a call, some process can go on; only a sem_open
   * that waits for a set nobody has initialised is excepted.
   */
  lemma SomeoneCanGo(s: State, p: nat) returns (q: nat)
    requires Inv(s) && Opens(s.procs) < BIGCOUNT && p < |s.procs|
    requires !s.procs[p].pc.Idle? && !s.procs[p].pc.Dead?
    requires s.procs[p].pc.OpenAsleep? && Exists(s, s.procs[p].pc.id) ==> s.cur.value.ready
    ensures Enabled(s, q, Go)
  {
    assert ProcOk(s.cur, s.unused, s.procs[p]);
    q := p;
    if Blocked(s, s.procs[p].pc) {
      Conserved(s);
      if s.procs[p].pc.CreateAsleep? || s.procs[p].pc.CloseAsleep? {
        q :| 0 <= q < |s.procs| && Inside(s.procs[q].pc, s.cur.value.id);
        assert ProcOk(s.cur, s.unused, s.procs[q]);
      }
    }
  }

  // ----- runs -----

  predicate Init(s: State) {
    s.cur.None? && forall p :: 0 <= p < |s.procs| ==> s.procs[p] == Proc(Idle, 0, multiset{}, 0, 0)
  }

  type Trace = seq<(nat, Action)>

  /** A run in which fewer than BIGCOUNT opens are outstanding at every moment. */
  predicate Runs(s: State, tr: Trace)
    decreases |tr|
  {
    && Opens(s.procs) < BIGCOUNT
    && (tr == [] || (Enabled(s, tr[0].0, tr[0].1) && Runs(Next(s, tr[0].0, tr[0].1), tr[1..])))
  }

  function Last(s: State, tr: Trace): State
    requires Runs(s, tr)
    decreases |tr|
  {
    if tr == [] then s else Last(Next(s, tr[0].0, tr[0].1), tr[1..])
  }

  /** The invariant holds at the end of every run, wherever and whenever processes die. */
  lemma {:induction false} RunsKeepInv(s: State, tr: Trace)
    requires Inv(s) && Runs(s, tr)
    ensures Inv(Last(s, tr))
    decreases |tr|
  {
    hide Inv, Enabled, Next, Opens;
    if tr != [] {
      StepKeepsInv(s, tr[0].0, tr[0].1);
      RunsKeepInv(Next(s, tr[0].0, tr[0].1), tr[1..]);
    }
  }

  predicate InOpen(pc: Pc) { pc.OpenGet? || pc.OpenDec? || pc.OpenAsleep? }

  /** Nobody uses sem_open, and a set about to be removed by sem_close is open to nobody. */
  predicate OnlyUnusedRemoved(s: State) {
    && (forall p :: 0 <= p < |s.procs| ==> !InOpen(s.procs[p].pc))
    && (forall p :: 0 <= p < |s.procs| && s.procs[p].pc.CloseRm? && Exists(s, s.procs[p].pc.id) ==> Opens(s.procs) == 0)
  }

  /** What p does while q is about to remove the set leaves the number of opens at 0. */
  lemma NoneOpensMeanwhile(s: State, p: nat, q: nat, a: Action)
    requires Inv(s) && Enabled(s, p, a) && a != Open && OnlyUnusedRemoved(s)
    requires q < |s.procs| && p != q && s.procs[q].pc.CloseRm? && Exists(s, s.procs[q].pc.id)
    ensures var s' := Next(s, p, a); Exists(s', s.cur.value.id) ==> Opens(s'.procs) == 0
  {
    hide Opens, Undo2, Clamp;
    var pr, id := s.procs[p], s.cur.value.id;
    assert ProcOk(s.cur, s.unused, pr) && ProcOk(s.cur, s.unused, s.procs[q]);
    if Inside(pr.pc, id) { OneInside(s, p, q); }
    Conserved(s);
    SignsOf(s);
    SumsBound(s.procs, p);
    var s' := Next(s, p, a);
    assert Exists(s', id) ==> s'.procs == s.procs[p := s'.procs[p]] && s'.procs[p].adj1 == 0;
    if Exists(s', id) { SumsPut(s.procs, p, s'.procs[p]); }
  }

  lemma RemovalStaysSafe(s: State, p: nat, a: Action)
    requires Inv(s) && Enabled(s, p, a) && a != Open && OnlyUnusedRemoved(s) && Opens(s.procs) < BIGCOUNT
    ensures OnlyUnusedRemoved(Next(s, p, a))
  {
    var s' := Next(s, p, a);
    assert ProcOk(s.cur, s.unused, s.procs[p]);
    OthersStay(s, p, a);
    forall q | 0 <= q < |s'.procs| && s'.procs[q].pc.CloseRm? && Exists(s', s'.procs[q].pc.id)
      ensures Opens(s'.procs) == 0
    {
      assert ProcOk(s.cur, s.unused, s.procs[q]);
      if q != p {
        SameSet(s, p, a, s.procs[q].pc.id);
        NoneOpensMeanwhile(s, p, q, a);
      } else {
        RmComesFromVal(s, p, a);
        SumsPut(s.procs, p, s.procs[p].(pc := s'.procs[p].pc));
      }
    }
  }

  /** The step moves no process but p, and p not into sem_open. */
  predicate MovesOnly(s: State, p: nat, s': State) {
    && p < |s.procs| == |s'.procs| && !InOpen(s'.procs[p].pc)
    && forall q :: 0 <= q < |s.procs| && q != p ==> s'.procs[q].pc == s.procs[q].pc
  }

  lemma OthersStay(s: State, p: nat, a: Action)
    requires Enabled(s, p, a) && a != Open && !InOpen(s.procs[p].pc)
    ensures MovesOnly(s, p, Next(s, p, a))
  {
    hide Clamp, After;
    if a == Go {
      var pc := s.procs[p].pc;
      if pc.CloseLock? || pc.CloseAsleep? || pc.CloseVal? || pc.CloseRm? || pc.CloseUnlock? {
        CloseStays(s, p);
      } else {
        CreateStays(s, p);
      }
    }
  }

  lemma DiedMoves(s: State, p: nat)
    requires p < |s.procs|
    ensures MovesOnly(s, p, Died(s, p))
  {
    hide Clamp;
  }

  lemma CloseStays(s: State, p: nat)
    requires p < |s.procs|
    requires var pc := s.procs[p].pc; pc.CloseLock? || pc.CloseAsleep? || pc.CloseVal? || pc.CloseRm? || pc.CloseUnlock?
    ensures MovesOnly(s, p, After(s, p))
  {
    hide Died;
    DiedMoves(s, p);
    var pc := s.procs[p].pc;
    if pc.CloseRm? && Exists(s, pc.id) {
      assert After(s, p) == At(Removed(s), p, Idle);
      hide After;
    } else {
      hide Removed;
    }
  }

  lemma CreateStays(s: State, p: nat)
    requires p < |s.procs|
    requires var pc := s.procs[p].pc;
             !InOpen(pc) && !pc.CloseLock? && !pc.CloseAsleep? && !pc.CloseVal? && !pc.CloseRm? && !pc.CloseUnlock?
    ensures MovesOnly(s, p, After(s, p))
  {
    hide Died, Removed;
    DiedMoves(s, p);
    var pc := s.procs[p].pc;
    if pc.CreateSet1? && Exists(s, pc.id) {
      assert After(s, p) == At(SetVal1(s), p, CreateEnd(pc.id));
      hide After;
    } else {
      hide SetVal1;
    }
  }

  /** Identifiers are never given out twice. */
  lemma SameSet(s: State, p: nat, a: Action, id: nat)
    requires Enabled(s, p, a) && id < s.unused && Exists(Next(s, p, a), id)
    ensures Exists(s, id)
  {
    hide Clamp;
  }

  lemma RmComesFromVal(s: State, p: nat, a: Action)
    requires Enabled(s, p, a) && Inv(s) && Next(s, p, a).procs[p].pc.CloseRm?
    ensures Next(s, p, a) == At(s, p, Next(s, p, a).procs[p].pc) && Opens(s.procs) == 0
  {
    hide Clamp, Opens;
    assert ProcOk(s.cur, s.unused, s.procs[p]);
  }

  predicate NoOpenIn(tr: Trace) { forall i :: 0 <= i < |tr| ==> tr[i].1 != Open }

  /**
   * When all openers use sem_create: at every moment of every run, a set that sem_close
   * is about to remove is open to no process at all.
   */
  lemma {:induction false} CloseIsSafe(s: State, tr: Trace)
    requires Inv(s) && OnlyUnusedRemoved(s) && Runs(s, tr) && NoOpenIn(tr)
    ensures Inv(Last(s, tr)) && OnlyUnusedRemoved(Last(s, tr))
    decreases |tr|
  {
    hide Inv, Enabled, Next, Opens, OnlyUnusedRemoved;
    if tr != [] {
      var s' := Next(s, tr[0].0, tr[0].1);
      StepKeepsInv(s, tr[0].0, tr[0].1);
      RemovalStaysSafe(s, tr[0].0, tr[0].1);
      assert NoOpenIn(tr[1..]) by { assert forall i :: 0 <= i < |tr[1..]| ==> tr[1..][i] == tr[i + 1]; }
      CloseIsSafe(s', tr[1..]);
    }
  }

  lemma InitIsGood(s: State)
    requires Init(s)
    ensures Inv(s) && OnlyUnusedRemoved(s) && HandlesExist(s) && Opens(s.procs) == 0
  {
    SumsZero(s.procs);
  }

  // ----- the value of [0] -----

  /** The initial values passed to sem_create in a run. */
  function Passed(tr: Trace): set<int> {
    if tr == [] then {} else PassedNow(tr[0].1) + Passed(tr[1..])
  }

  function PassedNow(a: Action): set<int> { if a.Create? then {a.init} else {} }

  /** What creators are about to set, and what an initialised set holds, is among these values. */
  predicate Among(s: State, values: set<int>) {
    && (forall p :: 0 <= p < |s.procs| && InCreate(s.procs[p].pc) ==> s.procs[p].arg in values)
    && (s.cur.Some? && s.cur.value.ready ==> s.cur.value.v0 in values)
  }

  lemma AmongStays(s: State, p: nat, a: Action, values: set<int>)
    requires Inv(s) && Opens(s.procs) < BIGCOUNT && Enabled(s, p, a) && Among(s, values)
    ensures Among(Next(s, p, a), values + PassedNow(a))
  {
    hide Opens, Inv, Clamp;
    var s' := Next(s, p, a);
    if s'.cur.Some? && s'.cur.value.ready { ReadyComes(s, p, a); }
    if s.cur.Some? && s.cur.value.ready { ValueIsKept(s, p, a); }
    if s.cur.Some? && !s.cur.value.ready { InitialValue(s, p, a); }
    hide Next, Enabled;
    forall q | 0 <= q < |s'.procs| && InCreate(s'.procs[q].pc) ensures s'.procs[q].arg in values + PassedNow(a) {
      CreatesMove(s, p, a, q);
    }
  }

  /** Who is in sem_create was so before with the same argument, or has just called it. */
  lemma CreatesMove(s: State, p: nat, a: Action, q: nat)
    requires Enabled(s, p, a) && q < |Next(s, p, a).procs| && InCreate(Next(s, p, a).procs[q].pc)
    ensures q < |s.procs|
    ensures if a.Create? && q == p then Next(s, p, a).procs[q].arg == a.init
            else InCreate(s.procs[q].pc) && Next(s, p, a).procs[q].arg == s.procs[q].arg
  {
    hide Next, Enabled;
    OthersKeepPc(s, p, a);
    if q == p { CreateGoesOn(s, p, a); }
    ArgumentIsKept(s, p, a, q);
  }

  lemma CreateGoesOn(s: State, p: nat, a: Action)
    requires Enabled(s, p, a) && p < |Next(s, p, a).procs| && InCreate(Next(s, p, a).procs[p].pc)
    ensures p < |s.procs| && !s.procs[p].pc.Dead? && (a.Create? || InCreate(s.procs[p].pc))
  {
    hide Clamp;
  }

  /**
   * A set that is initialised after a step was there before it, and its process in sem_create if
   * it was not initialised.
   */
  lemma ReadyComes(s: State, p: nat, a: Action)
    requires Enabled(s, p, a) && Next(s, p, a).cur.Some? && Next(s, p, a).cur.value.ready
    ensures s.cur.Some? && Exists(Next(s, p, a), s.cur.value.id)
    ensures !s.cur.value.ready ==> InCreate(s.procs[p].pc)
  {
    hide Clamp;
  }

  lemma {:induction false} AmongInRuns(s: State, tr: Trace, values: set<int>)
    requires Inv(s) && Runs(s, tr) && Among(s, values)
    ensures Among(Last(s, tr), values + Passed(tr))
    decreases |tr|
  {
    hide Inv, Enabled, Next, Opens, Among;
    if tr != [] {
      var s' := Next(s, tr[0].0, tr[0].1);
      StepKeepsInv(s, tr[0].0, tr[0].1);
      AmongStays(s, tr[0].0, tr[0].1, values);
      AmongInRuns(s', tr[1..], values + PassedNow(tr[0].1));
      assert values + Passed(tr) == values + PassedNow(tr[0].1) + Passed(tr[1..]);
    } else {
      assert values + Passed(tr) == values;
    }
  }

  /** The value in [0] of an initialised set is one that some sem_create of the run was called with. */
  lemma ValueWasPassed(s: State, tr: Trace)
    requires Init(s) && Runs(s, tr) && Last(s, tr).cur.Some? && Last(s, tr).cur.value.ready
    ensures Last(s, tr).cur.value.v0 in Passed(tr)
  {
    hide Opens, Inv;
    InitIsGood(s);
    AmongInRuns(s, tr, {});
    assert {} + Passed(tr) == Passed(tr);
  }

  // ----- when a call fails -----

  predicate InCreate(pc: Pc) {
    pc.CreateGet? || pc.CreateLock? || pc.CreateAsleep? || pc.CreateVal? || pc.CreateSet0? || pc.CreateSet1?
    || pc.CreateEnd?
  }

  /** The set does not vanish under a process that has its lock. */
  predicate InsideExists(s: State) {
    forall p :: 0 <= p < |s.procs| ==> LockedExists(s, s.procs[p].pc)
  }

  predicate LockedExists(s: State, pc: Pc) { HasId(pc) && Inside(pc, pc.id) ==> Exists(s, pc.id) }

  lemma InsideStays(s: State, p: nat, a: Action)
    requires Inv(s) && InsideExists(s) && Enabled(s, p, a) && !a.Remove?
    ensures InsideExists(Next(s, p, a))
  {
    hide Opens, Undo2, Clamp;
    var s' := Next(s, p, a);
    assert ProcOk(s.cur, s.unused, s.procs[p]) && LockedExists(s, s.procs[p].pc);
    OthersKeepPc(s, p, a);
    StaysLocked(s, p, a);
    hide Next;
    forall q | 0 <= q < |s'.procs| ensures LockedExists(s', s'.procs[q].pc) {
      if q != p && HasId(s.procs[q].pc) && Inside(s.procs[q].pc, s.procs[q].pc.id) {
        assert LockedExists(s, s.procs[q].pc);
        if s.procs[p].pc.CloseRm? && Exists(s, s.procs[p].pc.id) { OneInside(s, p, q); }
        SetStays(s, p, a);
      }
    }
  }

  /** A step moves no process but its own. */
  lemma OthersKeepPc(s: State, p: nat, a: Action)
    requires Enabled(s, p, a)
    ensures |Next(s, p, a).procs| == |s.procs|
    ensures forall q :: 0 <= q < |s.procs| && q != p ==> Next(s, p, a).procs[q].pc == s.procs[q].pc
  {
    hide Clamp, After;
    if a == Go {
      var pc := s.procs[p].pc;
      if pc.OpenGet? || pc.OpenDec? || pc.OpenAsleep? {
        OpenKeepsPcs(s, p);
      } else {
        OthersStay(s, p, a);
      }
    }
  }

  lemma OpenKeepsPcs(s: State, p: nat)
    requires p < |s.procs| && InOpen(s.procs[p].pc)
    ensures |After(s, p).procs| == |s.procs|
    ensures forall q :: 0 <= q < |s.procs| && q != p ==> After(s, p).procs[q].pc == s.procs[q].pc
  {
    hide Clamp;
  }

  /** Only sem_rm and the last step of sem_close remove the set. */
  lemma SetStays(s: State, p: nat, a: Action)
    requires Enabled(s, p, a) && !a.Remove? && s.cur.Some?
    requires s.procs[p].pc.CloseRm? && a == Go ==> !Exists(s, s.procs[p].pc.id)
    ensures Exists(Next(s, p, a), s.cur.value.id)
  {
    hide Clamp;
  }

  /** A process takes the lock of an existing set only, and keeps the set while it has the lock. */
  lemma StaysLocked(s: State, p: nat, a: Action)
    requires Enabled(s, p, a) && !a.Remove? && LockedExists(s, s.procs[p].pc)
    ensures p < |Next(s, p, a).procs| && LockedExists(Next(s, p, a), Next(s, p, a).procs[p].pc)
  {
    hide Clamp;
  }

  /** sem_create exits exactly when it sleeps in its first semop and the set has been removed. */
  lemma CreatorExits(s: State, q: nat)
    requires Inv(s) && InsideExists(s) && Enabled(s, q, Go) && InCreate(s.procs[q].pc)
    ensures q < |Next(s, q, Go).procs|
    ensures Next(s, q, Go).procs[q].pc.Dead? <==> s.procs[q].pc.CreateAsleep? && !Exists(s, s.procs[q].pc.id)
  {
    hide Opens, Undo2, Clamp;
    assert LockedExists(s, s.procs[q].pc);
  }

  predicate NoRemoveIn(tr: Trace) { forall i :: 0 <= i < |tr| ==> !tr[i].1.Remove? }

  lemma {:induction false} InsideExistsInRuns(s: State, tr: Trace)
    requires Inv(s) && InsideExists(s) && Runs(s, tr) && NoRemoveIn(tr)
    ensures Inv(Last(s, tr)) && InsideExists(Last(s, tr))
    decreases |tr|
  {
    hide Inv, Enabled, Next, Opens, InsideExists;
    if tr != [] {
      StepKeepsInv(s, tr[0].0, tr[0].1);
      InsideStays(s, tr[0].0, tr[0].1);
      assert NoRemoveIn(tr[1..]) by { assert forall i :: 0 <= i < |tr[1..]| ==> tr[1..][i] == tr[i + 1]; }
      InsideExistsInRuns(Next(s, tr[0].0, tr[0].1), tr[1..]);
    }
  }

  /**
   * At every moment of every run without sem_rm, whoever opens, closes and dies in it: the next
   * step of a sem_create makes its process exit if and only if it is asleep in its first semop
   * and the set it sleeps on has been removed.
   */
  lemma CreateExitsExactlyAsleep(s: State, tr: Trace, q: nat)
    requires Init(s) && Runs(s, tr) && NoRemoveIn(tr)
    requires Enabled(Last(s, tr), q, Go) && InCreate(Last(s, tr).procs[q].pc)
    ensures var s' := Last(s, tr);
            q < |Next(s', q, Go).procs|
            && (Next(s', q, Go).procs[q].pc.Dead? <==> s'.procs[q].pc.CreateAsleep? && !Exists(s', s'.procs[q].pc.id))
  {
    hide Opens, Inv, Next, Enabled, Last, Runs;
    InitIsGood(s);
    InsideExistsInRuns(s, tr);
    CreatorExits(Last(s, tr), q);
  }

  /** Whoever has a set open, or is inside it, works on the set that exists. */
  predicate HandlesExist(s: State) {
    InsideExists(s) && forall p, id :: 0 <= p < |s.procs| && id in s.procs[p].handles ==> Exists(s, id)
  }

  lemma HandlesStay(s: State, p: nat, a: Action)
    requires Inv(s) && HandlesExist(s) && OnlyUnusedRemoved(s) && Enabled(s, p, a) && !a.Remove? && a != Open
    ensures HandlesExist(Next(s, p, a))
  {
    hide Opens, Undo2, Clamp;
    InsideStays(s, p, a);
    var s' := Next(s, p, a);
    assert ProcOk(s.cur, s.unused, s.procs[p]);
    forall q, id | 0 <= q < |s'.procs| && id in s'.procs[q].handles ensures Exists(s', id) {
      HandlesGrow(s, p, a, q, id);
      assert Exists(s, id);
      if s.procs[p].pc.CloseRm? && a == Go && Exists(s, s.procs[p].pc.id) {
        NobodyHas(s, q);
      } else {
        SetStays(s, p, a);
      }
    }
  }

  /** A process gets a handle only for the set that exists. */
  lemma HandlesGrow(s: State, p: nat, a: Action, q: nat, id: nat)
    requires Enabled(s, p, a) && !a.Remove? && q < |Next(s, p, a).procs| && id in Next(s, p, a).procs[q].handles
    ensures q < |s.procs| && (id in s.procs[q].handles || (Exists(s, id) && Exists(Next(s, p, a), id)))
  {
    hide Clamp;
  }

  /**
   * When nobody uses sem_open or sem_rm: of all processes in any call, exactly a creator
   * asleep on a removed set exits.
   */
  lemma OnlySleepersExit(s: State, q: nat)
    requires Inv(s) && HandlesExist(s) && OnlyUnusedRemoved(s) && Enabled(s, q, Go)
    ensures q < |Next(s, q, Go).procs|
    ensures Next(s, q, Go).procs[q].pc.Dead? <==> s.procs[q].pc.CreateAsleep? && !Exists(s, s.procs[q].pc.id)
  {
    hide Opens, Undo2, Clamp;
    assert ProcOk(s.cur, s.unused, s.procs[q]) && LockedExists(s, s.procs[q].pc) && !InOpen(s.procs[q].pc);
    if s.cur.Some? && s.cur.value.ready { CounterIsZero(s); CounterIsBounded(s); }
  }

  lemma CounterIsBounded(s: State)
    requires Inv(s) && s.cur.Some? && s.cur.value.ready
    ensures s.cur.value.v1 <= BIGCOUNT
  {
    SignsOf(s);
    SumsSign(s.procs);
  }

  lemma {:induction false} SleepersExitOn(s: State, tr: Trace, q: nat)
    requires Inv(s) && HandlesExist(s) && OnlyUnusedRemoved(s) && Runs(s, tr) && NoOpenIn(tr) && NoRemoveIn(tr)
    requires Enabled(Last(s, tr), q, Go)
    ensures var s' := Last(s, tr);
            q < |Next(s', q, Go).procs|
            && (Next(s', q, Go).procs[q].pc.Dead? <==> s'.procs[q].pc.CreateAsleep? && !Exists(s', s'.procs[q].pc.id))
    decreases |tr|
  {
    hide Inv, Enabled, Next, Opens, HandlesExist, OnlyUnusedRemoved;
    if tr != [] {
      var p, a := tr[0].0, tr[0].1;
      StepKeepsInv(s, p, a);
      HandlesStay(s, p, a);
      RemovalStaysSafe(s, p, a);
      assert NoOpenIn(tr[1..]) && NoRemoveIn(tr[1..]) by {
        assert forall i :: 0 <= i < |tr[1..]| ==> tr[1..][i] == tr[i + 1];
      }
      SleepersExitOn(Next(s, p, a), tr[1..], q);
    } else {
      OnlySleepersExit(s, q);
    }
  }

  /** At every moment of every run without sem_open or sem_rm, from the start. */
  lemma OnlySleepersExitInRuns(s: State, tr: Trace, q: nat)
    requires Init(s) && Runs(s, tr) && NoOpenIn(tr) && NoRemoveIn(tr) && Enabled(Last(s, tr), q, Go)
    ensures var s' := Last(s, tr);
            q < |Next(s', q, Go).procs|
            && (Next(s', q, Go).procs[q].pc.Dead? <==> s'.procs[q].pc.CreateAsleep? && !Exists(s', s'.procs[q].pc.id))
  {
    hide Inv, Opens, Enabled, Next, Runs, Last;
    InitIsGood(s);
    SleepersExitOn(s, tr, q);
  }

  // ----- what a call that returns has done -----

  predicate InClose(pc: Pc) { pc.CloseLock? || pc.CloseAsleep? || pc.CloseVal? || pc.CloseRm? || pc.CloseUnlock? }

  /** Process p has the set open once more, counted in [1] and in its undo value; but the lock all else is as it was. */
  predicate OpenedOnce(s: State, p: nat, s': State)
    requires p < |s.procs|
  {
    && s.cur.Some? && s.cur.value.ready && s.cur.value.v1 >= 1
    && (var g, pr := s.cur.value, s.procs[p];
        && s'.cur.Some? && s'.cur.value.id == g.id && s'.cur.value.ready
        && s'.cur.value.v0 == g.v0 && s'.cur.value.v1 == g.v1 - 1
        && s'.procs == s.procs[p := Proc(Idle, pr.arg, pr.handles + multiset{g.id}, pr.adj1 + 1, 0)]
        && s'.procs[p].handles[g.id] == pr.handles[g.id] + 1)
    && s'.unused == s.unused
  }

  /** A process in sem_create stays in it until it exits, or returns with an initialised set open once more. */
  lemma CreateReturns(s: State, p: nat)
    requires Enabled(s, p, Go) && InCreate(s.procs[p].pc)
    requires Inv(s)
    ensures var s' := Next(s, p, Go);
            && |s'.procs| == |s.procs|
            && (s'.procs[p].pc.Idle? ==> OpenedOnce(s, p, s') && s.cur.value.v2 == 1 && s'.cur.value.v2 == 0)
            && (s'.procs[p].pc.Idle? || s'.procs[p].pc.Dead? || InCreate(s'.procs[p].pc))
  {
    hide Opens, Undo2, Clamp;
    assert ProcOk(s.cur, s.unused, s.procs[p]);
  }

  /**
   * A process in sem_open stays in it until it exits or returns: with an initialised set open once
   * more, or with nothing exactly when there is no set.
   */
  lemma OpenReturns(s: State, p: nat)
    requires Enabled(s, p, Go) && InOpen(s.procs[p].pc)
    requires Inv(s)
    ensures var s' := Next(s, p, Go);
            && |s'.procs| == |s.procs|
            && (s'.procs[p].pc.Idle? ==>
                  (if s.cur.None? then s' == s.(procs := s.procs[p := s.procs[p].(pc := Idle)])
                   else OpenedOnce(s, p, s') && s'.cur.value.v2 == s.cur.value.v2))
            && (s'.procs[p].pc.Idle? || s'.procs[p].pc.Dead? || InOpen(s'.procs[p].pc))
            && (s.procs[p].pc.OpenGet? ==> (s'.procs[p].pc.Idle? <==> s.cur.None?))
  {
    hide Opens, Undo2, Clamp;
    var pr := s.procs[p];
    assert ProcOk(s.cur, s.unused, pr);
    if s.cur.Some? && !s.cur.value.ready { NoOpens(s); }
  }

  /** A process in sem_close stays in it until it exits or returns, after it removed the set or gave back the lock. */
  lemma CloseReturns(s: State, p: nat)
    requires Enabled(s, p, Go) && InClose(s.procs[p].pc)
    requires Inv(s)
    ensures var pr, s' := s.procs[p], Next(s, p, Go);
            && |s'.procs| == |s.procs|
            && (s'.procs[p].pc.Idle? ==>
                  (s.cur.Some?
                   && (IsRemoved(s, s')
                       || (s.cur.value.v2 == 1 && s' == s.(cur := Some(s.cur.value.(v2 := 0)),
                                                           procs := s.procs[p := pr.(pc := Idle, adj2 := 0)])))))
            && (s'.procs[p].pc.Idle? || s'.procs[p].pc.Dead? || InClose(s'.procs[p].pc))
  {
    hide Opens, Undo2, Clamp;
    assert ProcOk(s.cur, s.unused, s.procs[p]);
  }

  /** The set is gone, and with it every undo value; nobody's handles or whereabouts have changed but the remover's. */
  predicate IsRemoved(s: State, s': State) {
    && s'.cur.None? && s'.unused == s.unused && |s'.procs| == |s.procs|
    && forall q :: 0 <= q < |s.procs| ==>
         s'.procs[q].adj1 == 0 && s'.procs[q].adj2 == 0 && s'.procs[q].handles == s.procs[q].handles
  }

  /** sem_close gives its open back as it takes the lock, and removes the set exactly if it finds it open to nobody. */
  lemma CloseGivesBack(s: State, p: nat)
    requires Enabled(s, p, Go) && InClose(s.procs[p].pc) && Exists(s, s.procs[p].pc.id)
    requires Inv(s)
    ensures var pr, g, s' := s.procs[p], s.cur.value, Next(s, p, Go);
            && (s'.cur.None? <==> pr.pc.CloseRm?)
            && ((pr.pc.CloseLock? || pr.pc.CloseAsleep?) && !s'.procs[p].pc.CloseAsleep? ==>
                  (g.v2 == 0 && s'.cur == Some(g.(v1 := g.v1 + 1, v2 := 1)) && g.id in pr.handles
                   && s'.procs == s.procs[p := Proc(CloseVal(g.id), pr.arg, pr.handles - multiset{g.id},
                                                    pr.adj1 - 1, -1)]))
            && (pr.pc.CloseVal? ==>
                  (var pc' := if Opens(s.procs) == 0 then CloseRm(g.id) else CloseUnlock(g.id);
                   s' == s.(procs := s.procs[p := pr.(pc := pc')])))
  {
    hide Undo2, Clamp;
    assert ProcOk(s.cur, s.unused, s.procs[p]);
    SignsOf(s);
    SumsSign(s.procs);
  }

  /** sem_rm removes the set, whoever uses it; on a set that is gone it exits. */
  lemma RemoveRemoves(s: State, p: nat, id: nat)
    requires Enabled(s, p, Remove(id))
    ensures var s' := Next(s, p, Remove(id));
            if s.cur.Some? && s.cur.value.id == id
            then IsRemoved(s, s') && forall q :: 0 <= q < |s.procs| ==> s'.procs[q].pc == s.procs[q].pc
            else p < |s'.procs| && s'.procs[p].pc.Dead?
  {
    hide Clamp;
  }

  /** At every moment of every run from the start: what the next step of a call does when the call returns with it. */
  lemma CallsReturn(s: State, tr: Trace, p: nat)
    requires Init(s) && Runs(s, tr) && Enabled(Last(s, tr), p, Go)
    ensures var was, now := Last(s, tr), Next(Last(s, tr), p, Go);
            && |now.procs| == |was.procs|
            && (InCreate(was.procs[p].pc) && now.procs[p].pc.Idle? ==> OpenedOnce(was, p, now) && now.cur.value.v2 == 0)
            && (InOpen(was.procs[p].pc) && now.procs[p].pc.Idle? && was.cur.Some? ==> OpenedOnce(was, p, now))
            && (InOpen(was.procs[p].pc) && now.procs[p].pc.Idle? && was.cur.None? ==>
                  now == was.(procs := was.procs[p := was.procs[p].(pc := Idle)]))
            && (InClose(was.procs[p].pc) && now.procs[p].pc.Idle? ==> IsRemoved(was, now) || now.cur.value.v2 == 0)
  {
    hide Inv, Opens, Runs, Last, Next, OpenedOnce, IsRemoved;
    InitIsGood(s);
    RunsKeepInv(s, tr);
    var was := Last(s, tr);
    if InCreate(was.procs[p].pc) { CreateReturns(was, p); }
    if InOpen(was.procs[p].pc) { OpenReturns(was, p); }
    if InClose(was.procs[p].pc) { CloseReturns(was, p); }
  }

  // ----- every call counts once -----

  /** Calls of sem_create and sem_open that process q makes, less its calls of sem_close. */
  function Calls(tr: Trace, q: nat): int
    decreases |tr|
  {
    if tr == [] then 0 else CallNow(tr[0].0, tr[0].1, q) + Calls(tr[1..], q)
  }

  function CallNow(p: nat, a: Action, q: nat): int {
    if p != q then 0 else if a.Create? || a.Open? then 1 else if a.Close? then -1 else 0
  }

  /** Calls of sem_open by q that find no set. */
  function NotFound(s: State, tr: Trace, q: nat): nat
    requires Runs(s, tr)
    decreases |tr|
  {
    if tr == [] then 0
    else NotFoundNow(s, tr[0].0, tr[0].1, q) + NotFound(Next(s, tr[0].0, tr[0].1), tr[1..], q)
  }

  function NotFoundNow(s: State, p: nat, a: Action, q: nat): nat {
    if p == q && p < |s.procs| && a.Go? && s.procs[p].pc.OpenGet? && s.cur.None? then 1 else 0
  }

  /** What the call a process is in has yet to do to its handles. */
  function Due(pc: Pc): int {
    if InCreate(pc) || InOpen(pc) then 1 else if pc.CloseLock? || pc.CloseAsleep? then -1 else 0
  }

  /**
   * In every run: a process that lives has the set open once for each sem_create it made and each
   * sem_open that found a set, less once for each sem_close; what its present call has yet to do is due.
   */
  lemma {:induction false} HandlesAccount(s: State, tr: Trace, q: nat)
    requires Runs(s, tr) && q < |s.procs|
    requires Inv(s)
    ensures |Last(s, tr).procs| == |s.procs|
    ensures !Last(s, tr).procs[q].pc.Dead? ==>
              (!s.procs[q].pc.Dead?
               && |Last(s, tr).procs[q].handles| + Due(Last(s, tr).procs[q].pc)
                  == |s.procs[q].handles| + Due(s.procs[q].pc) + Calls(tr, q) - NotFound(s, tr, q))
    decreases |tr|
  {
    hide Inv, Enabled, Next, Opens, Due, CallNow, NotFoundNow;
    if tr != [] {
      var p, a := tr[0].0, tr[0].1;
      StepKeepsInv(s, p, a);
      StepAccounts(s, p, a, q);
      HandlesAccount(Next(s, p, a), tr[1..], q);
    }
  }

  /** From the start: a living process in no call has as many opens as it made and has not closed. */
  lemma OpensAreCounted(s: State, tr: Trace, q: nat)
    requires Init(s) && Runs(s, tr) && q < |s.procs|
    ensures |Last(s, tr).procs| == |s.procs|
    ensures Last(s, tr).procs[q].pc.Idle? ==> |Last(s, tr).procs[q].handles| == Calls(tr, q) - NotFound(s, tr, q)
  {
    hide Inv, Runs, Last, Calls, NotFound;
    InitIsGood(s);
    HandlesAccount(s, tr, q);
  }

  lemma StepAccounts(s: State, p: nat, a: Action, q: nat)
    requires Enabled(s, p, a) && q < |s.procs|
    requires Inv(s)
    ensures |Next(s, p, a).procs| == |s.procs|
    ensures var pr, pr' := s.procs[q], Next(s, p, a).procs[q];
            !pr'.pc.Dead? ==>
              !pr.pc.Dead? && |pr'.handles| + Due(pr'.pc)
                              == |pr.handles| + Due(pr.pc) + CallNow(p, a, q) - NotFoundNow(s, p, a, q)
  {
    hide Inv, After;
    if a == Go {
      OthersKeepHandles(s, p, q);
      if p == q { GoAccounts(s, p); }
    }
  }

  /** The handles one step leaves, and what is then due. */
  predicate HandlesMove(s: State, p: nat, pr: Proc, pr': Proc) {
    || (pr'.handles == pr.handles && Due(pr'.pc) == Due(pr.pc) - NotFoundNow(s, p, Go, p))
    || (HasId(pr.pc) && pr'.handles == pr.handles + multiset{pr.pc.id} && Due(pr'.pc) == Due(pr.pc) - 1)
    || (HasId(pr.pc) && pr.pc.id in pr.handles && pr'.handles == pr.handles - multiset{pr.pc.id}
        && Due(pr'.pc) == Due(pr.pc) + 1)
  }

  lemma GoAccounts(s: State, p: nat)
    requires Enabled(s, p, Go)
    requires Inv(s)
    ensures |After(s, p).procs| == |s.procs|
    ensures var pr, pr' := s.procs[p], After(s, p).procs[p];
            !pr'.pc.Dead? ==>
              |pr'.handles| + Due(pr'.pc) == |pr.handles| + Due(pr.pc) - NotFoundNow(s, p, Go, p)
  {
    hide Inv, After, Due, Blocked;
    OthersKeepHandles(s, p, p);
    var pr, pr' := s.procs[p], After(s, p).procs[p];
    if InCreate(pr.pc) { CreateMoves(s, p); } else if InOpen(pr.pc) { OpenMoves(s, p); } else { CloseMoves(s, p); }
  }

  lemma CreateMoves(s: State, p: nat)
    requires p < |s.procs| && InCreate(s.procs[p].pc)
    ensures p < |After(s, p).procs|
    ensures !After(s, p).procs[p].pc.Dead? ==> HandlesMove(s, p, s.procs[p], After(s, p).procs[p])
  {
    hide Clamp;
  }

  lemma OpenMoves(s: State, p: nat)
    requires p < |s.procs| && InOpen(s.procs[p].pc)
    ensures p < |After(s, p).procs|
    ensures !After(s, p).procs[p].pc.Dead? ==> HandlesMove(s, p, s.procs[p], After(s, p).procs[p])
  {
    hide Clamp;
  }

  lemma CloseMoves(s: State, p: nat)
    requires p < |s.procs| && InClose(s.procs[p].pc)
    requires Inv(s)
    ensures p < |After(s, p).procs|
    ensures !After(s, p).procs[p].pc.Dead? ==> HandlesMove(s, p, s.procs[p], After(s, p).procs[p])
  {
    hide Opens, Undo2, Clamp, Phase;
    assert ProcOk(s.cur, s.unused, s.procs[p]);
  }

  lemma OthersKeepHandles(s: State, p: nat, q: nat)
    requires p < |s.procs| && q < |s.procs|
    ensures |After(s, p).procs| == |s.procs|
    ensures q != p ==> After(s, p).procs[q].handles == s.procs[q].handles && After(s, p).procs[q].pc == s.procs[q].pc
  {
    hide Clamp;
  }

  // ----- with sem_open, which takes no lock -----

  /** This step completes a sem_open of the set. */
  predicate OpensNow(s: State, p: nat, a: Action, id: nat) {
    p < |s.procs| && a.Go? && (s.procs[p].pc.OpenDec? || s.procs[p].pc.OpenAsleep?) && s.procs[p].pc.id == id
    && Exists(s, id) && s.cur.value.v1 >= 1
  }

  /** How often process q completed a sem_open of the set in a run. */
  function Opened(s: State, tr: Trace, q: nat, id: nat): nat
    requires Runs(s, tr)
    decreases |tr|
  {
    if tr == [] then 0
    else (if tr[0].0 == q && OpensNow(s, q, tr[0].1, id) then 1 else 0)
         + Opened(Next(s, tr[0].0, tr[0].1), tr[1..], q, id)
  }

  /** While q is about to remove the set, only sem_open changes who has it open. */
  lemma OnlyOpenOpens(s: State, p: nat, a: Action, q: nat, r: nat)
    requires Inv(s) && Enabled(s, p, a) && q < |s.procs| && p != q && r < |s.procs|
    requires s.procs[q].pc.CloseRm? && Exists(s, s.procs[q].pc.id) && Exists(Next(s, p, a), s.procs[q].pc.id)
    ensures |Next(s, p, a).procs| == |s.procs| && Next(s, p, a).procs[q] == s.procs[q]
    ensures var id, pr' := s.procs[q].pc.id, Next(s, p, a).procs[r];
            pr'.pc.Dead? || pr'.handles[id] == s.procs[r].handles[id] + if r == p && OpensNow(s, p, a, id) then 1 else 0
  {
    hide Opens, Undo2, Clamp;
    assert ProcOk(s.cur, s.unused, s.procs[p]) && ProcOk(s.cur, s.unused, s.procs[q]);
    if Inside(s.procs[p].pc, s.cur.value.id) { OneInside(s, p, q); }
    Conserved(s);
  }

  lemma DeadStaysDead(s: State, p: nat, a: Action, r: nat)
    requires Enabled(s, p, a) && r < |s.procs| && s.procs[r].pc.Dead?
    ensures r < |Next(s, p, a).procs| && Next(s, p, a).procs[r].pc.Dead?
  {
    hide Clamp;
  }

  /** The run does not remove the set, and process q does nothing in it. */
  predicate Meanwhile(s: State, tr: Trace, q: nat, id: nat)
    requires Runs(s, tr)
    decreases |tr|
  {
    Exists(s, id) && (tr == [] || (tr[0].0 != q && Meanwhile(Next(s, tr[0].0, tr[0].1), tr[1..], q, id)))
  }

  lemma {:induction false} LateOpens(s: State, tr: Trace, q: nat, r: nat)
    requires Inv(s) && Runs(s, tr) && q < |s.procs| && r < |s.procs| && s.procs[q].pc.CloseRm?
    requires Meanwhile(s, tr, q, s.procs[q].pc.id)
    ensures var s', id := Last(s, tr), s.procs[q].pc.id;
            |s'.procs| == |s.procs|
            && (s'.procs[r].pc.Dead? || s'.procs[r].handles[id] == s.procs[r].handles[id] + Opened(s, tr, r, id))
            && (s.procs[r].pc.Dead? ==> s'.procs[r].pc.Dead?)
    decreases |tr|
  {
    hide Inv, Enabled, Next, Opens, OpensNow;
    if tr != [] {
      var s1 := Next(s, tr[0].0, tr[0].1);
      MeanwhileNow(s1, tr[1..], q, s.procs[q].pc.id);
      StepKeepsInv(s, tr[0].0, tr[0].1);
      OnlyOpenOpens(s, tr[0].0, tr[0].1, q, r);
      if s.procs[r].pc.Dead? { DeadStaysDead(s, tr[0].0, tr[0].1, r); }
      LateOpens(s1, tr[1..], q, r);
    }
  }

  lemma MeanwhileNow(s: State, tr: Trace, q: nat, id: nat)
    requires Runs(s, tr) && Meanwhile(s, tr, q, id)
    ensures Exists(s, id)
  {
  }

  /**
   * Exactly when sem_close removes a set in use: when, between its GETVAL and its IPC_RMID,
   * some process that is still alive completed a sem_open.
   */
  lemma RemovedInUse(s: State, tr: Trace, q: nat)
    requires Inv(s) && Runs(s, tr) && q < |s.procs| && s.procs[q].pc.CloseRm? && Opens(s.procs) == 0
    requires Meanwhile(s, tr, q, s.procs[q].pc.id)
    ensures var s', id := Last(s, tr), s.procs[q].pc.id;
            |s'.procs| == |s.procs|
            && ((exists r :: 0 <= r < |s'.procs| && !s'.procs[r].pc.Dead? && id in s'.procs[r].handles)
                <==> (exists r :: 0 <= r < |s'.procs| && !s'.procs[r].pc.Dead? && Opened(s, tr, r, id) > 0))
  {
    hide Inv, Opens, Opened;
    var s', id := Last(s, tr), s.procs[q].pc.id;
    MeanwhileNow(s, tr, q, id);
    LateOpens(s, tr, q, q);
    forall r | 0 <= r < |s'.procs| && !s'.procs[r].pc.Dead?
      ensures s'.procs[r].handles[id] == Opened(s, tr, r, id)
    {
      LateOpens(s, tr, q, r);
      NobodyHas(s, r);
    }
  }

  lemma NobodyHas(s: State, r: nat)
    requires Inv(s) && s.cur.Some? && Opens(s.procs) == 0 && r < |s.procs|
    ensures s.procs[r].handles[s.cur.value.id] == 0
  {
    SignsOf(s);
    SumsBound(s.procs, r);
  }

  /** One more step of a run, as long as [1] does not run out. */
  lemma StepOn(s: State, p: nat, a: Action, s': State)
    requires Inv(s) && Opens(s.procs) < BIGCOUNT && Enabled(s, p, a) && s' == Next(s, p, a)
    requires s'.cur.Some? && s'.cur.value.ready ==> s'.cur.value.v1 > 0
    ensures Inv(s') && Opens(s'.procs) < BIGCOUNT
  {
    hide Next;
    StepKeepsInv(s, p, a);
    SumsZero(s'.procs);
  }

  /** A step put before a run. */
  lemma Before(s: State, p: nat, a: Action, tr: Trace) returns (tr': Trace)
    requires Opens(s.procs) < BIGCOUNT && Enabled(s, p, a) && Runs(Next(s, p, a), tr)
    ensures Runs(s, tr') && Last(s, tr') == Last(Next(s, p, a), tr)
    ensures tr' == [(p, a)] + tr
  {
    hide Opens, Enabled, Next;
    tr' := [(p, a)] + tr;
    assert tr'[1..] == tr;
  }

  /** Process p has created the set, nobody else has it open, and p and q are idle. */
  predicate HasAlone(s: State, p: nat, q: nat, id: nat) {
    && p < |s.procs| && q < |s.procs| && p != q && Exists(s, id)
    && s.cur.value.ready && s.cur.value.v1 == BIGCOUNT - 1 && s.cur.value.v2 == 0
    && s.procs[p].pc.Idle? && s.procs[p].handles == multiset{id}
    && s.procs[q].pc.Idle? && s.procs[q].handles == multiset{}
  }

  /** A run that gets there: sem_create by p and nothing else. */
  lemma CreateAlone(s: State, p: nat, q: nat, tr: Trace, s': State) returns (tr': Trace)
    requires Init(s) && p < |s.procs| && q < |s.procs| && p != q
    requires s' == Alone(s, p) && (Inv(s') ==> Runs(s', tr))
    ensures Inv(s') && Runs(s, tr') && Last(s, tr') == Last(s', tr)
    ensures forall x :: x in tr' ==> x in tr || x == (p, Create(0)) || x == (p, Go)
  {
    hide Opens, Undo2, Inv, Runs, Last, Clamp;
    var id := s.unused;
    InitIsGood(s);
    var s1 := At(s, p, CreateGet);
    var s2 := After(s1, p);
    var s3 := Semop(s2, p, 0, 1, CreateVal(id), multiset{});
    var s4 := At(s3, p, CreateSet0(id));
    var s5 := After(s4, p);
    var s6 := After(s5, p);
    assert s6.procs == s.procs[p := Proc(CreateEnd(id), 0, multiset{}, 0, -1)];
    assert multiset{} + multiset{id} == multiset{id};
    StepOn(s, p, Create(0), s1);
    StepOn(s1, p, Go, s2);
    StepOn(s2, p, Go, s3);
    StepOn(s3, p, Go, s4);
    StepOn(s4, p, Go, s5);
    StepOn(s5, p, Go, s6);
    StepOn(s6, p, Go, s');
    tr' := Before(s6, p, Go, tr);
    tr' := Before(s5, p, Go, tr');
    tr' := Before(s4, p, Go, tr');
    tr' := Before(s3, p, Go, tr');
    tr' := Before(s2, p, Go, tr');
    tr' := Before(s1, p, Go, tr');
    tr' := Before(s, p, Create(0), tr');
  }

  /** What sem_create by p, alone, makes of the initial state. */
  function Alone(s: State, p: nat): (s': State)
    requires p < |s.procs|
    ensures Init(s) ==> forall q :: 0 <= q < |s.procs| && q != p ==> HasAlone(s', p, q, s.unused)
  {
    var id := s.unused;
    var procs := s.procs[p := Proc(CreateEnd(id), 0, multiset{}, 0, -1)];
    Semop(State(Some(SemSet(id, 0, BIGCOUNT, 1, true)), id + 1, procs), p, -1, -1, Idle, multiset{id})
  }

  lemma NoMore(s: State) returns (tr: Trace)
    requires Opens(s.procs) < BIGCOUNT
    ensures Runs(s, tr) && Last(s, tr) == s && tr == []
  {
    tr := [];
  }

  lemma OpensOf(s: State)
    requires Inv(s) && s.cur.Some? && s.cur.value.ready
    ensures Opens(s.procs) == BIGCOUNT - s.cur.value.v1
  {
  }

  /** q is about to do its semop in sem_open; p closes up to its IPC_RMID, and then q does it. */
  lemma RaceEnd(s3: State, p: nat, q: nat, id: nat) returns (tr: Trace)
    requires Inv(s3) && Opens(s3.procs) < BIGCOUNT && p < |s3.procs| && q < |s3.procs| && p != q && Exists(s3, id)
    requires s3.cur.value.ready && s3.cur.value.v1 == BIGCOUNT - 1 && s3.cur.value.v2 == 0
    requires s3.procs[p].pc == CloseLock(id) && s3.procs[q].pc == OpenDec(id)
    ensures Runs(s3, tr)
    ensures var s' := Last(s3, tr);
            |s'.procs| == |s3.procs| && s'.procs[p].pc == CloseRm(id) && Exists(s', id) && id in s'.procs[q].handles
            && !s'.procs[q].pc.Dead?
  {
    hide Opens, Undo2, Inv, Runs, Last, Clamp, Died, Removed, SetVal1;
    var s4 := Semop(s3, p, 1, 1, CloseVal(id), s3.procs[p].handles - multiset{id});
    var s5 := At(s4, p, CloseRm(id));
    var s6 := Semop(s5, q, -1, 0, Idle, s3.procs[q].handles + multiset{id});
    StepOn(s3, p, Go, s4);
    StepOn(s4, p, Go, s5);
    StepOn(s5, q, Go, s6);
    tr := NoMore(s6);
    tr := Before(s5, q, Go, tr);
    tr := Before(s4, p, Go, tr);
    tr := Before(s3, p, Go, tr);
  }

  lemma RaceTail(s0: State, p: nat, q: nat, id: nat) returns (tr: Trace)
    requires Inv(s0) && HasAlone(s0, p, q, id)
    ensures Runs(s0, tr)
    ensures var s' := Last(s0, tr);
            |s'.procs| == |s0.procs| && s'.procs[p].pc == CloseRm(id) && Exists(s', id) && id in s'.procs[q].handles
            && !s'.procs[q].pc.Dead?
  {
    hide Opens, Undo2, Inv, Runs, Last, Clamp, Died, Removed, SetVal1, Semop;
    var s1 := At(s0, q, OpenGet);
    var s2 := At(s1, q, OpenDec(id));
    var s3 := At(s2, p, CloseLock(id));
    OpensOf(s0);
    StepOn(s0, q, Open, s1);
    StepOn(s1, q, Go, s2);
    StepOn(s2, p, Close(id), s3);
    tr := RaceEnd(s3, p, q, id);
    tr := Before(s2, p, Close(id), tr);
    tr := Before(s1, q, Go, tr);
    tr := Before(s0, q, Open, tr);
  }

  /** A run of two processes in which sem_close is about to remove the set although sem_open has just succeeded. */
  lemma OpenCanRace(s: State, p: nat, q: nat) returns (tr: Trace)
    requires Init(s) && p < |s.procs| && q < |s.procs| && p != q
    ensures Runs(s, tr)
    ensures var s', id := Last(s, tr), s.unused;
            |s'.procs| == |s.procs| && s'.procs[p].pc == CloseRm(id) && Exists(s', id) && id in s'.procs[q].handles
            && !s'.procs[q].pc.Dead?
  {
    hide Opens, Inv, Runs, Last;
    tr := [];
    if Inv(Alone(s, p)) { tr := RaceTail(Alone(s, p), p, q, s.unused); }
    tr := CreateAlone(s, p, q, tr, Alone(s, p));
  }

  /** q is asleep in sem_create while p, inside sem_close, removes the set. */
  lemma GoneTail(s5: State, p: nat, q: nat, id: nat) returns (tr: Trace)
    requires Inv(s5) && Opens(s5.procs) < BIGCOUNT && p < |s5.procs| && q < |s5.procs| && p != q && Exists(s5, id)
    requires s5.procs[p].pc == CloseVal(id) && s5.procs[q].pc == CreateAsleep(id) && s5.cur.value.v1 == BIGCOUNT
    ensures Runs(s5, tr) && |Last(s5, tr).procs| == |s5.procs| && Last(s5, tr).procs[q].pc.Dead?
    ensures forall r: nat :: (r, Open) !in tr && (r, Die) !in tr
  {
    hide Opens, Undo2, Inv, Runs, Last, Clamp;
    var s6 := At(s5, p, CloseRm(id));
    var s7 := At(Removed(s6), p, Idle);
    var s8 := Died(s7, q);
    StepOn(s5, p, Go, s6);
    StepOn(s6, p, Go, s7);
    StepOn(s7, q, Go, s8);
    tr := NoMore(s8);
    tr := Before(s7, q, Go, tr);
    tr := Before(s6, p, Go, tr);
    tr := Before(s5, p, Go, tr);
  }

  /** The creator falls asleep while the set is being closed. */
  lemma SleepOn(s3: State, p: nat, q: nat, id: nat) returns (tr: Trace)
    requires p < |s3.procs| && q < |s3.procs| && p != q && Exists(s3, id) && Opens(s3.procs) < BIGCOUNT
    requires s3.cur.value.ready && s3.cur.value.v1 == BIGCOUNT - 1 && s3.cur.value.v2 == 0
    requires s3.procs[p].pc == CloseLock(id) && s3.procs[p].handles == multiset{id}
    requires s3.procs[q].pc == CreateLock(id) && s3.procs[q].handles == multiset{}
    requires Inv(s3)
    ensures Runs(s3, tr) && |Last(s3, tr).procs| == |s3.procs| && Last(s3, tr).procs[q].pc.Dead?
    ensures forall r: nat :: (r, Open) !in tr && (r, Die) !in tr
  {
    hide Opens, Undo2, Inv, Runs, Last, Clamp;
    var s4 := Semop(s3, p, 1, 1, CloseVal(id), s3.procs[p].handles - multiset{id});
    var s5 := At(s4, q, CreateAsleep(id));
    StepOn(s3, p, Go, s4);
    StepOn(s4, q, Go, s5);
    tr := GoneTail(s5, p, q, id);
    tr := Before(s4, q, Go, tr);
    tr := Before(s3, p, Go, tr);
  }

  lemma SleepTail(s0: State, p: nat, q: nat, id: nat) returns (tr: Trace)
    requires Inv(s0) && HasAlone(s0, p, q, id)
    ensures Runs(s0, tr) && |Last(s0, tr).procs| == |s0.procs| && Last(s0, tr).procs[q].pc.Dead?
    ensures forall r: nat :: (r, Open) !in tr && (r, Die) !in tr
  {
    hide Opens, Undo2, Inv, Runs, Last, Clamp;
    var s1 := At(s0, q, CreateGet);
    var s2 := At(s1, q, CreateLock(id));
    var s3 := At(s2, p, CloseLock(id));
    OpensOf(s0);
    StepOn(s0, q, Create(s0.procs[q].arg), s1);
    StepOn(s1, q, Go, s2);
    StepOn(s2, p, Close(id), s3);
    tr := SleepOn(s3, p, q, id);
    tr := Before(s2, p, Close(id), tr);
    tr := Before(s1, q, Go, tr);
    tr := Before(s0, q, Create(s0.procs[q].arg), tr);
  }

  /**
   * sem_create tries again when the set was removed before its semop, but not when it was
   * asleep in semop at the time: it then gets EIDRM and the process exits.
   */
  lemma SleepingCreatorExits(s: State, p: nat, q: nat) returns (tr: Trace)
    requires Init(s) && p < |s.procs| && q < |s.procs| && p != q
    ensures Runs(s, tr) && forall r: nat :: (r, Open) !in tr && (r, Die) !in tr
    ensures |Last(s, tr).procs| == |s.procs| && Last(s, tr).procs[q].pc.Dead?
  {
    hide Opens, Inv, Runs, Last;
    tr := [];
    if Inv(Alone(s, p)) { tr := SleepTail(Alone(s, p), p, q, s.unused); }
    tr := CreateAlone(s, p, q, tr, Alone(s, p));
  }
}
