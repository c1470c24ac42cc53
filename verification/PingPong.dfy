/** Two threads that take turns by means of two semaphores, under every interleaving. */
module PingPong {

  datatype Who = Ping | Pong

  function Other(w: Who): Who { if w == Ping then Pong else Ping }

  /** Where a thread is in its loop; loop is its counter. */
  datatype Pc = Test(loop: int) | Wait(loop: int) | Work(loop: int) | Reset(loop: int) | Post(loop: int) | Exited

  /** Both semaphores, both threads, the loop count given, and who has worked so far. */
  datatype State = State(loops: int, pingsem: int, pongsem: int, ping: Pc, pong: Pc, log: seq<Who>)

  function Sem(s: State, w: Who): int { if w == Ping then s.pingsem else s.pongsem }

  function At(s: State, w: Who): Pc { if w == Ping then s.ping else s.pong }

  function SetSem(s: State, w: Who, v: int): State { if w == Ping then s.(pingsem := v) else s.(pongsem := v) }

  function Go(s: State, w: Who, pc: Pc): State { if w == Ping then s.(ping := pc) else s.(pong := pc) }

  predicate Init(s: State) {
    s.pingsem == 1 && s.pongsem == 0 && s.ping == Test(0) && s.pong == Test(0) && s.log == []
  }

  predicate Enabled(s: State, w: Who) {
    !At(s, w).Exited? && (At(s, w).Wait? ==> Sem(s, w) > 0)
  }

  function Next(s: State, w: Who): State
    requires Enabled(s, w)
  {
    match At(s, w)
    case Test(k) => Go(s, w, if k < s.loops then Wait(k) else Exited)
    case Wait(k) => Go(SetSem(s, w, Sem(s, w) - 1), w, Work(k))
    case Work(k) => Go(s.(log := s.log + [w]), w, Reset(k))
    case Reset(k) => Go(SetSem(s, w, 0), w, Post(k))             // sem_init(.., 0)
    case Post(k) => Go(SetSem(s, Other(w), Sem(s, Other(w)) + 1), w, Test(k + 1))
  }

  /** How often a thread has posted; an exited one has done so in every round. */
  function Posts(s: State, w: Who): int {
    match At(s, w)
    case Exited => if s.loops < 0 then 0 else s.loops
    case pc => pc.loop
  }

  /** It has taken its semaphore and not yet posted the other's. */
  predicate Inside(pc: Pc) { pc.Work? || pc.Reset? || pc.Post? }

  function Token(b: bool): int { if b then 1 else 0 }

  predicate ThreadOk(s: State, w: Who) {
    match At(s, w)
    case Test(k) => 0 <= k && (k == 0 || k <= s.loops)
    case Exited => true
    case pc => 0 <= pc.loop < s.loops
  }

  /** Ping's turn from one Pong post to the next Ping post; one token is in a semaphore or with a thread. */
  predicate Inv(s: State) {
    && ThreadOk(s, Ping) && ThreadOk(s, Pong)
    && 0 <= s.pingsem <= 1 && 0 <= s.pongsem <= 1
    && s.pingsem + Token(Inside(s.ping)) == Token(Posts(s, Ping) == Posts(s, Pong))
    && s.pongsem + Token(Inside(s.pong)) == Token(Posts(s, Ping) == Posts(s, Pong) + 1)
    && (Posts(s, Ping) == Posts(s, Pong) || Posts(s, Ping) == Posts(s, Pong) + 1)
    && |s.log| == Posts(s, Ping) + Posts(s, Pong) + Token(s.ping.Reset? || s.ping.Post?)
       + Token(s.pong.Reset? || s.pong.Post?)
    && Alternates(s.log)
  }

  /** Strictly in turn, beginning with ping. */
  predicate Alternates(log: seq<Who>) { forall i :: 0 <= i < |log| ==> log[i] == if i % 2 == 0 then Ping else Pong }

  lemma StepKeepsInv(s: State, w: Who)
    requires Inv(s) && Enabled(s, w)
    ensures Inv(Next(s, w))
  {
    if At(s, w).Work? { TurnOf(s, w); }
  }

  /** A thread that is about to work is the one whose turn it is. */
  lemma TurnOf(s: State, w: Who)
    requires Inv(s) && At(s, w).Work?
    ensures Alternates(s.log + [w])
  {
    assert |s.log| % 2 == if w == Ping then 0 else 1;
  }

  /** At most one semaphore is positive, and putting one back to 0 never discards a post. */
  lemma NoPostIsLost(s: State, w: Who)
    requires Inv(s)
    ensures s.pingsem + s.pongsem <= 1
    ensures At(s, w).Reset? ==> Sem(s, w) == 0
  {
  }

  /** Until both threads have exited, one of them can go on. */
  lemma SomeoneCanGo(s: State) returns (w: Who)
    requires Inv(s) && !(s.ping.Exited? && s.pong.Exited?)
    ensures Enabled(s, w)
  {
    w := if Enabled(s, Ping) then Ping else Pong;
  }

  /** The steps a thread still has before it, at most. */
  function Left(s: State, w: Who): int {
    var n := if s.loops < 0 then 0 else s.loops;
    match At(s, w)
    case Test(k) => 5 * (n - k) + 1
    case Wait(k) => 5 * (n - k)
    case Work(k) => 5 * (n - k) - 1
    case Reset(k) => 5 * (n - k) - 2
    case Post(k) => 5 * (n - k) - 3
    case Exited => 0
  }

  lemma StepsRunOut(s: State, w: Who)
    requires Inv(s) && Enabled(s, w)
    ensures var s' := Next(s, w);
            0 <= Left(s', Ping) + Left(s', Pong) < Left(s, Ping) + Left(s, Pong)
  {
  }

  predicate Runs(s: State, sched: seq<Who>)
    decreases |sched|
  {
    sched == [] || (Enabled(s, sched[0]) && Runs(Next(s, sched[0]), sched[1..]))
  }

  function Last(s: State, sched: seq<Who>): State
    requires Runs(s, sched)
    decreases |sched|
  {
    if sched == [] then s else Last(Next(s, sched[0]), sched[1..])
  }

  lemma {:induction false} RunKeepsInv(s: State, sched: seq<Who>)
    requires Inv(s) && Runs(s, sched)
    ensures Inv(Last(s, sched)) && Last(s, sched).loops == s.loops
    ensures |sched| + Left(Last(s, sched), Ping) + Left(Last(s, sched), Pong) <= Left(s, Ping) + Left(s, Pong)
    decreases |sched|
  {
    hide Inv, Enabled;
    if sched != [] {
      StepKeepsInv(s, sched[0]);
      StepsRunOut(s, sched[0]);
      RunKeepsInv(Next(s, sched[0]), sched[1..]);
    }
  }

  /**
   * Under every interleaving and for every loop count: the threads work strictly in turn, ping
   * first; no run is longer than 10 steps a round and 2 more; and a run that cannot go on has
   * both threads exited, each having worked in every round.
   */
  lemma EveryRun(s: State, sched: seq<Who>)
    requires Init(s) && Runs(s, sched)
    ensures var s', n := Last(s, sched), if s.loops < 0 then 0 else s.loops;
            (forall i :: 0 <= i < |s'.log| ==> s'.log[i] == if i % 2 == 0 then Ping else Pong) && |sched| <= 10 * n + 2
            && ((forall w :: !Enabled(s', w)) ==> s'.ping.Exited? && s'.pong.Exited? && |s'.log| == 2 * n)
  {
    RunKeepsInv(s, sched);
    var s' := Last(s, sched);
    LeftIsNonneg(s');
    if !(s'.ping.Exited? && s'.pong.Exited?) {
      var w := SomeoneCanGo(s');
    }
  }

  lemma LeftIsNonneg(s: State)
    requires Inv(s)
    ensures Left(s, Ping) >= 0 && Left(s, Pong) >= 0
  {
  }
}
