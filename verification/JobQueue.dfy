/** The print daemon's queue of pending jobs, and what its clients and its printer thread do with it. */
module JobQueue {
  import opened Options

  class Job {
    const jobid: int
    var prev: Job?
    var next: Job?

    constructor (jobid: int)
      ensures this.jobid == jobid && next == null
    {
      this.jobid, prev, next := jobid, null, null;
    }
  }

  /** The jobid of each job. */
  function Ids(jobs: seq<Job>): (ids: seq<int>) {
    seq(|jobs|, i requires 0 <= i < |jobs| => jobs[i].jobid)
  }

  /** Job i of a list points to both its neighbours. */
  ghost predicate Linked(jobs: seq<Job>, i: nat)
    requires i < |jobs|
    reads jobs
  {
    && jobs[i].next == (if i + 1 < |jobs| then jobs[i + 1] else null)
    && jobs[i].prev == (if i > 0 then jobs[i - 1] else null)
  }

  /** jobhead, jobtail and the doubly linked list between them; jobs is that list. */
  class Queue {
    var jobhead: Job?
    var jobtail: Job?
    ghost var jobs: seq<Job>

    ghost predicate Valid()
      reads this, jobs
    {
      && jobhead == (if |jobs| == 0 then null else jobs[0])
      && jobtail == (if |jobs| == 0 then null else jobs[|jobs| - 1])
      && (forall i, j :: 0 <= i < j < |jobs| ==> jobs[i] != jobs[j])
      && (forall i :: 0 <= i < |jobs| ==> Linked(jobs, i))
    }

    constructor ()
      ensures Valid() && jobs == []
    {
      jobhead, jobtail, jobs := null, null, [];
    }

    /** add_job: a new job goes to the end. */
    method AddJob(jobid: int) returns (jp: Job)
      requires Valid()
      modifies this, jobs
      ensures Valid() && fresh(jp) && jp.jobid == jobid && jobs == old(jobs) + [jp]
    {
      jp := new Job(jobid);
      assert |jobs| > 0 ==> Linked(jobs, |jobs| - 1) && jobtail in jobs;
      jp.prev := jobtail;
      if jobtail == null {
        jobhead := jp;
      } else {
        jobtail.next := jp;
      }
      jobtail := jp;
      jobs := jobs + [jp];
      forall i | 0 <= i < |jobs| ensures Linked(jobs, i) { assert i < |jobs| - 1 ==> old(Linked(jobs, i)); }
    }

    /** replace_job: a job that was taken goes back to the head. */
    method ReplaceJob(jp: Job)
      requires Valid() && jp !in jobs
      modifies this, jobs, jp
      ensures Valid() && jobs == [jp] + old(jobs)
    {
      assert |jobs| > 0 ==> Linked(jobs, 0) && jobhead in jobs;
      jp.prev := null;
      jp.next := jobhead;
      if jobhead == null {
        jobtail := jp;
      } else {
        jobhead.prev := jp;
      }
      jobhead := jp;
      jobs := [jp] + jobs;
      forall i | 0 <= i < |jobs| ensures Linked(jobs, i) { assert i > 0 ==> old(Linked(jobs, i - 1)); }
    }

    /** remove_job: any job of the list, wherever it is. */
    method RemoveJob(target: Job, ghost k: nat)
      requires Valid() && k < |jobs| && jobs[k] == target
      modifies this, jobs
      ensures Valid() && jobs == old(jobs)[..k] + old(jobs)[k + 1..] && target !in jobs
    {
      assert Linked(jobs, k) && (k > 0 ==> Linked(jobs, k - 1)) && (k + 1 < |jobs| ==> Linked(jobs, k + 1));
      if target.next != null {
        target.next.prev := target.prev;
      } else {
        jobtail := target.prev;
      }
      if target.prev != null {
        target.prev.next := target.next;
      } else {
        jobhead := target.next;
      }
      jobs := jobs[..k] + jobs[k + 1..];
      forall i | 0 <= i < |jobs| ensures Linked(jobs, i) {
        if i < k { assert old(Linked(jobs, i)); } else { assert old(Linked(jobs, i + 1)); }
      }
    }
  }

  // ----- the daemon -----

  /** The jobs finished or cancelled, the one the printer thread has, and the list of pending ones. */
  datatype Service = Service(done: seq<int>, inFlight: Option<int>, pending: seq<int>)

  /** Any client adds a job; the printer thread takes one, then ends it or defers it. */
  datatype Event = Add(jobid: int) | Take | Complete | Defer

  predicate Can(s: Service, e: Event) {
    match e
    case Add(_) => true
    case Take => s.inFlight.None? && s.pending != []            // it waits for jobwait otherwise
    case Complete => s.inFlight.Some?
    case Defer => s.inFlight.Some?
  }

  function Step(s: Service, e: Event): Service
    requires Can(s, e)
  {
    match e
    case Add(id) => s.(pending := s.pending + [id])
    case Take => s.(inFlight := Some(s.pending[0]), pending := s.pending[1..])
    case Complete => s.(done := s.done + [s.inFlight.value], inFlight := None)
    case Defer => s.(inFlight := None, pending := [s.inFlight.value] + s.pending)
  }

  predicate Possible(s: Service, events: seq<Event>)
    decreases |events|
  {
    events == [] || (Can(s, events[0]) && Possible(Step(s, events[0]), events[1..]))
  }

  function After(s: Service, events: seq<Event>): Service
    requires Possible(s, events)
    decreases |events|
  {
    if events == [] then s else After(Step(s, events[0]), events[1..])
  }

  /** The jobs added, in the order of their adding. */
  function Added(events: seq<Event>): seq<int> {
    if events == [] then [] else (if events[0].Add? then [events[0].jobid] else []) + Added(events[1..])
  }

  /** Everything the daemon knows of, in one line. */
  function Line(s: Service): seq<int> { s.done + (if s.inFlight.Some? then [s.inFlight.value] else []) + s.pending }

  /**
   * However clients and the printer thread interleave, and however often a job is deferred:
   * the jobs ended, then the one in flight, then the pending ones, are the jobs added, in that order.
   */
  lemma {:induction false} OrderIsKept(s: Service, events: seq<Event>)
    requires Possible(s, events)
    ensures Line(After(s, events)) == Line(s) + Added(events)
    decreases |events|
  {
    if events != [] {
      var s1 := Step(s, events[0]);
      OrderIsKept(s1, events[1..]);
      var add := if events[0].Add? then [events[0].jobid] else [];
      StepLine(s, events[0]);
      var done_, rest := Line(s), Added(events[1..]);
      hide Line;
      assert (done_ + add) + rest == done_ + (add + rest);
    }
  }

  lemma StepLine(s: Service, e: Event)
    requires Can(s, e)
    ensures Line(Step(s, e)) == Line(s) + if e.Add? then [e.jobid] else []
  {
  }

  /** Jobs end in the order they came, none is lost and none ends twice. */
  lemma EndsInOrder(events: seq<Event>)
    requires Possible(Service([], None, []), events)
    ensures var s := After(Service([], None, []), events);
            s.done <= Added(events) && multiset(s.done) + multiset(s.pending)
            + (if s.inFlight.Some? then multiset{s.inFlight.value} else multiset{}) == multiset(Added(events))
  {
    OrderIsKept(Service([], None, []), events);
    var s := After(Service([], None, []), events);
    assert Line(s) == Added(events);
    assert multiset(Line(s))
           == multiset(s.done) + multiset(if s.inFlight.Some? then [s.inFlight.value] else []) + multiset(s.pending);
  }

  /** The daemon: the shared list and the job the printer thread works on. */
  class Daemon {
    const queue: Queue
    var jp: Job?
    ghost var done: seq<int>

    ghost predicate Valid()
      reads this, queue, queue.jobs
    {
      queue.Valid() && (jp != null ==> jp !in queue.jobs)
    }

    ghost function View(): Service
      reads this, queue
    {
      Service(done, if jp == null then None else Some(jp.jobid), Ids(queue.jobs))
    }

    constructor ()
      ensures Valid() && fresh(queue) && View() == Service([], None, [])
    {
      queue := new Queue();
      jp, done := null, [];
    }

    /** client_thread, once it has spooled the request. */
    method Client(jobid: int)
      requires Valid()
      modifies queue, queue.jobs
      ensures Valid() && jp == old(jp) && View() == Step(old(View()), Add(jobid))
      ensures |queue.jobs| == |old(queue.jobs)| + 1 && queue.jobs[..|old(queue.jobs)|] == old(queue.jobs)
      ensures queue.jobs[|old(queue.jobs)|].jobid == jobid && done == old(done)
      ensures forall j :: j in queue.jobs ==> j in old(queue.jobs) || fresh(j)
    {
      var job := queue.AddJob(jobid);
    }

    /** The printer thread's critical section; ok is false when it has to wait. */
    method TakeJob() returns (ok: bool)
      requires Valid() && jp == null
      modifies this, queue, queue.jobs
      ensures Valid() && ok == Can(old(View()), Take)
      ensures View() == if ok then Step(old(View()), Take) else old(View())
      ensures (ok <==> old(queue.jobs) != []) && done == old(done)
      ensures if ok then jp == old(queue.jobs)[0] && queue.jobs == old(queue.jobs)[1..]
              else jp == null && queue.jobs == old(queue.jobs)
    {
      ok := queue.jobhead != null;
      if ok {
        jp := queue.jobhead;
        queue.RemoveJob(jp, 0);
      }
    }

    /** The job was printed, or its file is gone. */
    method EndJob()
      requires Valid() && jp != null
      modifies this
      ensures Valid() && View() == Step(old(View()), Complete)
      ensures jp == null && done == old(done) + [old(jp).jobid] && queue.jobs == old(queue.jobs)
    {
      done := done + [jp.jobid];
      jp := null;
    }

    /** The printer could not be reached or failed: the job goes back to the head. */
    method DeferJob()
      requires Valid() && jp != null
      modifies this, queue, queue.jobs, jp
      ensures Valid() && View() == Step(old(View()), Defer)
      ensures jp == null && done == old(done) && queue.jobs == [old(jp)] + old(queue.jobs)
    {
      queue.ReplaceJob(jp);
      jp := null;
    }
  }
}
