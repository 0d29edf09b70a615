/** The single-writer database service: the shared state one mutex guards, and its critical
    sections over the ring buffer. */
module DbService {

  type Job = nat

  /** What the mutex guards, as a value: the queued jobs in order and the stop flag. */
  datatype Shared = Shared(queue: seq<Job>, stop: bool)

  /** What a submitter's turn under the mutex comes to. */
  datatype SubmitTurn = SleepFull | Enqueued | Refused

  /** What the worker's turn under the mutex comes to. */
  datatype WorkerTurn = SleepEmpty | Took(job: Job) | Leave

  /** A synchronous submitter waits while the queue is full and the service runs. */
  function SubmitDecision(sh: Shared, cap: nat, async: bool): SubmitTurn {
    if !async && |sh.queue| >= cap && !sh.stop then SleepFull
    else if !sh.stop && |sh.queue| < cap then Enqueued
    else Refused
  }

  /** The worker takes queued jobs even when asked to stop; it leaves only on an empty queue. */
  function WorkerDecision(sh: Shared): WorkerTurn {
    if sh.queue == [] then (if sh.stop then Leave else SleepEmpty) else Took(sh.queue[0])
  }

  /** x modulo the capacity, for x below twice the capacity. */
  function Wrap(x: nat, cap: nat): nat {
    if x < cap then x else x - cap
  }

  /** The count jobs of the ring from head on, in order. */
  function RingContents(slots: seq<Job>, head: nat, count: nat): (s: seq<Job>)
    requires head < |slots| && count <= |slots|
    ensures |s| == count && forall i :: 0 <= i < count ==> s[i] == slots[Wrap(head + i, |slots|)]
  {
    seq(count, i requires 0 <= i < count => slots[Wrap(head + i, |slots|)])
  }

  /** struct db_service: the ring and the flag. A slot holds 0 when it is empty. */
  class Service {
    var slots: seq<Job>
    var head: nat
    var tail: nat
    var count: nat
    var stop: bool
    const cap: nat

    ghost predicate Valid()
      reads this
    {
      0 < cap && |slots| == cap && head < cap && tail < cap && count <= cap
      && tail == Wrap(head + count, cap)
    }

    ghost function Contents(): (s: seq<Job>)
      requires Valid()
      reads this
      ensures |s| == count
    {
      RingContents(slots, head, count)
    }

    ghost function Abstract(): Shared
      requires Valid()
      reads this
    {
      Shared(Contents(), stop)
    }

    constructor (capacity: nat)
      requires capacity > 0
      ensures Valid() && cap == capacity && Abstract() == Shared([], false)
    {
      cap := capacity;
      slots := seq(capacity, _ => 0);
      head, tail, count, stop := 0, 0, 0, false;
    }

    /** The first critical section of db_service_submit_job. */
    method Submit(job: Job, async: bool) returns (turn: SubmitTurn)
      requires Valid()
      modifies this
      ensures Valid() && turn == SubmitDecision(old(Abstract()), cap, async)
      ensures turn == Enqueued <==> !old(stop) && |old(Contents())| < cap
      ensures turn == SleepFull <==> !async && !old(stop) && |old(Contents())| == cap
      ensures turn == Refused <==> old(stop) || (async && |old(Contents())| == cap)
      ensures Abstract() == Shared(old(Contents()) + (if turn == Enqueued then [job] else []), old(stop))
    {
      if !async && count >= cap && !stop {
        return SleepFull;
      }
      if !stop && count < cap {
        slots := slots[tail := job];
        tail := if tail + 1 == cap then 0 else tail + 1;
        count := count + 1;
        assert Contents() == old(Contents()) + [job];
        return Enqueued;
      }
      return Refused;
    }

    /** The critical section at the top of db_service_worker_main. */
    method WorkerSection() returns (turn: WorkerTurn)
      requires Valid()
      modifies this
      ensures Valid() && turn == WorkerDecision(old(Abstract()))
      ensures turn.Took? <==> old(Contents()) != []
      ensures turn.Took? ==> turn.job == old(Contents())[0]
      ensures turn == Leave <==> old(Contents()) == [] && old(stop)
      ensures Abstract() == Shared(if turn.Took? then old(Contents())[1..] else old(Contents()), old(stop))
    {
      if count == 0 {
        return if stop then Leave else SleepEmpty;
      }
      var job := slots[head];
      assert job == Contents()[0];
      slots := slots[head := 0];
      head := if head + 1 == cap then 0 else head + 1;
      count := count - 1;
      assert Contents() == old(Contents())[1..];
      return Took(job);
    }

    /** The critical section of db_service_stop. */
    method RequestStop()
      requires Valid()
      modifies this
      ensures Valid() && Abstract() == Shared(old(Contents()), true)
    {
      stop := true;
    }
  }
}
