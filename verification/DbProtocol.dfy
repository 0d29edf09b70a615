/** Every run of the database service with any number of submitters and one worker. One step
    is one critical section, one unlocked piece of the worker, or one wake-up. Condition
    variables are explicit: a sleeping thread runs again only when it is signalled, broadcast
    to, or woken spuriously. */
module DbProtocol {
  import opened Common
  import opened DbService

  /** Where one submission stands. Entering has passed the started test and wants the mutex. */
  datatype CallPc = Entering | AsleepFull | WokenFull | AsleepDone | WokenDone | Returned(value: bool)

  /** direct marks a submission from the worker thread itself, which runs its job on the spot. */
  datatype Call = Call(async: bool, direct: bool, pc: CallPc)

  /** Where the worker stands. Ready wants the mutex; Finishing has performed its job and has
      yet to hand it back. */
  datatype WorkerPc = Ready | AsleepEmpty | Holding(job: Job) | Finishing(job: Job) | Exited

  /** The shared state, the threads, the per-job results, and the history: jobs accepted into
      the queue, queued jobs performed, every job run on the database, contexts released. */
  datatype State = State(
    sh: Shared,
    worker: WorkerPc,
    calls: map<Job, Call>,
    done: set<Job>,
    results: map<Job, bool>,
    accepted: seq<Job>,
    performed: seq<Job>,
    log: seq<Job>,
    released: seq<Job>)

  /** Which sleeper a signal on the queue condition reaches. */
  datatype Wake = Nobody | TheWorker | TheCall(call: Job)

  datatype Step =
    | Enter(c: Job, async: bool)
    | Submit(c: Job, wake: Wake)
    | Collect(c: Job)
    | WorkerTurn
    | Perform(result: bool)
    | Inline(c: Job, async: bool, result: bool)
    | Finish
    | Stop
    | SpuriousCall(c: Job)
    | SpuriousWorker

  function SetPc(s: State, c: Job, pc: CallPc): State
    requires c in s.calls
  {
    s.(calls := s.calls[c := s.calls[c].(pc := pc)])
  }

  function WokenPc(pc: CallPc): CallPc {
    if pc == AsleepFull then WokenFull else pc
  }

  /** zcl_cond_broadcast on the queue condition. */
  function Broadcast(s: State): (t: State)
    ensures t.calls.Keys == s.calls.Keys
  {
    s.(calls := map c | c in s.calls :: s.calls[c].(pc := WokenPc(s.calls[c].pc)),
       worker := if s.worker == AsleepEmpty then Ready else s.worker)
  }

  /** A signal reaches some sleeper if there is one. */
  ghost predicate CanReach(s: State, w: Wake) {
    match w
    case Nobody => s.worker != AsleepEmpty && forall c :: c in s.calls ==> s.calls[c].pc != AsleepFull
    case TheWorker => s.worker == AsleepEmpty
    case TheCall(c) => c in s.calls && s.calls[c].pc == AsleepFull
  }

  function Signal(s: State, w: Wake): (t: State)
    ensures t.calls.Keys == s.calls.Keys
  {
    match w
    case Nobody => s
    case TheWorker => s.(worker := Ready)
    case TheCall(c) => if c in s.calls then SetPc(s, c, WokenFull) else s
  }

  /** The broadcast a submitter makes on its way out when the queue has room. */
  function LeaveSubmit(s: State, cap: nat): State {
    if |s.sh.queue| < cap then Broadcast(s) else s
  }

  /** The outcome of a submitter's turn at the mutex. */
  function AfterSubmit(s: State, cap: nat, c: Job, w: Wake): State
    requires c in s.calls
  {
    var async := s.calls[c].async;
    match SubmitDecision(s.sh, cap, async)
    case SleepFull => SetPc(s, c, AsleepFull)
    case Refused =>
      var t := SetPc(s, c, Returned(false));
      if async then t.(released := t.released + [c]) else t
    case Enqueued =>
      var t := Signal(s.(sh := s.sh.(queue := s.sh.queue + [c]), accepted := s.accepted + [c]), w);
      if async then LeaveSubmit(SetPc(t, c, Returned(true)), cap) else SetPc(t, c, AsleepDone)
  }

  /** The worker's turn at the mutex; taking a job broadcasts. */
  function AfterWorkerTurn(s: State): State {
    match WorkerDecision(s.sh)
    case SleepEmpty => s.(worker := AsleepEmpty)
    case Leave => s.(worker := Exited)
    case Took(j) => Broadcast(s.(sh := s.sh.(queue := s.sh.queue[1..]))).(worker := Holding(j))
  }

  /** The worker hands its job back: an asynchronous job's context is released, a synchronous
      job is marked done and its own condition signalled. */
  function AfterFinish(s: State): State
    requires s.worker.Finishing?
  {
    var j := s.worker.job;
    var t := s.(worker := Ready);
    if j !in s.calls then t
    else if s.calls[j].async then t.(released := t.released + [j])
    else
      var u := t.(done := t.done + {j});
      if u.calls[j].pc == AsleepDone then SetPc(u, j, WokenDone) else u
  }

  ghost predicate Next(s: State, step: Step, s': State, cap: nat) {
    match step
    case Enter(c, async) =>
      c !in s.calls && s' == s.(calls := s.calls[c := Call(async, false, Entering)])
    case Submit(c, w) =>
      && c in s.calls && (s.calls[c].pc == Entering || s.calls[c].pc == WokenFull) && CanReach(s, w)
      && s' == AfterSubmit(s, cap, c, w)
    case Collect(c) =>
      && c in s.calls && s.calls[c].pc == WokenDone
      && s' == if c !in s.done then SetPc(s, c, AsleepDone)
               else LeaveSubmit(SetPc(s, c, Returned(c in s.results && s.results[c])), cap)
    case WorkerTurn => s.worker == Ready && s' == AfterWorkerTurn(s)
    case Perform(r) =>
      && s.worker.Holding?
      && var j := s.worker.job;
         s' == s.(worker := Finishing(j), results := s.results[j := r], performed := s.performed + [j], log := s.log + [j])
    case Inline(c, async, r) =>
      && s.worker.Holding? && c !in s.calls
      && s' == s.(calls := s.calls[c := Call(async, true, Returned(r))], results := s.results[c := r], log := s.log + [c],
                  released := s.released + (if async then [c] else []))
    case Finish => s.worker.Finishing? && s' == AfterFinish(s)
    case Stop => s' == Broadcast(s.(sh := s.sh.(stop := true)))
    case SpuriousCall(c) =>
      && c in s.calls && (s.calls[c].pc == AsleepFull || s.calls[c].pc == AsleepDone)
      && s' == SetPc(s, c, if s.calls[c].pc == AsleepFull then WokenFull else WokenDone)
    case SpuriousWorker => s.worker == AsleepEmpty && s' == s.(worker := Ready)
  }

  function InitState(): State {
    State(Shared([], false), Ready, map[], {}, map[], [], [], [], [])
  }

  function Hand(w: WorkerPc): seq<Job> {
    if w.Holding? then [w.job] else []
  }

  /** No lost wake-up: whoever sleeps on the shared condition has a reason to. */
  ghost predicate WakeInv(s: State, cap: nat) {
    && cap > 0 && |s.sh.queue| <= cap
    && (forall c :: c in s.calls && s.calls[c].pc == AsleepFull ==> |s.sh.queue| == cap && !s.sh.stop)
    && (s.worker == AsleepEmpty ==> s.sh.queue == [] && !s.sh.stop)
    && (s.worker == Exited ==> s.sh.queue == [] && s.sh.stop)
  }

  /** First in, first out, each once: the queue is what was accepted and not yet performed. */
  ghost predicate FifoInv(s: State) {
    && s.accepted == s.performed + Hand(s.worker) + s.sh.queue
    && NoDup(s.accepted) && NoDup(s.log) && NoDup(s.released)
    && (s.worker.Finishing? ==> s.worker.job in s.performed)
    && (forall c :: c in s.accepted ==> c in s.calls)
    && (forall c :: c in s.log ==> c in s.calls && c in s.results)
    && (forall c :: c in s.released ==> c in s.calls)
    && (forall c :: c in s.done ==> c in s.calls)
  }

  /** The job has been performed and handed back. */
  ghost predicate HandedBack(s: State, c: Job) {
    c in s.performed && s.worker != Finishing(c)
  }

  /** What holds of one submission in every reachable state. */
  ghost predicate CallOk(s: State, c: Job)
    requires c in s.calls
  {
    var Call(async, direct, pc) := s.calls[c];
    var acc := c in s.accepted;
    && (acc ==> (c in s.log <==> c in s.performed))
    && (if direct then !acc && pc.Returned? && c in s.log else acc || c !in s.log)
    && (c in s.released <==> async && (HandedBack(s, c) || (pc.Returned? && !acc)))
    && (c in s.done <==> !async && HandedBack(s, c))
    && (acc && async ==> pc.Returned?)
    && match pc
       case Entering => !acc && c !in s.log
       case WokenFull => !acc && c !in s.log && !async
       case AsleepFull => !acc && c !in s.log && !async
       case AsleepDone => acc && !async && c !in s.done
       case WokenDone => acc && !async
       case Returned(v) =>
         if acc then (if async then v else c in s.done && c in s.results && v == s.results[c])
         else if c in s.log then c in s.results && v == s.results[c]
         else !v
  }

  ghost predicate Inv(s: State, cap: nat) {
    && WakeInv(s, cap) && FifoInv(s)
    && forall c {:trigger CallOk(s, c)} :: c in s.calls ==> CallOk(s, c)
  }

  lemma PushNoDup(s: seq<Job>, x: Job)
    requires NoDup(s) && x !in s
    ensures NoDup(s + [x])
  {
  }

  /** Everything but the reasons to sleep. */
  ghost predicate CoreInv(s: State) {
    FifoInv(s) && forall c {:trigger CallOk(s, c)} :: c in s.calls ==> CallOk(s, c)
  }

  /** After a broadcast nobody sleeps on the queue condition, so nobody needs a reason. */
  lemma BroadcastRestores(s: State, cap: nat)
    requires CoreInv(s) && cap > 0 && |s.sh.queue| <= cap
    requires s.worker == Exited ==> s.sh.queue == [] && s.sh.stop
    ensures Inv(Broadcast(s), cap)
  {
    var t := Broadcast(s);
    forall c | c in t.calls ensures CallOk(t, c) {
      assert CallOk(s, c);
    }
  }

  lemma EnterKeeps(s: State, cap: nat, c: Job, async: bool)
    requires Inv(s, cap) && c !in s.calls
    ensures Inv(s.(calls := s.calls[c := Call(async, false, Entering)]), cap)
  {
    var t := s.(calls := s.calls[c := Call(async, false, Entering)]);
    forall k | k in t.calls ensures CallOk(t, k) {
      if k != c {
        assert CallOk(s, k);
      } else {
        assert c !in s.performed by {
          assert c in s.performed ==> c in s.accepted;
        }
      }
    }
  }

  /** Moving one submission between states that claim the same of it. */
  lemma SetPcKeeps(s: State, c: Job, pc: CallPc)
    requires CoreInv(s) && c in s.calls && CallOk(SetPc(s, c, pc), c)
    ensures CoreInv(SetPc(s, c, pc))
  {
    var t := SetPc(s, c, pc);
    forall k | k in t.calls ensures CallOk(t, k) {
      if k != c {
        assert CallOk(s, k);
      }
    }
  }

  lemma SpuriousKeeps(s: State, cap: nat, c: Job)
    requires Inv(s, cap) && c in s.calls && (s.calls[c].pc == AsleepFull || s.calls[c].pc == AsleepDone)
    ensures Inv(SetPc(s, c, if s.calls[c].pc == AsleepFull then WokenFull else WokenDone), cap)
  {
    assert CallOk(s, c);
    SetPcKeeps(s, c, if s.calls[c].pc == AsleepFull then WokenFull else WokenDone);
  }

  lemma CollectKeeps(s: State, cap: nat, c: Job)
    requires Inv(s, cap) && c in s.calls && s.calls[c].pc == WokenDone
    ensures Inv(if c !in s.done then SetPc(s, c, AsleepDone)
                else LeaveSubmit(SetPc(s, c, Returned(c in s.results && s.results[c])), cap), cap)
  {
    assert CallOk(s, c);
    if c !in s.done {
      SetPcKeeps(s, c, AsleepDone);
    } else {
      assert c in s.log;
      var t := SetPc(s, c, Returned(s.results[c]));
      SetPcKeeps(s, c, Returned(s.results[c]));
      if |s.sh.queue| < cap {
        BroadcastRestores(t, cap);
      }
    }
  }

  lemma StopKeeps(s: State, cap: nat)
    requires Inv(s, cap)
    ensures Inv(Broadcast(s.(sh := s.sh.(stop := true))), cap)
  {
    var t := s.(sh := s.sh.(stop := true));
    forall k | k in t.calls ensures CallOk(t, k) {
      assert CallOk(s, k);
    }
    BroadcastRestores(t, cap);
  }

  /** Refusing a submission releases its context once. */
  lemma RefuseKeeps(s: State, cap: nat, c: Job)
    requires Inv(s, cap) && c in s.calls && (s.calls[c].pc == Entering || s.calls[c].pc == WokenFull)
    ensures var t := SetPc(s, c, Returned(false));
            Inv(if s.calls[c].async then t.(released := t.released + [c]) else t, cap)
  {
    assert CallOk(s, c);
    var u := SetPc(s, c, Returned(false));
    var t := if s.calls[c].async then u.(released := u.released + [c]) else u;
    assert c !in s.released && c !in s.performed;
    PushNoDup(s.released, c);
    forall k | k in t.calls ensures CallOk(t, k) {
      if k != c {
        assert CallOk(s, k);
      }
    }
  }

  /** With room in the queue only the worker can be asleep, so the signal is the worker's. */
  lemma SignalReachesWorker(s: State, cap: nat, w: Wake)
    requires WakeInv(s, cap) && |s.sh.queue| < cap && CanReach(s, w)
    ensures !w.TheCall? && Signal(s, w).worker != AsleepEmpty
    ensures Signal(s, w) == s.(worker := if s.worker == AsleepEmpty then Ready else s.worker)
  {
  }

  /** Accepting a job: at the end of the queue and of the history, the worker awake. */
  lemma EnqueueKeeps(s: State, cap: nat, c: Job)
    requires Inv(s, cap) && c in s.calls && (s.calls[c].pc == Entering || s.calls[c].pc == WokenFull)
    requires |s.sh.queue| < cap && !s.sh.stop
    ensures var t := s.(sh := s.sh.(queue := s.sh.queue + [c]), accepted := s.accepted + [c],
                        worker := if s.worker == AsleepEmpty then Ready else s.worker);
            Inv(SetPc(t, c, if s.calls[c].async then Returned(true) else AsleepDone), cap)
  {
    assert CallOk(s, c);
    var t := s.(sh := s.sh.(queue := s.sh.queue + [c]), accepted := s.accepted + [c],
                worker := if s.worker == AsleepEmpty then Ready else s.worker);
    var u := SetPc(t, c, if s.calls[c].async then Returned(true) else AsleepDone);
    PushNoDup(s.accepted, c);
    assert c !in s.performed;
    assert u.accepted == u.performed + Hand(u.worker) + u.sh.queue;
    forall k | k in u.calls ensures CallOk(u, k) {
      if k != c {
        assert CallOk(s, k);
        assert k in u.accepted <==> k in s.accepted;
      }
    }
  }

  lemma SubmitKeeps(s: State, cap: nat, c: Job, w: Wake)
    requires Inv(s, cap) && c in s.calls && (s.calls[c].pc == Entering || s.calls[c].pc == WokenFull) && CanReach(s, w)
    ensures Inv(AfterSubmit(s, cap, c, w), cap)
  {
    var async := s.calls[c].async;
    match SubmitDecision(s.sh, cap, async)
    case SleepFull =>
      assert CallOk(s, c);
      SetPcKeeps(s, c, AsleepFull);
    case Refused =>
      RefuseKeeps(s, cap, c);
    case Enqueued =>
      SignalReachesWorker(s, cap, w);
      EnqueueKeeps(s, cap, c);
      var t := s.(sh := s.sh.(queue := s.sh.queue + [c]), accepted := s.accepted + [c]);
      assert Signal(t, w) == t.(worker := if s.worker == AsleepEmpty then Ready else s.worker);
      var u := SetPc(Signal(t, w), c, if async then Returned(true) else AsleepDone);
      if async && |u.sh.queue| < cap {
        BroadcastRestores(u, cap);
      }
  }

  lemma WorkerTurnKeeps(s: State, cap: nat)
    requires Inv(s, cap) && s.worker == Ready
    ensures Inv(AfterWorkerTurn(s), cap)
  {
    if s.sh.queue == [] {
      var t := s.(worker := if s.sh.stop then Exited else AsleepEmpty);
      forall k | k in t.calls ensures CallOk(t, k) {
        assert CallOk(s, k);
      }
    } else {
      var j := s.sh.queue[0];
      var t := s.(sh := s.sh.(queue := s.sh.queue[1..]), worker := Holding(j));
      assert s.sh.queue == [j] + s.sh.queue[1..];
      assert t.accepted == t.performed + Hand(t.worker) + t.sh.queue;
      forall k | k in t.calls ensures CallOk(t, k) {
        assert CallOk(s, k);
      }
      BroadcastRestores(t, cap);
      assert AfterWorkerTurn(s) == Broadcast(t);
    }
  }

  /** The job in hand has not been run before. */
  lemma HandIsFresh(s: State, cap: nat)
    requires Inv(s, cap) && s.worker.Holding?
    ensures var j := s.worker.job; j in s.calls && j in s.accepted && j !in s.performed && j !in s.log
  {
    var j := s.worker.job;
    var n := |s.performed|;
    assert s.accepted[n] == j;
    assert CallOk(s, j);
    assert forall i :: 0 <= i < n ==> s.performed[i] == s.accepted[i];
  }

  lemma PerformKeeps(s: State, cap: nat, r: bool)
    requires Inv(s, cap) && s.worker.Holding?
    ensures var j := s.worker.job;
            Inv(s.(worker := Finishing(j), results := s.results[j := r], performed := s.performed + [j], log := s.log + [j]), cap)
  {
    var j := s.worker.job;
    var t := s.(worker := Finishing(j), results := s.results[j := r], performed := s.performed + [j], log := s.log + [j]);
    HandIsFresh(s, cap);
    PushNoDup(s.log, j);
    assert t.accepted == t.performed + Hand(t.worker) + t.sh.queue;
    forall k | k in t.calls ensures CallOk(t, k) {
      assert CallOk(s, k);
    }
  }

  lemma InlineKeeps(s: State, cap: nat, c: Job, async: bool, r: bool)
    requires Inv(s, cap) && s.worker.Holding? && c !in s.calls
    ensures Inv(s.(calls := s.calls[c := Call(async, true, Returned(r))], results := s.results[c := r], log := s.log + [c],
                   released := s.released + (if async then [c] else [])), cap)
  {
    var t := s.(calls := s.calls[c := Call(async, true, Returned(r))], results := s.results[c := r], log := s.log + [c],
                released := s.released + (if async then [c] else []));
    assert c in s.performed ==> c in s.accepted;
    PushNoDup(s.log, c);
    PushNoDup(s.released, c);
    forall k | k in t.calls ensures CallOk(t, k) {
      if k != c {
        assert CallOk(s, k);
      }
    }
  }

  lemma FinishKeeps(s: State, cap: nat)
    requires Inv(s, cap) && s.worker.Finishing?
    ensures Inv(AfterFinish(s), cap)
  {
    var j := s.worker.job;
    var t := AfterFinish(s);
    assert j in s.accepted && j in s.calls;
    assert CallOk(s, j);
    PushNoDup(s.released, j);
    forall k | k in t.calls ensures CallOk(t, k) {
      if k != j {
        assert CallOk(s, k);
      }
    }
  }

  lemma NextKeeps(s: State, step: Step, s': State, cap: nat)
    requires Inv(s, cap) && Next(s, step, s', cap)
    ensures Inv(s', cap)
  {
    match step
    case Enter(c, async) => EnterKeeps(s, cap, c, async);
    case Submit(c, w) => SubmitKeeps(s, cap, c, w);
    case Collect(c) => CollectKeeps(s, cap, c);
    case WorkerTurn => WorkerTurnKeeps(s, cap);
    case Perform(r) => PerformKeeps(s, cap, r);
    case Inline(c, async, r) => InlineKeeps(s, cap, c, async, r);
    case Finish => FinishKeeps(s, cap);
    case Stop => StopKeeps(s, cap);
    case SpuriousCall(c) => SpuriousKeeps(s, cap, c);
    case SpuriousWorker =>
      forall k | k in s'.calls ensures CallOk(s', k) {
        assert CallOk(s, k);
      }
  }

  /** A session from db_service_start on: any interleaving of steps. */
  ghost predicate IsRun(states: seq<State>, steps: seq<Step>, cap: nat) {
    && |states| == |steps| + 1 && states[0] == InitState()
    && forall i :: 0 <= i < |steps| ==> Next(states[i], steps[i], states[i + 1], cap)
  }

  lemma {:induction false} RunInv(states: seq<State>, steps: seq<Step>, cap: nat, i: nat)
    requires IsRun(states, steps, cap) && cap > 0 && i < |states|
    ensures Inv(states[i], cap)
    decreases i
  {
    hide Inv, Next;
    if i > 0 {
      RunInv(states, steps, cap, i - 1);
      NextKeeps(states[i - 1], steps[i - 1], states[i], cap);
    } else {
      InitInv(cap);
    }
  }

  lemma InitInv(cap: nat)
    requires cap > 0
    ensures Inv(InitState(), cap)
  {
  }

  /** In every state of every run: a submitter asleep on the shared condition faces a full
      queue, a sleeping worker an empty one, both with no stop requested. */
  lemma NoLostWakeup(states: seq<State>, steps: seq<Step>, cap: nat, i: nat)
    requires IsRun(states, steps, cap) && cap > 0 && i < |states|
    ensures var s := states[i];
            && |s.sh.queue| <= cap
            && (forall c :: c in s.calls && s.calls[c].pc == AsleepFull ==> |s.sh.queue| == cap && !s.sh.stop)
            && (s.worker == AsleepEmpty ==> s.sh.queue == [] && !s.sh.stop)
  {
    RunInv(states, steps, cap, i);
  }

  /** A step that needs no luck: not a new arrival, not a stop, not a spurious wake-up. */
  predicate Advances(step: Step) {
    step.Submit? || step.Collect? || step.WorkerTurn? || step.Perform? || step.Finish?
  }

  /** Never is everyone asleep: while a submission is pending some thread can advance. */
  lemma SomeoneCanAdvance(s: State, cap: nat, c: Job) returns (step: Step, s': State)
    requires Inv(s, cap) && c in s.calls && !s.calls[c].pc.Returned?
    ensures Advances(step) && Next(s, step, s', cap)
  {
    hide CallOk;
    if s.worker == Ready {
      step, s' := WorkerTurn, AfterWorkerTurn(s);
    } else if s.worker.Holding? {
      var j := s.worker.job;
      step := Perform(true);
      s' := s.(worker := Finishing(j), results := s.results[j := true], performed := s.performed + [j], log := s.log + [j]);
    } else if s.worker.Finishing? {
      step, s' := Finish, AfterFinish(s);
    } else {
      IdleWorkerMeansAwake(s, cap, c);
      if s.calls[c].pc == WokenDone {
        step := Collect(c);
        s' := if c !in s.done then SetPc(s, c, AsleepDone)
              else LeaveSubmit(SetPc(s, c, Returned(c in s.results && s.results[c])), cap);
      } else {
        var w := SomeWake(s);
        step, s' := Submit(c, w), AfterSubmit(s, cap, c, w);
      }
    }
  }

  /** With the worker asleep or gone, a pending submission is awake. */
  lemma IdleWorkerMeansAwake(s: State, cap: nat, c: Job)
    requires Inv(s, cap) && c in s.calls && !s.calls[c].pc.Returned?
    requires s.worker == AsleepEmpty || s.worker == Exited
    ensures s.calls[c].pc == Entering || s.calls[c].pc == WokenFull || s.calls[c].pc == WokenDone
  {
    assert CallOk(s, c);
    assert s.accepted == s.performed;
  }

  lemma SomeWake(s: State) returns (w: Wake)
    ensures CanReach(s, w)
  {
    if s.worker == AsleepEmpty {
      w := TheWorker;
    } else if c :| c in s.calls && s.calls[c].pc == AsleepFull {
      w := TheCall(c);
    } else {
      w := Nobody;
    }
  }

  /** Histories only grow. */
  lemma HistoryGrows(s: State, step: Step, s': State, cap: nat)
    requires Next(s, step, s', cap)
    ensures s.accepted <= s'.accepted && s.performed <= s'.performed && s.log <= s'.log && s.released <= s'.released
    ensures s.sh.stop ==> s'.sh.stop && s'.accepted == s.accepted
  {
    hide AfterSubmit, AfterFinish;
    match step
    case Submit(c, w) => SubmitGrows(s, cap, c, w);
    case Finish => FinishGrows(s);
    case _ =>
  }

  lemma SubmitGrows(s: State, cap: nat, c: Job, w: Wake)
    requires c in s.calls
    ensures var s' := AfterSubmit(s, cap, c, w);
            && s.accepted <= s'.accepted && s'.performed == s.performed && s'.log == s.log && s.released <= s'.released
            && s'.sh.stop == s.sh.stop && (s.sh.stop ==> s'.accepted == s.accepted)
  {
  }

  lemma FinishGrows(s: State)
    requires s.worker.Finishing?
    ensures var s' := AfterFinish(s);
            && s'.accepted == s.accepted && s'.performed == s.performed && s'.log == s.log && s.released <= s'.released
            && s'.sh == s.sh
  {
  }

  /** Exactly once, in order: what has been performed is a prefix of what was accepted, no job
      is ever run twice, a job that was not accepted is never run unless the worker submitted it,
      and then it has run when the call returns. */
  lemma ExactlyOnceFifo(states: seq<State>, steps: seq<Step>, cap: nat, i: nat)
    requires IsRun(states, steps, cap) && cap > 0 && i < |states|
    ensures var s := states[i];
            && s.performed <= s.accepted && NoDup(s.accepted) && NoDup(s.log)
            && (forall c :: c in s.accepted ==> (c in s.log <==> c in s.performed))
            && (forall c :: c in s.calls && c !in s.accepted && !s.calls[c].direct ==> c !in s.log)
            && (forall c :: c in s.calls && s.calls[c].direct ==>
                  c in s.log && c in s.results && s.calls[c].pc == Returned(s.results[c]))
  {
    hide Next;
    RunInv(states, steps, cap, i);
    var s := states[i];
    assert s.performed == s.accepted[..|s.performed|];
    forall c | c in s.calls ensures CallOk(s, c) {
    }
  }

  lemma GoneStaysGone(s: State, step: Step, s': State, cap: nat)
    requires Next(s, step, s', cap) && s.worker == Exited
    ensures s'.worker == Exited
  {
  }

  /** Draining stop: once the worker has left, every accepted job has been performed, the queue is
      empty, and it stays so: nothing is accepted any more. */
  lemma {:induction false} DrainedOnExit(states: seq<State>, steps: seq<Step>, cap: nat, i: nat, k: nat)
    requires IsRun(states, steps, cap) && cap > 0 && i <= k < |states| && states[i].worker == Exited
    ensures var s := states[k];
            s.worker == Exited && s.sh.queue == [] && s.performed == s.accepted == states[i].accepted
    decreases k
  {
    hide Next, CallOk;
    RunInv(states, steps, cap, k);
    if i == k {
    } else {
      DrainedOnExit(states, steps, cap, i, k - 1);
      RunInv(states, steps, cap, k - 1);
      HistoryGrows(states[k - 1], steps[k - 1], states[k], cap);
      GoneStaysGone(states[k - 1], steps[k - 1], states[k], cap);
    }
  }

  /** A synchronous submission returns the result of its own job, after that job ran; a
      refused one returns false and never runs. */
  lemma ReturnsOwnResult(states: seq<State>, steps: seq<Step>, cap: nat, i: nat, c: Job)
    requires IsRun(states, steps, cap) && cap > 0 && i < |states|
    requires c in states[i].calls && states[i].calls[c].pc.Returned?
    ensures var s := states[i];
            var v := s.calls[c].pc.value;
            && (c in s.accepted && !s.calls[c].async ==> c in s.performed && c in s.results && v == s.results[c])
            && (c in s.accepted && s.calls[c].async ==> v)
            && (c !in s.accepted && c !in s.log ==> !v)
  {
    RunInv(states, steps, cap, i);
    assert CallOk(states[i], c);
  }

  /** What becomes of a submission at its turn, whoever else is about: it is queued and accepted whenever
      the service runs and there is room, and an asynchronous call has then returned true; it is
      refused once stop is set or, asynchronously, when the queue is full; otherwise it sleeps. */
  lemma SubmitOutcome(states: seq<State>, steps: seq<Step>, cap: nat, i: nat)
    requires IsRun(states, steps, cap) && cap > 0 && i < |steps| && steps[i].Submit?
    ensures var s, s', c := states[i], states[i + 1], steps[i].c;
            && c in s.calls && c in s'.calls
            && var async := s.calls[c].async;
               if !s.sh.stop && |s.sh.queue| < cap then
                 && s'.accepted == s.accepted + [c] && s'.sh == s.sh.(queue := s.sh.queue + [c])
                 && s'.released == s.released && s'.calls[c].pc == (if async then Returned(true) else AsleepDone)
               else
                 && s'.accepted == s.accepted && s'.sh == s.sh
                 && s'.released == s.released + (if async then [c] else [])
                 && s'.calls[c].pc == (if async || s.sh.stop then Returned(false) else AsleepFull)
  {
    RunInv(states, steps, cap, i);
    var s, c, w := states[i], steps[i].c, steps[i].wake;
    assert Next(s, steps[i], states[i + 1], cap);
    assert CallOk(s, c);
  }

  /** What becomes of a synchronous caller that wakes up: it returns its result once its job is done, and
      on its way out wakes everyone on the shared condition if the queue has room; otherwise it sleeps
      again. */
  lemma CollectOutcome(states: seq<State>, steps: seq<Step>, cap: nat, i: nat)
    requires IsRun(states, steps, cap) && cap > 0 && i < |steps| && steps[i].Collect?
    ensures var s, s', c := states[i], states[i + 1], steps[i].c;
            && c in s.calls && c in s'.calls && s'.sh == s.sh && s'.accepted == s.accepted
            && if c in s.done then
                 && c in s.results && s'.calls[c].pc == Returned(s.results[c])
                 && (|s.sh.queue| < cap ==>
                       s'.worker != AsleepEmpty && forall k :: k in s'.calls ==> s'.calls[k].pc != AsleepFull)
               else s'.calls[c].pc == AsleepDone
  {
    RunInv(states, steps, cap, i);
    assert Next(states[i], steps[i], states[i + 1], cap);
    assert CallOk(states[i], steps[i].c);
    assert steps[i].c in states[i].performed ==> steps[i].c in states[i].accepted;
  }

  /** What becomes of the worker at its turn: it takes the oldest job whenever there is one, and then
      nobody sleeps for room; it leaves on an empty queue once stop is set and sleeps otherwise. */
  lemma WorkerOutcome(states: seq<State>, steps: seq<Step>, cap: nat, i: nat)
    requires IsRun(states, steps, cap) && cap > 0 && i < |steps| && steps[i] == WorkerTurn
    ensures var s, s' := states[i], states[i + 1];
            if s.sh.queue != [] then
              && s'.worker == Holding(s.sh.queue[0]) && s'.sh == s.sh.(queue := s.sh.queue[1..])
              && forall c :: c in s'.calls ==> s'.calls[c].pc != AsleepFull
            else s'.sh == s.sh && s'.worker == if s.sh.stop then Exited else AsleepEmpty
  {
    assert Next(states[i], steps[i], states[i + 1], cap);
  }

  /** What becomes of the rest: a stop request sets stop, keeps the queue and leaves nobody asleep on the
      shared condition; handing a job back releases an asynchronous context, and marks a synchronous
      job done with its caller awake. */
  lemma StopOutcome(states: seq<State>, steps: seq<Step>, cap: nat, i: nat)
    requires IsRun(states, steps, cap) && i < |steps| && steps[i] == Stop
    ensures var s, s' := states[i], states[i + 1];
            && s'.sh == s.sh.(stop := true) && s'.accepted == s.accepted && s'.worker != AsleepEmpty
            && forall c :: c in s'.calls ==> s'.calls[c].pc != AsleepFull
  {
    assert Next(states[i], steps[i], states[i + 1], cap);
  }

  lemma FinishOutcome(states: seq<State>, steps: seq<Step>, cap: nat, i: nat)
    requires IsRun(states, steps, cap) && cap > 0 && i < |steps| && steps[i] == Finish
    ensures var s, s' := states[i], states[i + 1];
            && s.worker.Finishing? && s'.worker == Ready && s'.sh == s.sh
            && var j := s.worker.job;
               && j in s.calls && j in s'.calls
               && if s.calls[j].async then s'.released == s.released + [j] && s'.done == s.done
                  else s'.released == s.released && s'.done == s.done + {j} && s'.calls[j].pc != AsleepDone
  {
    assert Next(states[i], steps[i], states[i + 1], cap);
    RunInv(states, steps, cap, i);
    var j := states[i].worker.job;
    assert j in states[i].performed;
    assert j in states[i].accepted;
  }

  lemma ResultStays(s: State, step: Step, s': State, cap: nat, c: Job)
    requires Inv(s, cap) && Next(s, step, s', cap) && c in s.performed && c in s.results
    ensures c in s'.results && s'.results[c] == s.results[c]
  {
    if step.Perform? {
      HandIsFresh(s, cap);
    }
  }

  /** The result on record for a job is the one its own turn on the database gave. */
  lemma {:induction false} ResultIsPerformed(states: seq<State>, steps: seq<Step>, cap: nat, i: nat, c: Job) returns (k: nat)
    requires IsRun(states, steps, cap) && cap > 0 && i < |states| && c in states[i].performed
    ensures k < i && steps[k].Perform? && states[k].worker == Holding(c)
    ensures c in states[i].results && states[i].results[c] == steps[k].result
    decreases i
  {
    hide Inv, Next;
    if i == 0 {
      assert false;
    } else {
      var s, s' := states[i - 1], states[i];
      assert Next(s, steps[i - 1], s', cap);
      RunInv(states, steps, cap, i - 1);
      if c in s.performed {
        k := ResultIsPerformed(states, steps, cap, i - 1, c);
        ResultStays(s, steps[i - 1], s', cap, c);
      } else {
        PerformedNow(s, steps[i - 1], s', cap, c);
        k := i - 1;
      }
    }
  }

  lemma PerformedNow(s: State, step: Step, s': State, cap: nat, c: Job)
    requires Next(s, step, s', cap) && c !in s.performed && c in s'.performed
    ensures step.Perform? && s.worker == Holding(c) && c in s'.results && s'.results[c] == step.result
  {
  }

  /** The context of an asynchronous job is released exactly once: after the job was handed
      back if it was accepted, when the call returned if not. */
  lemma ReleasedOnce(states: seq<State>, steps: seq<Step>, cap: nat, i: nat, c: Job)
    requires IsRun(states, steps, cap) && cap > 0 && i < |states| && c in states[i].calls
    ensures var s := states[i];
            && NoDup(s.released)
            && (c in s.released <==>
                  s.calls[c].async && (if c in s.accepted then HandedBack(s, c) else s.calls[c].pc.Returned?))
  {
    RunInv(states, steps, cap, i);
    var s := states[i];
    assert CallOk(s, c);
    assert c in s.performed ==> c in s.accepted;
  }

  predicate WorkerStep(step: Step) {
    step.WorkerTurn? || step.Perform? || step.Finish?
  }

  ghost predicate Pending(s: State, j: Job) {
    j in s.accepted && j !in s.performed
  }

  ghost function IndexOf(s: seq<Job>, j: Job): (i: nat)
    requires j in s
    ensures i < |s| && s[i] == j
  {
    var i :| 0 <= i < |s| && s[i] == j; i
  }

  /** Worker steps left, at most, until job j has been performed. */
  ghost function Rank(s: State, j: Job): int
    requires j in s.accepted
  {
    3 * (IndexOf(s.accepted, j) - |s.performed|) +
    (match s.worker case Finishing(_) => 3 case Holding(_) => 1 case _ => 2)
  }

  /** A pending job keeps the worker awake with a step to take. */
  lemma PendingKeepsWorkerBusy(s: State, cap: nat, j: Job)
    requires Inv(s, cap) && Pending(s, j)
    ensures s.worker == Ready || s.worker.Holding? || s.worker.Finishing?
    ensures s.worker == Ready ==> s.sh.queue != []
    ensures Rank(s, j) > 0
  {
    var i := IndexOf(s.accepted, j);
    assert i >= |s.performed|;
  }

  lemma WorkerMoves(s: State, step: Step, s': State, cap: nat)
    requires Next(s, step, s', cap) && s.worker != AsleepEmpty
    ensures !WorkerStep(step) ==> s'.worker == s.worker && s'.performed == s.performed
    ensures step.WorkerTurn? ==> s.worker == Ready && s'.performed == s.performed && (s.sh.queue != [] ==> s'.worker.Holding?)
    ensures step.Perform? ==> s.worker.Holding? && s'.worker.Finishing? && |s'.performed| == |s.performed| + 1
    ensures step.Finish? ==> s.worker.Finishing? && s'.worker == Ready && s'.performed == s.performed
  {
  }

  /** No step delays a pending job, and every worker step brings it closer. */
  lemma RankFalls(s: State, step: Step, s': State, cap: nat, j: Job)
    requires Inv(s, cap) && Next(s, step, s', cap) && Pending(s, j)
    ensures j in s'.accepted
    ensures Pending(s', j) ==> Rank(s', j) <= Rank(s, j) - (if WorkerStep(step) then 1 else 0)
  {
    hide Next;
    PendingKeepsWorkerBusy(s, cap, j);
    HistoryGrows(s, step, s', cap);
    WorkerMoves(s, step, s', cap);
    NextKeeps(s, step, s', cap);
    SameIndex(s, s', cap, j);
  }

  lemma SameIndex(s: State, s': State, cap: nat, j: Job)
    requires Inv(s', cap) && s.accepted <= s'.accepted && j in s.accepted
    ensures j in s'.accepted && IndexOf(s'.accepted, j) == IndexOf(s.accepted, j)
  {
    hide CallOk;
    assert s'.accepted[IndexOf(s.accepted, j)] == j;
  }

  ghost function WorkerSteps(steps: seq<Step>, a: nat, b: nat): nat
    requires a <= b <= |steps|
    decreases b - a
  {
    if a == b then 0 else (if WorkerStep(steps[a]) then 1 else 0) + WorkerSteps(steps, a + 1, b)
  }

  /** Every accepted job is performed once the worker has taken Rank steps, however the
      submitters and the wake-ups interleave. */
  lemma {:induction false} AcceptedIsPerformed(states: seq<State>, steps: seq<Step>, cap: nat, a: nat, b: nat, j: Job)
    requires IsRun(states, steps, cap) && cap > 0 && a <= b < |states| && j in states[a].accepted
    requires WorkerSteps(steps, a, b) >= Rank(states[a], j)
    ensures j in states[b].performed
    decreases b - a
  {
    hide Next, Inv, Rank;
    RunInv(states, steps, cap, a);
    if j in states[a].performed {
      PerformedStays(states, steps, cap, a, b, j);
    } else {
      PendingKeepsWorkerBusy(states[a], cap, j);
      RankFalls(states[a], steps[a], states[a + 1], cap, j);
      if j in states[a + 1].performed {
        PerformedStays(states, steps, cap, a + 1, b, j);
      } else {
        AcceptedIsPerformed(states, steps, cap, a + 1, b, j);
      }
    }
  }

  lemma {:induction false} PerformedStays(states: seq<State>, steps: seq<Step>, cap: nat, a: nat, b: nat, j: Job)
    requires IsRun(states, steps, cap) && a <= b < |states| && j in states[a].performed
    ensures j in states[b].performed
    decreases b - a
  {
    hide Next;
    if a == b {
    } else {
      HistoryGrows(states[a], steps[a], states[a + 1], cap);
      PerformedStays(states, steps, cap, a + 1, b, j);
    }
  }

  /** Worker steps left, at most, until an accepted job has been handed back. */
  ghost function ReturnRank(s: State, j: Job): int
    requires j in s.accepted
  {
    if j !in s.performed then Rank(s, j) + 1 else if s.worker == Finishing(j) then 1 else 0
  }

  /** No step delays the return of an accepted job, and every worker step brings it closer. */
  lemma ReturnRankFalls(s: State, step: Step, s': State, cap: nat, j: Job)
    requires Inv(s, cap) && Next(s, step, s', cap) && j in s.accepted && ReturnRank(s, j) > 0
    ensures j in s'.accepted && ReturnRank(s', j) <= ReturnRank(s, j) - (if WorkerStep(step) then 1 else 0)
  {
    hide Next, Rank, Inv;
    HistoryGrows(s, step, s', cap);
    if j !in s.performed {
      PendingKeepsWorkerBusy(s, cap, j);
      RankFalls(s, step, s', cap, j);
      if j in s'.performed {
        OnlyPerformGrows(s, step, s', cap, j);
      }
    } else {
      WorkerMoves(s, step, s', cap);
    }
  }

  /** A job joins the performed ones when the worker performs it, and is then in its hand. */
  lemma OnlyPerformGrows(s: State, step: Step, s': State, cap: nat, j: Job)
    requires Next(s, step, s', cap) && j !in s.performed && j in s'.performed
    ensures step.Perform? && s'.worker == Finishing(j)
  {
  }

  lemma {:induction false} HandedBackStays(states: seq<State>, steps: seq<Step>, cap: nat, a: nat, b: nat, j: Job)
    requires IsRun(states, steps, cap) && cap > 0 && a <= b < |states| && j in states[a].accepted && HandedBack(states[a], j)
    ensures HandedBack(states[b], j)
    decreases b - a
  {
    hide Next, Inv;
    if a == b {
    } else {
      RunInv(states, steps, cap, a);
      NotHeldAgain(states[a], steps[a], states[a + 1], cap, j);
      HandedBackStays(states, steps, cap, a + 1, b, j);
    }
  }

  lemma NotHeldAgain(s: State, step: Step, s': State, cap: nat, j: Job)
    requires Inv(s, cap) && Next(s, step, s', cap) && j in s.accepted && HandedBack(s, j)
    ensures j in s'.accepted && HandedBack(s', j)
  {
    HistoryGrows(s, step, s', cap);
    if step.Perform? {
      HandIsFresh(s, cap);
    }
  }

  /** Every accepted job has been handed back once the worker has taken ReturnRank steps. */
  lemma {:induction false} AcceptedIsHandedBack(states: seq<State>, steps: seq<Step>, cap: nat, a: nat, b: nat, j: Job)
    requires IsRun(states, steps, cap) && cap > 0 && a <= b < |states| && j in states[a].accepted
    requires WorkerSteps(steps, a, b) >= ReturnRank(states[a], j)
    ensures j in states[b].accepted && HandedBack(states[b], j)
    decreases b - a
  {
    hide Next, Inv, Rank;
    RunInv(states, steps, cap, a);
    AcceptedStays(states, steps, cap, a, b, j);
    if ReturnRank(states[a], j) <= 0 {
      RankNotNegative(states[a], cap, j);
      HandedBackStays(states, steps, cap, a, b, j);
    } else {
      ReturnRankFalls(states[a], steps[a], states[a + 1], cap, j);
      AcceptedIsHandedBack(states, steps, cap, a + 1, b, j);
    }
  }

  lemma RankNotNegative(s: State, cap: nat, j: Job)
    requires Inv(s, cap) && j in s.accepted && ReturnRank(s, j) <= 0
    ensures HandedBack(s, j)
  {
    hide Rank;
    if j !in s.performed {
      PendingKeepsWorkerBusy(s, cap, j);
    }
  }

  lemma {:induction false} AcceptedStays(states: seq<State>, steps: seq<Step>, cap: nat, a: nat, b: nat, j: Job)
    requires IsRun(states, steps, cap) && a <= b < |states| && j in states[a].accepted
    ensures j in states[b].accepted
    decreases b - a
  {
    hide Next;
    if a == b {
    } else {
      HistoryGrows(states[a], steps[a], states[a + 1], cap);
      AcceptedStays(states, steps, cap, a + 1, b, j);
    }
  }

  /** A synchronous submission that was accepted returns: once the worker has taken ReturnRank steps its
      caller is awake, if it has not returned already, and its next turn at the mutex makes it return
      the result of its own job. */
  lemma AcceptedReturns(states: seq<State>, steps: seq<Step>, cap: nat, a: nat, b: nat, j: Job)
    requires IsRun(states, steps, cap) && cap > 0 && a <= b < |states|
    requires j in states[a].accepted && j in states[b].calls && !states[b].calls[j].async
    requires WorkerSteps(steps, a, b) >= ReturnRank(states[a], j)
    ensures j in states[b].results
    ensures states[b].calls[j].pc == WokenDone || states[b].calls[j].pc == Returned(states[b].results[j])
    ensures b < |steps| && steps[b] == Collect(j) ==>
              j in states[b + 1].calls && states[b + 1].calls[j].pc == Returned(states[b].results[j])
  {
    AcceptedIsHandedBack(states, steps, cap, a, b, j);
    RunInv(states, steps, cap, b);
    var s := states[b];
    assert CallOk(s, j);
    if b < |steps| && steps[b] == Collect(j) {
      assert Next(s, steps[b], states[b + 1], cap);
    }
  }
}
