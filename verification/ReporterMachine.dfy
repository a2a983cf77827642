/** The M3 reporter as a concurrent state machine.  Any number of producers enqueue, any
    thread flushes, one thread destroys the reporter, and the background thread executes
    `Run`; a run is any interleaving of their atomic steps.

    `run_mutex_` is the only lock held across steps: the background thread keeps it from
    the top of its loop until it waits or returns, so `Enqueue` and the destructor's
    critical section can only step while it does not.  `queue_mutex_` is taken by the
    background thread alone, and `emission_mutex_` is never held across a step. */
module ReporterMachine {
  import opened Wrappers
  import opened M3Types
  import opened ReporterState

  /** Where the background thread is.  `m` is the metric in `Process`; `draining` tells the
      shutdown branch, which pops a metric only after processing it. */
  datatype RunPc =
    | Starting                                  // not yet holding run_mutex_
    | Checking                                  // testing run_
    | Dequeuing                                 // top of the inner loop
    | Draining                                  // top of the shutdown loop
    | Estimating(m: Metric, draining: bool)     // Process: showing m to the estimator
    | Overflowing(m: Metric, draining: bool)    // Process: about to flush
    | Resetting(m: Metric, draining: bool)      // Process: about to restart the estimator
    | Appending(m: Metric, draining: bool)      // Process: about to extend the batch
    | Popping                                   // shutdown loop: about to pop
    | FinalFlush                                // shutdown branch: about to flush
    | AboutToWait
    | Waiting(notified: bool)                   // run_mutex_ released
    | Finished

  datatype DtorPc = NotCalled | Cleared | Notified | Joined

  datatype State = State(store: Store, pc: RunPc, dtor: DtorPc)

  datatype Step =
    | RunStep(delivered: bool)    // the background thread's next step
    | SpuriousWake
    | Enqueue(m: Metric)
    | Flush(delivered: bool)      // by any thread
    | DtorStep

  predicate HoldsRunMutex(pc: RunPc) {
    !pc.Starting? && !pc.Waiting? && !pc.Finished?
  }

  predicate InProcess(pc: RunPc) {
    pc.Estimating? || pc.Overflowing? || pc.Resetting? || pc.Appending?
  }

  const START := State(INITIAL, Starting, NotCalled)

  ghost predicate Enabled(s: State, step: Step) {
    match step
    case RunStep(_) => s.pc != Waiting(false) && s.pc != Finished
    case SpuriousWake => s.pc == Waiting(false)
    case Enqueue(m) => !HoldsRunMutex(s.pc) && FromReport(m) && Encodable(m)
    case Flush(_) => true
    case DtorStep =>
      match s.dtor
      case NotCalled => !HoldsRunMutex(s.pc)
      case Cleared => true
      case Notified => s.pc == Finished
      case Joined => false
  }

  function RunNext(c: Config, s: State, delivered: bool): State {
    var store := s.store;
    match s.pc
    case Starting => s.(pc := Checking)
    case Checking => s.(pc := if store.run then Dequeuing else Draining)
    case Dequeuing =>
      if store.queue == [] then s.(pc := AboutToWait)
      else s.(store := store.(queue := store.queue[1..]), pc := Estimating(store.queue[0], false))
    case Draining =>
      if store.queue == [] then s.(pc := FinalFlush) else s.(pc := Estimating(store.queue[0], true))
    case Estimating(m, draining) =>
      var store' := Estimate(store, m);
      s.(store := store', pc := if store'.written > c.Limit() then Overflowing(m, draining) else Appending(m, draining))
    case Overflowing(m, draining) => s.(store := FlushBatch(store, delivered), pc := Resetting(m, draining))
    case Resetting(m, draining) => s.(store := ResetEstimate(c, store, m), pc := Appending(m, draining))
    case Appending(m, draining) => s.(store := AppendMetric(store, m), pc := if draining then Popping else Dequeuing)
    case Popping => s.(store := store.(queue := if store.queue == [] then [] else store.queue[1..]), pc := Draining)
    case FinalFlush => s.(store := FlushBatch(store, delivered), pc := Finished)
    case AboutToWait => s.(pc := Waiting(false))
    case Waiting(notified) => s.(pc := Checking)
    case Finished => s
  }

  function Next(c: Config, s: State, step: Step): State {
    match step
    case RunStep(delivered) => RunNext(c, s, delivered)
    case SpuriousWake => s.(pc := Waiting(true))
    case Enqueue(m) =>
      // A refused metric is not announced.
      s.(store := EnqueueMetric(c, s.store, m), pc := if Accepts(c, s.store) then Notify(s.pc) else s.pc)
    case Flush(delivered) => s.(store := FlushBatch(s.store, delivered))
    case DtorStep =>
      match s.dtor
      case NotCalled => s.(store := s.store.(run := false), dtor := Cleared)
      case Cleared => s.(pc := Notify(s.pc), dtor := Notified)
      case Notified => s.(dtor := Joined)
      case Joined => s
  }

  /** `notify_one`: wakes the background thread if it is waiting, and is lost otherwise. */
  function Notify(pc: RunPc): RunPc {
    if pc.Waiting? then Waiting(true) else pc
  }

  /** The state after a sequence of steps, if each was enabled when its turn came. */
  ghost function Execute(c: Config, s: State, steps: seq<Step>): Option<State> {
    if |steps| == 0 then Some(s)
    else
      var last := |steps| - 1;
      match Execute(c, s, steps[..last])
      case None => None
      case Some(s') => if Enabled(s', steps[last]) then Some(Next(c, s', steps[last])) else None
  }
}
