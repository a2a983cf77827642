/** `GaugeImpl`: two atomics, written in two steps by any number of updaters and read in
    two steps by one reporter at a time. */
module Gauges {
  import opened Wrappers

  class GaugeImpl {
    var current: real
    var updated: bool
    ghost var stores: seq<real>
    ghost var read: nat
    ghost var flags: nat
    ghost var log: seq<real>

    /** The object, between two calls, as the machine's state. */
    ghost function Abs(): Gauge
      reads this
    {
      Gauge(current, updated, 0, false, stores, read, flags, log)
    }

    ghost predicate Valid()
      reads this
    {
      Inv(Abs())
    }

    constructor ()
      ensures Valid() && Abs() == NEW_GAUGE
    {
      current, updated := 0.0, false;
      stores, read, flags, log := [], 0, 0, [];
    }

    /** The machine's two steps of an updater. */
    method Update(value: real)
      requires Valid()
      modifies this
      ensures Valid() && current == value && updated
      ensures Abs() == Next(Next(old(Abs()), Store(value)), Raise)
    {
      current := value;
      stores := stores + [value];
      updated := true;
      flags := flags + 1;
    }

    /** The value handed to the reporter, which takes the machine's two steps if the flag is
        up and the first one if it is not.  Without a reporter the flag is cleared all the
        same, and nobody reads the value. */
    method Report(hasReporter: bool) returns (reported: Option<real>)
      requires Valid()
      modifies this`updated, this`read, this`log
      ensures !updated
      ensures reported == if old(updated) && hasReporter then Some(current) else None
      ensures hasReporter ==> Valid() && Abs() == ReportAlone(old(Abs()))
      ensures !hasReporter ==> Abs() == old(Abs()).(updated := false)
    {
      var exchanged := updated;
      if exchanged {
        updated := false;
      }
      if exchanged && hasReporter {
        reported := Some(current);
        read := |stores|;
        log := log + [current];
      } else {
        reported := None;
      }
    }
  }

  // ----------------------------------------------------- updaters and a reporter

  /** `between` counts the updaters between their two stores; `claimed` says that the
      reporter is between its compare-exchange and its load.  `stores`, `read` (how many
      stores the last load saw), `flags` and `reported` are histories. */
  datatype Gauge = Gauge(
    current: real, updated: bool, between: nat, claimed: bool,
    stores: seq<real>, read: nat, flags: nat, reported: seq<real>)

  const NEW_GAUGE := Gauge(0.0, false, 0, false, [], 0, 0, [])

  datatype Step =
    | Store(value: real)   // Update: current_ = value
    | Raise                // Update: updated_ = true
    | Exchange             // Report: the compare-exchange, which may fail
    | Load                 // Report: the load of current_

  predicate Enabled(g: Gauge, step: Step) {
    match step
    case Store(_) => true
    case Raise => g.between > 0
    case Exchange => !g.claimed
    case Load => g.claimed
  }

  function Next(g: Gauge, step: Step): Gauge
    requires Enabled(g, step)
  {
    match step
    case Store(value) => g.(current := value, between := g.between + 1, stores := g.stores + [value])
    case Raise => g.(updated := true, between := g.between - 1, flags := g.flags + 1)
    case Exchange => if g.updated then g.(updated := false, claimed := true) else g
    case Load => g.(claimed := false, read := |g.stores|, reported := g.reported + [g.current])
  }

  /** A report that nothing interrupts. */
  function ReportAlone(g: Gauge): Gauge
    requires !g.claimed
  {
    if g.updated then Next(Next(g, Exchange), Load) else Next(g, Exchange)
  }

  function Execute(g: Gauge, steps: seq<Step>): Option<Gauge> {
    if |steps| == 0 then Some(g)
    else
      var last := |steps| - 1;
      match Execute(g, steps[..last])
      case None => None
      case Some(g') => if Enabled(g', steps[last]) then Some(Next(g', steps[last])) else None
  }

  ghost predicate Inv(g: Gauge) {
    && g.read <= |g.stores|
    && g.current == (if |g.stores| == 0 then 0.0 else g.stores[|g.stores| - 1])
    && (g.updated || g.claimed || g.between > 0 ==> |g.stores| > 0)
    && (g.read < |g.stores| ==> g.updated || g.claimed || g.between > 0)
    && (forall v :: v in g.reported ==> v in g.stores)
    && |g.reported| + (if g.claimed then 1 else 0) + (if g.updated then 1 else 0) <= g.flags
    && g.flags + g.between == |g.stores|
  }

  lemma InvKept(g: Gauge, step: Step)
    requires Inv(g) && Enabled(g, step)
    ensures Inv(Next(g, step))
  {
  }

  lemma {:induction false} InvHolds(steps: seq<Step>)
    ensures var r := Execute(NEW_GAUGE, steps); r.Some? ==> Inv(r.value)
  {
    if |steps| > 0 {
      var last := |steps| - 1;
      InvHolds(steps[..last]);
      var r := Execute(NEW_GAUGE, steps[..last]);
      if r.Some? && Enabled(r.value, steps[last]) {
        InvKept(r.value, steps[last]);
      }
    }
  }

  /** The values stored in a run, in order. */
  function Stored(steps: seq<Step>): seq<real> {
    if |steps| == 0 then []
    else
      var last := |steps| - 1;
      Stored(steps[..last]) + match steps[last] case Store(value) => [value]
                                                case _ => []
  }

  lemma {:induction false} StoresCounted(steps: seq<Step>)
    ensures var r := Execute(NEW_GAUGE, steps); r.Some? ==> r.value.stores == Stored(steps)
  {
    if |steps| > 0 {
      StoresCounted(steps[..|steps| - 1]);
    }
  }

  /** The latest value is never lost: if the newest stored value has not been read for
      reporting, then the flag is set, or an updater is between its stores, or the reporter
      is between its two steps. */
  lemma {:induction false} LatestNotLost(steps: seq<Step>, g: Gauge)
    requires Execute(NEW_GAUGE, steps) == Some(g)
    ensures g.stores == Stored(steps)
    ensures g.current == if Stored(steps) == [] then 0.0 else Stored(steps)[|Stored(steps)| - 1]
    ensures g.read < |g.stores| ==> g.updated || g.between > 0 || g.claimed
  {
    InvHolds(steps);
    StoresCounted(steps);
  }

  /** Only stored values are reported, and at most one report for each update. */
  lemma ReportsAreUpdates(steps: seq<Step>, g: Gauge)
    requires Execute(NEW_GAUGE, steps) == Some(g)
    ensures forall v :: v in g.reported ==> v in Stored(steps)
    ensures |g.reported| <= |Stored(steps)|
  {
    InvHolds(steps);
    StoresCounted(steps);
  }

  /** Once the updaters are done, one more report settles it: either it reports the newest
      value, or that value had been read before. */
  lemma QuietReportSettles(steps: seq<Step>, g: Gauge, after: Gauge)
    requires Execute(NEW_GAUGE, steps) == Some(g) && g.between == 0 && !g.claimed
    requires after == ReportAlone(g)
    ensures after.read == |g.stores| && after.stores == g.stores
    ensures g.updated ==> g.stores != [] && after.reported == g.reported + [g.stores[|g.stores| - 1]]
    ensures !g.updated ==> after.reported == g.reported
  {
    InvHolds(steps);
  }
}
