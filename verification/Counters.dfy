/** `CounterImpl`, and any number of counters under concurrent increments and reports.
    Increments and the load in `Value` are single atomic steps; `Value` itself is called
    by one reporting thread at a time. */
module Counters {
  import opened Wrappers
  import opened CompactProtocol

  function Wrap64(n: int): (r: Int64)
    ensures -TWO_63 <= n < TWO_63 ==> r == n
    ensures (n - r) % 0x1_0000_0000_0000_0000 == 0
  {
    (n + 0x8000_0000_0000_0000) % 0x1_0000_0000_0000_0000 - 0x8000_0000_0000_0000
  }

  lemma WrapAdd(a: int, b: int)
    ensures Wrap64(Wrap64(a) + b) == Wrap64(a + b)
  {
    var q := (a + 0x8000_0000_0000_0000) / 0x1_0000_0000_0000_0000;
    assert Wrap64(a) == a - q * 0x1_0000_0000_0000_0000;
  }

  datatype Cell = Cell(previous: Int64, current: Int64) {
    /** What the next report will carry. */
    function Pending(): int {
      current - previous
    }

    /** The atomic addition of `Inc`. */
    function Added(delta: int): Cell {
      Cell(previous, Wrap64(current + delta))
    }

    /** What `Value` leaves behind. */
    function Settled(): Cell {
      Cell(current, current)
    }
  }

  class CounterImpl {
    var previous: Int64
    var current: Int64

    function Abs(): Cell
      reads this
    {
      Cell(previous, current)
    }

    constructor ()
      ensures Abs() == Cell(0, 0)
    {
      previous, current := 0, 0;
    }

    /** The atomic addition wraps around. */
    method Inc(delta: Int64)
      modifies this`current
      ensures Abs() == old(Abs()).Added(delta) && current == Wrap64(old(current) + delta)
      ensures forall b: Bank<nat>, i :: IsCell(b, i, old(Abs())) ==> IsCell(Next(b, Step.Inc(i, delta)), i, Abs())
    {
      current := Wrap64(current + delta);
    }

    /** The subtraction of signed integers must not overflow. */
    method Value() returns (delta: Int64)
      requires -TWO_63 <= Abs().Pending() < TWO_63
      modifies this`previous
      ensures delta == old(Abs()).Pending() == current - old(previous) && previous == current
      ensures Abs() == old(Abs()).Settled() && Abs().Pending() == 0
      ensures forall b: Bank<nat>, i :: IsCell(b, i, old(Abs())) ==>
        var b' := Next(b, Step.Report(i));
        IsCell(b', i, Abs()) && b'.log == b.log + if delta != 0 then [(i, delta)] else []
    {
      var now := current;
      var before := previous;
      previous := now;
      delta := now - before;
    }

    /** The value handed to a reporter, if there is one and there is anything to say. */
    method Report(hasReporter: bool) returns (reported: Option<Int64>)
      requires -TWO_63 <= Abs().Pending() < TWO_63
      modifies this`previous
      ensures Abs() == old(Abs()).Settled()
      ensures previous == current
      ensures reported == if current != old(previous) && hasReporter then Some(current - old(previous)) else None
    {
      var val := Value();
      if val != 0 && hasReporter {
        reported := Some(val);
      } else {
        reported := None;
      }
    }
  }

  // --------------------------------------------------------- many counters at once

  /** Counters with labels.  Several counters may share a label: what is reported under a
      label does not say which of them it came from.  `incs` and `log` are the histories of
      increments and of reports, by counter. */
  datatype Bank<L> = Bank(cells: seq<Cell>, labels: seq<L>, incs: seq<(nat, int)>, log: seq<(nat, int)>)

  datatype Step<L> = Create(key: L) | Inc(i: nat, delta: int) | Report(i: nat)

  predicate Enabled<L>(b: Bank<L>, step: Step<L>) {
    match step
    case Create(_) => true
    case Inc(i, _) => i < |b.cells|
    case Report(i) => i < |b.cells| && -TWO_63 <= b.cells[i].Pending() < TWO_63
  }

  predicate Shaped<L>(b: Bank<L>) {
    |b.labels| == |b.cells|
  }

  function Next<L>(b: Bank<L>, step: Step<L>): (b': Bank<L>)
    requires Shaped(b) && Enabled(b, step)
    ensures Shaped(b')
  {
    match step
    case Create(key) => b.(cells := b.cells + [Cell(0, 0)], labels := b.labels + [key])
    case Inc(i, delta) =>
      b.(cells := b.cells[i := b.cells[i].Added(delta)], incs := b.incs + [(i, delta)])
    case Report(i) =>
      var pending := b.cells[i].Pending();
      b.(cells := b.cells[i := b.cells[i].Settled()],
         log := if pending != 0 then b.log + [(i, pending)] else b.log)
  }

  /** Some counter of the bank, whatever the others and the histories are. */
  ghost predicate IsCell<L>(b: Bank<L>, i: nat, cell: Cell) {
    Shaped(b) && i < |b.cells| && b.cells[i] == cell
  }

  function EmptyBank<L>(): Bank<L> {
    Bank([], [], [], [])
  }

  function Execute<L>(b: Bank<L>, steps: seq<Step<L>>): (r: Option<Bank<L>>)
    requires Shaped(b)
    ensures r.Some? ==> Shaped(r.value)
  {
    if |steps| == 0 then Some(b)
    else
      var last := |steps| - 1;
      match Execute(b, steps[..last])
      case None => None
      case Some(b') => if Enabled(b', steps[last]) then Some(Next(b', steps[last])) else None
  }

  lemma ExecuteMore<L>(b: Bank<L>, steps: seq<Step<L>>, b': Bank<L>, step: Step<L>)
    requires Shaped(b) && Execute(b, steps) == Some(b') && Enabled(b', step)
    ensures Execute(b, steps + [step]) == Some(Next(b', step))
  {
    assert (steps + [step])[..|steps|] == steps;
  }

  /** The sum of the entries of counter `i`. */
  function SumFor(entries: seq<(nat, int)>, i: nat): int {
    if |entries| == 0 then 0
    else
      var last := |entries| - 1;
      SumFor(entries[..last], i) + if entries[last].0 == i then entries[last].1 else 0
  }

  /** The sum of the entries of all counters with a label. */
  function SumLabelled<L(==)>(entries: seq<(nat, int)>, labels: seq<L>, key: L): int {
    if |entries| == 0 then 0
    else
      var last := |entries| - 1;
      SumLabelled(entries[..last], labels, key) +
      if entries[last].0 < |labels| && labels[entries[last].0] == key then entries[last].1 else 0
  }

  function PendingLabelled<L(==)>(cells: seq<Cell>, labels: seq<L>, key: L): int
    requires |cells| == |labels|
  {
    if |cells| == 0 then 0
    else
      var last := |cells| - 1;
      PendingLabelled(cells[..last], labels[..last], key) + if labels[last] == key then cells[last].Pending() else 0
  }

  lemma SumForAppend(entries: seq<(nat, int)>, e: (nat, int), i: nat)
    ensures SumFor(entries + [e], i) == SumFor(entries, i) + if e.0 == i then e.1 else 0
  {
    assert (entries + [e])[..|entries|] == entries;
  }

  ghost predicate InRange(entries: seq<(nat, int)>, n: nat) {
    forall j :: 0 <= j < |entries| ==> entries[j].0 < n
  }

  lemma {:induction false} SumForAbsent(entries: seq<(nat, int)>, i: nat)
    requires InRange(entries, i)
    ensures SumFor(entries, i) == 0
  {
    if |entries| > 0 { SumForAbsent(entries[..|entries| - 1], i); }
  }

  /** Counter by counter: the reports so far add up to `previous_`, and `current_` is what
      the increments add up to in 64 bits. */
  ghost predicate Inv<L>(b: Bank<L>) {
    && Shaped(b)
    && InRange(b.incs, |b.cells|) && InRange(b.log, |b.cells|)
    && forall i :: 0 <= i < |b.cells| ==>
      SumFor(b.log, i) == b.cells[i].previous && Wrap64(SumFor(b.incs, i)) == b.cells[i].current
  }

  lemma InvKept<L>(b: Bank<L>, step: Step<L>)
    requires Inv(b) && Enabled(b, step)
    ensures Inv(Next(b, step))
  {
    var b' := Next(b, step);
    forall i | 0 <= i < |b'.cells|
      ensures SumFor(b'.log, i) == b'.cells[i].previous && Wrap64(SumFor(b'.incs, i)) == b'.cells[i].current
    {
      match step
      case Create(_) =>
        if i == |b.cells| {
          SumForAbsent(b.incs, i);
          SumForAbsent(b.log, i);
        }
      case Inc(k, delta) =>
        SumForAppend(b.incs, (k, delta), i);
        WrapAdd(SumFor(b.incs, i), delta);
      case Report(k) =>
        SumForAppend(b.log, (k, b.cells[k].Pending()), i);
    }
  }

  lemma {:induction false} InvHolds<L>(b: Bank<L>, steps: seq<Step<L>>)
    requires Inv(b)
    ensures var r := Execute(b, steps); r.Some? ==> Inv(r.value)
  {
    if |steps| > 0 {
      var last := |steps| - 1;
      InvHolds(b, steps[..last]);
      var r := Execute(b, steps[..last]);
      if r.Some? && Enabled(r.value, steps[last]) {
        InvKept(r.value, steps[last]);
      }
    }
  }

  /** Per counter, in every run: reported plus pending is the 64-bit sum of the increments. */
  lemma CounterConserved<L>(steps: seq<Step<L>>, b: Bank<L>, i: nat)
    requires Execute(EmptyBank(), steps) == Some(b) && i < |b.cells|
    ensures SumFor(b.log, i) + b.cells[i].Pending() == Wrap64(SumFor(Increments(steps), i))
  {
    InvHolds(EmptyBank<L>(), steps);
    IncrementsCounted(EmptyBank<L>(), steps);
    assert [] + Increments(steps) == Increments(steps);
  }

  /** What the increments of a run say. */
  function Increments<L>(steps: seq<Step<L>>): seq<(nat, int)> {
    if |steps| == 0 then []
    else
      var last := |steps| - 1;
      Increments(steps[..last]) + match steps[last] case Inc(i, delta) => [(i, delta)]
                                                    case _ => []
  }

  /** The history of increments is that of the run's `Inc` steps. */
  lemma {:induction false} IncrementsCounted<L>(b: Bank<L>, steps: seq<Step<L>>)
    requires Shaped(b)
    ensures var r := Execute(b, steps); r.Some? ==> r.value.incs == b.incs + Increments(steps)
  {
    if |steps| > 0 {
      IncrementsCounted(b, steps[..|steps| - 1]);
    }
  }

  function SumOver<L(==)>(entries: seq<(nat, int)>, labels: seq<L>, key: L): int {
    if |labels| == 0 then 0
    else
      var last := |labels| - 1;
      SumOver(entries, labels[..last], key) + if labels[last] == key then SumFor(entries, last) else 0
  }

  lemma {:induction false} SumOverAppend<L>(entries: seq<(nat, int)>, e: (nat, int), labels: seq<L>, key: L)
    ensures SumOver(entries + [e], labels, key) == SumOver(entries, labels, key)
      + if e.0 < |labels| && labels[e.0] == key then e.1 else 0
  {
    if |labels| > 0 {
      var last := |labels| - 1;
      SumOverAppend(entries, e, labels[..last], key);
      SumForAppend(entries, e, last);
    }
  }

  lemma {:induction false} SumOverNothing<L>(labels: seq<L>, key: L)
    ensures SumOver([], labels, key) == 0
  {
    if |labels| > 0 { SumOverNothing(labels[..|labels| - 1], key); }
  }

  /** Summing by label is summing counter by counter. */
  lemma {:induction false} SumExchange<L>(entries: seq<(nat, int)>, labels: seq<L>, key: L)
    ensures SumLabelled(entries, labels, key) == SumOver(entries, labels, key)
  {
    if |entries| == 0 {
      SumOverNothing(labels, key);
    } else {
      var last := |entries| - 1;
      SumExchange(entries[..last], labels, key);
      SumOverAppend(entries[..last], entries[last], labels, key);
      assert entries == entries[..last] + [entries[last]];
    }
  }

  /** No counter has left the range of int64. */
  ghost predicate NoWrap<L>(b: Bank<L>) {
    forall i :: 0 <= i < |b.cells| ==> -TWO_63 <= SumFor(b.incs, i) < TWO_63
  }

  lemma {:induction false} SumByCounter<L>(
    log: seq<(nat, int)>, incs: seq<(nat, int)>, cells: seq<Cell>, labels: seq<L>, key: L)
    requires |cells| == |labels|
    requires forall i :: 0 <= i < |cells| ==> SumFor(log, i) + cells[i].Pending() == SumFor(incs, i)
    ensures SumOver(log, labels, key) + PendingLabelled(cells, labels, key) == SumOver(incs, labels, key)
  {
    if |cells| > 0 {
      var last := |cells| - 1;
      SumByCounter(log, incs, cells[..last], labels[..last], key);
    }
  }

  /** Whole-run conservation by identity: for every label, the sum of all reported values
      plus the pending deltas of all counters with that label is the sum of all increments
      of those counters, however increments and reports interleave. */
  lemma LabelConserved<L>(steps: seq<Step<L>>, b: Bank<L>, key: L)
    requires Execute(EmptyBank(), steps) == Some(b) && NoWrap(b)
    ensures SumLabelled(b.log, b.labels, key) + PendingLabelled(b.cells, b.labels, key)
         == SumLabelled(Increments(steps), b.labels, key)
  {
    InvHolds(EmptyBank<L>(), steps);
    IncrementsCounted(EmptyBank<L>(), steps);
    assert [] + Increments(steps) == Increments(steps);
    InvConserves(b, key);
  }

  lemma InvConserves<L>(b: Bank<L>, key: L)
    requires Inv(b) && NoWrap(b)
    ensures SumLabelled(b.log, b.labels, key) + PendingLabelled(b.cells, b.labels, key)
         == SumLabelled(b.incs, b.labels, key)
  {
    SumExchange(b.log, b.labels, key);
    SumExchange(b.incs, b.labels, key);
    SumByCounter(b.log, b.incs, b.cells, b.labels, key);
  }

  // ------------------------------------------------------------ a final report

  lemma {:induction false} HistoryGrows<L>(b: Bank<L>, steps: seq<Step<L>>)
    requires Inv(b)
    ensures var r := Execute(b, steps);
      r.Some? ==> |b.cells| <= |r.value.cells| && b.incs <= r.value.incs
  {
    if |steps| > 0 {
      var last := |steps| - 1;
      HistoryGrows(b, steps[..last]);
    }
  }

  /** What has been reported for a counter accounts for its increments up to some moment
      no earlier than `since`. */
  ghost predicate ReportedSince<L>(b: Bank<L>, i: nat, since: nat) {
    exists k :: since <= k <= |b.incs| && SumFor(b.log, i) == Wrap64(SumFor(b.incs[..k], i))
  }

  lemma ReportedSinceKept<L>(b: Bank<L>, step: Step<L>, i: nat, since: nat)
    requires Inv(b) && Enabled(b, step) && i < |b.cells| && ReportedSince(b, i, since)
    ensures ReportedSince(Next(b, step), i, since)
  {
    var b' := Next(b, step);
    var k :| since <= k <= |b.incs| && SumFor(b.log, i) == Wrap64(SumFor(b.incs[..k], i));
    InvKept(b, step);
    if step == Report(i) {
      assert b'.incs[..|b'.incs|] == b'.incs;
      assert SumFor(b'.log, i) == Wrap64(SumFor(b'.incs[..|b'.incs|], i));
    } else {
      assert b'.incs[..k] == b.incs[..k];
      assert b'.cells[i].previous == b.cells[i].previous;
      assert SumFor(b'.log, i) == Wrap64(SumFor(b'.incs[..k], i));
    }
  }

  lemma ReportAccounts<L>(b: Bank<L>, i: nat, since: nat)
    requires Inv(b) && Enabled(b, Report(i)) && since <= |b.incs|
    ensures ReportedSince(Next(b, Report(i)), i, since)
  {
    var b' := Next(b, Report(i));
    InvKept(b, Report(i));
    assert b'.incs[..|b'.incs|] == b'.incs;
    assert SumFor(b'.log, i) == Wrap64(SumFor(b'.incs[..|b'.incs|], i));
  }

  /** A counter that is reported at some point of a run has then accounted for every
      increment that was finished when the run began; increments during the run may or may
      not have made it. */
  lemma {:induction false} ReportCoversEarlierIncrements<L>(b: Bank<L>, steps: seq<Step<L>>, i: nat)
    requires Inv(b) && i < |b.cells| && Report(i) in steps
    ensures var r := Execute(b, steps); r.Some? ==> ReportedSince(r.value, i, |b.incs|)
  {
    var last := |steps| - 1;
    var r := Execute(b, steps[..last]);
    if r.Some? && Enabled(r.value, steps[last]) {
      InvHolds(b, steps[..last]);
      HistoryGrows(b, steps[..last]);
      var b' := Next(r.value, steps[last]);
      if steps[last] == Report(i) {
        InvKept(r.value, steps[last]);
        assert b'.incs[..|b'.incs|] == b'.incs;
        assert SumFor(b'.log, i) == Wrap64(SumFor(b'.incs[..|b'.incs|], i));
      } else {
        assert steps == steps[..last] + [steps[last]];
        ReportCoversEarlierIncrements(b, steps[..last], i);
        ReportedSinceKept(r.value, steps[last], i, |b.incs|);
      }
    }
  }
}
