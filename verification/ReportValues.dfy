/** A report in small steps with the gauges and the histograms as well: a gauge's visit is the
    two steps of its report, a histogram's one step for every bucket, and other threads update
    and record in between. */
module ReportValues {
  import opened Wrappers
  import opened ScopeForest
  import C = Counters
  import G = Gauges
  import H = HistogramSpec
  import W = ReportWalk

  /** What the reporting thread is in the middle of. */
  datatype Busy =
    | Free
    | Loading(m: nat)           // gauge m: its flag was up, the value is still to be loaded
    | Buckets(m: nat, k: nat)   // histogram m: bucket k is the next to be reported

  /** A walk with a gauge and a bank of bucket counters for every metric; those of other kinds
      have ones that nobody uses. */
  datatype Full = Full(walk: W.Walk, gauges: seq<G.Gauge>, hists: seq<C.Bank<nat>>, busy: Busy)

  datatype Step =
    | WalkStep(step: W.Step, buckets: nat)    // a new histogram has that many buckets
    | Load
    | ReportBucket
    | UpdateGauge(m: nat, gauge: G.Step)
    | Record(m: nat, k: nat)

  /** The metric that a step visits. */
  function Visited(f: Full, step: W.Step): Option<nat> {
    if !step.VisitMetric? || f.walk.stack == [] then None
    else
      var top := W.Top(f.walk);
      if top.Loop? && top.i < |f.walk.nodes| && step.name in f.walk.nodes[top.i].Of(W.KindAt(top.phase))
      then Some(f.walk.nodes[top.i].Of(W.KindAt(top.phase))[step.name])
      else None
  }

  function KindOf(f: Full, m: nat): Kind {
    if m < |f.walk.metrics| then f.walk.metrics[m].kind else CounterKind
  }

  ghost predicate Enabled(f: Full, step: Step) {
    match step
    case WalkStep(s, _) =>
      && C.Shaped(f.walk.bank) && W.Enabled(f.walk, s) && (W.OfWalk(s) ==> f.busy == Free)
      && (Visited(f, s).Some? ==>
        var m := Visited(f, s).value; m < |f.gauges| && m < |f.hists| && G.Enabled(f.gauges[m], G.Exchange))
    case Load => f.busy.Loading? && f.busy.m < |f.gauges| && G.Enabled(f.gauges[f.busy.m], G.Load)
    case ReportBucket =>
      && f.busy.Buckets? && f.busy.m < |f.hists|
      && C.Shaped(f.hists[f.busy.m]) && C.Enabled(f.hists[f.busy.m], C.Report(f.busy.k))
    case UpdateGauge(m, gauge) => m < |f.gauges| && (gauge.Store? || gauge.Raise?) && G.Enabled(f.gauges[m], gauge)
    case Record(m, k) => m < |f.hists| && C.Shaped(f.hists[m]) && C.Enabled(f.hists[m], C.Inc(k, 1))
  }

  /** What visiting metric m begins. */
  function Visit(f: Full, m: nat): Full
    requires m < |f.gauges| && m < |f.hists| && G.Enabled(f.gauges[m], G.Exchange)
  {
    match KindOf(f, m)
    case CounterKind => f
    case GaugeKind =>
      var g := G.Next(f.gauges[m], G.Exchange);
      f.(gauges := f.gauges[m := g], busy := if g.claimed then Loading(m) else Free)
    case HistogramKind => f.(busy := if f.hists[m].cells == [] then Free else Buckets(m, 0))
  }

  ghost function Next(f: Full, step: Step): Full
    requires Enabled(f, step)
  {
    match step
    case WalkStep(s, buckets) =>
      var visited := if Visited(f, s).Some? then Visit(f, Visited(f, s).value) else f;
      var f' := visited.(walk := W.Next(f.walk, s));
      if s.NewMetric? then f'.(gauges := f.gauges + [G.NEW_GAUGE], hists := f.hists + [H.Fresh(buckets)]) else f'
    case Load => f.(gauges := f.gauges[f.busy.m := G.Next(f.gauges[f.busy.m], G.Load)], busy := Free)
    case ReportBucket =>
      var Buckets(m, k) := f.busy;
      f.(hists := f.hists[m := C.Next(f.hists[m], C.Report(k))],
         busy := if k + 1 < |f.hists[m].cells| then Buckets(m, k + 1) else Free)
    case UpdateGauge(m, gauge) => f.(gauges := f.gauges[m := G.Next(f.gauges[m], gauge)])
    case Record(m, k) => f.(hists := f.hists[m := C.Next(f.hists[m], C.Inc(k, 1))])
  }

  ghost function Execute(f: Full, steps: seq<Step>): Option<Full> {
    if |steps| == 0 then Some(f)
    else
      var last := |steps| - 1;
      match Execute(f, steps[..last])
      case None => None
      case Some(f') => if Enabled(f', steps[last]) then Some(Next(f', steps[last])) else None
  }

  // ------------------------------------------------------------------- invariants

  ghost predicate Shapes(f: Full) {
    |f.gauges| == |f.hists| == |f.walk.metrics|
  }

  ghost predicate GaugeOk(f: Full, m: nat)
    requires m < |f.gauges|
  {
    G.Inv(f.gauges[m]) && (f.gauges[m].claimed <==> f.busy == Loading(m))
  }

  ghost predicate BusyOk(f: Full) {
    match f.busy
    case Free => true
    case Loading(m) => m in f.walk.visited && m < |f.gauges|
    case Buckets(m, k) => m in f.walk.visited && m < |f.hists| && k < |f.hists[m].cells|
  }

  ghost predicate ValuesOk(f: Full) {
    && Shapes(f) && BusyOk(f)
    && (forall m :: 0 <= m < |f.gauges| ==> GaugeOk(f, m))
    && (forall m :: 0 <= m < |f.hists| ==> C.Inv(f.hists[m]))
  }

  // ----------------------------------------------------- what a report accounts for

  /** A gauge with no update under way when the report begins: until it is visited its flag
      keeps what is unread, and when its visit is over all stores of before have been read,
      or overwritten, for reporting. */
  ghost predicate GaugeCovered(start: Full, f: Full, m: nat)
    requires m < |start.gauges| && m < |f.gauges|
  {
    var n, g := |start.gauges[m].stores|, f.gauges[m];
    start.gauges[m].between == 0 ==>
      && n <= |g.stores|
      && (m !in f.walk.visited ==> g.updated || g.read >= n)
      && (m in f.walk.visited ==> f.busy == Loading(m) || g.read >= n)
  }

  /** Bucket k of histogram m has been reported by the visit. */
  predicate BucketDone(f: Full, m: nat, k: nat) {
    m in f.walk.visited && !(f.busy.Buckets? && f.busy.m == m && f.busy.k <= k)
  }

  ghost predicate HistCovered(start: Full, f: Full, m: nat)
    requires m < |start.hists| && m < |f.hists|
  {
    && |f.hists[m].cells| == |start.hists[m].cells|
    && |start.hists[m].incs| <= |f.hists[m].incs|
    && forall k: nat :: k < |f.hists[m].cells| && BucketDone(f, m, k) ==>
         C.ReportedSince(f.hists[m], k, |start.hists[m].incs|)
  }

  ghost predicate Covered(start: Full, f: Full, m: nat)
    requires Shapes(start) && m < |start.walk.metrics| && Shapes(f) && m < |f.walk.metrics|
  {
    && (start.walk.metrics[m].kind == GaugeKind ==> GaugeCovered(start, f, m))
    && (start.walk.metrics[m].kind == HistogramKind ==> HistCovered(start, f, m))
  }

  ghost predicate Kept(start: Full, f: Full, i: nat)
    requires Shapes(start)
  {
    && W.AllKept(start.walk, f.walk, i) && ValuesOk(f)
    && |start.walk.metrics| <= |f.walk.metrics|
    && forall m :: 0 <= m < |start.walk.metrics| ==>
         f.walk.metrics[m] == start.walk.metrics[m] && Covered(start, f, m)
  }

  // ------------------------------------------------------------------ single steps

  lemma VisitedIsNew(f: Full, s: W.Step)
    requires W.Inv(f.walk) && W.Enabled(f.walk, s)
    ensures s.VisitMetric? <==> Visited(f, s).Some?
    ensures s.VisitMetric? ==>
      var m := Visited(f, s).value;
      && m < |f.walk.metrics| && m !in f.walk.visited
      && W.Next(f.walk, s).visited == f.walk.visited + [m]
    ensures !s.VisitMetric? ==> W.Next(f.walk, s).visited == f.walk.visited
  {
    if s.VisitMetric? {
      W.VisitIsOwed(f.walk, s.name, Visited(f, s).value);
    }
  }

  lemma MetricsStay(w: W.Walk, s: W.Step)
    requires C.Shaped(w.bank) && W.Enabled(w, s)
    ensures var w' := W.Next(w, s);
      && |w'.metrics| == |w.metrics| + (if s.NewMetric? then 1 else 0)
      && forall m :: 0 <= m < |w.metrics| ==> w'.metrics[m] == w.metrics[m]
  {
  }

  lemma FreshOk(n: nat)
    ensures C.Inv(H.Fresh(n))
  {
  }

  /** The gauges after a change to gauge m alone. */
  lemma GaugesKept(f: Full, f': Full, m: nat)
    requires ValuesOk(f) && |f'.gauges| == |f.gauges| && m < |f.gauges|
    requires forall k :: 0 <= k < |f.gauges| && k != m ==> f'.gauges[k] == f.gauges[k]
    requires forall k :: k != m ==> (f'.busy == Loading(k) <==> f.busy == Loading(k))
    requires GaugeOk(f', m)
    ensures forall k :: 0 <= k < |f'.gauges| ==> GaugeOk(f', k)
  {
    forall k | 0 <= k < |f'.gauges| ensures GaugeOk(f', k) {
      assert GaugeOk(f, k);
    }
  }

  lemma GaugesSame(f: Full, f': Full)
    requires ValuesOk(f) && f'.gauges == f.gauges
    requires forall k :: f'.busy == Loading(k) <==> f.busy == Loading(k)
    ensures forall k :: 0 <= k < |f'.gauges| ==> GaugeOk(f', k)
  {
    forall k | 0 <= k < |f'.gauges| ensures GaugeOk(f', k) {
      assert GaugeOk(f, k);
    }
  }

  lemma VisitValues(f: Full, m: nat)
    requires ValuesOk(f) && f.busy == Free && m < |f.gauges| && G.Enabled(f.gauges[m], G.Exchange)
    ensures var f' := Visit(f, m);
      && |f'.gauges| == |f.gauges| && f'.hists == f.hists && f'.walk == f.walk
      && (forall k :: 0 <= k < |f'.gauges| ==> GaugeOk(f', k))
      && (f'.busy.Loading? ==> f'.busy.m == m)
      && (f'.busy.Buckets? ==> f'.busy.m == m && f'.busy.k < |f.hists[m].cells|)
  {
    var f' := Visit(f, m);
    assert GaugeOk(f, m);
    G.InvKept(f.gauges[m], G.Exchange);
    GaugesKept(f, f', m);
  }

  lemma VisitStepValues(f: Full, m: nat, w: W.Walk)
    requires ValuesOk(f) && f.busy == Free && m < |f.gauges| && G.Enabled(f.gauges[m], G.Exchange)
    requires |w.metrics| == |f.walk.metrics| && w.visited == f.walk.visited + [m]
    ensures ValuesOk(Visit(f, m).(walk := w))
  {
    VisitValues(f, m);
    var v := Visit(f, m);
    assert m in w.visited;
    forall k | 0 <= k < |v.gauges| ensures GaugeOk(v.(walk := w), k) {
      assert GaugeOk(v, k);
    }
  }

  lemma NewMetricValues(f: Full, f': Full, gauge: G.Gauge, bank: C.Bank<nat>)
    requires ValuesOk(f) && G.Inv(gauge) && !gauge.claimed && C.Inv(bank)
    requires |f'.walk.metrics| == |f.walk.metrics| + 1 && f'.walk.visited == f.walk.visited
    requires f'.gauges == f.gauges + [gauge] && f'.hists == f.hists + [bank] && f'.busy == f.busy
    ensures ValuesOk(f')
  {
    BusyStays(f, f');
    GaugesAppend(f, f', gauge);
  }

  lemma GaugesAppend(f: Full, f': Full, gauge: G.Gauge)
    requires ValuesOk(f) && G.Inv(gauge) && !gauge.claimed
    requires f'.gauges == f.gauges + [gauge] && f'.busy == f.busy
    ensures forall k :: 0 <= k < |f'.gauges| ==> GaugeOk(f', k)
  {
    forall k | 0 <= k < |f'.gauges| ensures GaugeOk(f', k) {
      if k < |f.gauges| {
        assert GaugeOk(f, k);
      }
    }
  }

  lemma BusyStays(f: Full, f': Full)
    requires BusyOk(f) && f'.busy == f.busy && f'.walk.visited == f.walk.visited
    requires |f.gauges| <= |f'.gauges| && f.hists <= f'.hists
    ensures BusyOk(f')
  {
  }

  lemma NewGaugeOk()
    ensures G.Inv(G.NEW_GAUGE)
  {
  }

  lemma PlainStepValues(f: Full, w: W.Walk)
    requires ValuesOk(f) && |w.metrics| == |f.walk.metrics| && w.visited == f.walk.visited
    ensures ValuesOk(f.(walk := w))
  {
    GaugesSame(f, f.(walk := w));
  }

  lemma NewMetricNext(f: Full, s: W.Step, buckets: nat)
    requires Enabled(f, WalkStep(s, buckets)) && s.NewMetric?
    ensures var f' := Next(f, WalkStep(s, buckets));
      && f'.walk == W.Next(f.walk, s) && f'.busy == f.busy
      && f'.gauges == f.gauges + [G.NEW_GAUGE] && f'.hists == f.hists + [H.Fresh(buckets)]
  {
  }

  lemma WalkStepValues(f: Full, s: W.Step, buckets: nat)
    requires W.Inv(f.walk) && ValuesOk(f) && Enabled(f, WalkStep(s, buckets))
    ensures ValuesOk(Next(f, WalkStep(s, buckets)))
  {
    VisitedIsNew(f, s);
    MetricsStay(f.walk, s);
    if s.VisitMetric? {
      VisitStepValues(f, Visited(f, s).value, W.Next(f.walk, s));
    } else if s.NewMetric? {
      FreshOk(buckets);
      NewGaugeOk();
      NewMetricNext(f, s, buckets);
      NewMetricValues(f, Next(f, WalkStep(s, buckets)), G.NEW_GAUGE, H.Fresh(buckets));
    } else {
      PlainStepValues(f, W.Next(f.walk, s));
    }
  }

  lemma OtherStepValues(f: Full, step: Step)
    requires ValuesOk(f) && Enabled(f, step) && !step.WalkStep?
    ensures ValuesOk(Next(f, step))
  {
    match step
    case Load =>
      assert GaugeOk(f, f.busy.m);
      G.InvKept(f.gauges[f.busy.m], G.Load);
      GaugesKept(f, Next(f, step), f.busy.m);
    case ReportBucket =>
      C.InvKept(f.hists[f.busy.m], C.Report(f.busy.k));
      GaugesSame(f, Next(f, step));
    case UpdateGauge(m, gauge) =>
      assert GaugeOk(f, m);
      G.InvKept(f.gauges[m], gauge);
      GaugesKept(f, Next(f, step), m);
    case Record(m, k) =>
      C.InvKept(f.hists[m], C.Inc(k, 1));
      GaugesSame(f, Next(f, step));
  }

  // ---------------------------------------------------------------- coverage is kept

  /** A step that leaves metric m's gauge and bank alone, and is no visit of m. */
  lemma CoveredApart(start: Full, f: Full, f': Full, m: nat)
    requires Shapes(start) && Shapes(f) && Shapes(f')
    requires m < |start.walk.metrics| && m < |f.walk.metrics| <= |f'.walk.metrics|
    requires f'.gauges[m] == f.gauges[m] && f'.hists[m] == f.hists[m]
    requires m in f'.walk.visited <==> m in f.walk.visited
    requires f.busy == Loading(m) ==> f'.busy == f.busy
    requires f.busy.Buckets? && f.busy.m == m ==> f'.busy == f.busy
    requires Covered(start, f, m)
    ensures Covered(start, f', m)
  {
  }

  lemma VisitCovers(start: Full, f: Full, m: nat, w: W.Walk)
    requires Shapes(start) && m < |start.walk.metrics| && ValuesOk(f) && m < |f.walk.metrics| && Covered(start, f, m)
    requires f.busy == Free && m !in f.walk.visited && G.Enabled(f.gauges[m], G.Exchange)
    requires f.walk.metrics[m] == start.walk.metrics[m]
    requires |w.metrics| == |f.walk.metrics| && w.visited == f.walk.visited + [m]
    ensures Covered(start, Visit(f, m).(walk := w), m)
  {
    assert m in w.visited;
    assert GaugeOk(f, m);
  }

  lemma WalkStepCovers(start: Full, f: Full, s: W.Step, buckets: nat, m: nat)
    requires Shapes(start) && m < |start.walk.metrics|
    requires W.Inv(f.walk) && ValuesOk(f) && Enabled(f, WalkStep(s, buckets))
    requires m < |f.walk.metrics| && f.walk.metrics[m] == start.walk.metrics[m] && Covered(start, f, m)
    ensures var f' := Next(f, WalkStep(s, buckets));
      Shapes(f') && m < |f'.walk.metrics| && f'.walk.metrics[m] == start.walk.metrics[m] && Covered(start, f', m)
  {
    VisitedIsNew(f, s);
    MetricsStay(f.walk, s);
    WalkStepValues(f, s, buckets);
    var f' := Next(f, WalkStep(s, buckets));
    if Visited(f, s) == Some(m) {
      VisitCovers(start, f, m, W.Next(f.walk, s));
    } else {
      WalkStepApart(f, s, buckets, m);
      CoveredApart(start, f, f', m);
    }
  }

  lemma WalkStepApart(f: Full, s: W.Step, buckets: nat, m: nat)
    requires W.Inv(f.walk) && ValuesOk(f) && Enabled(f, WalkStep(s, buckets)) && m < |f.walk.metrics|
    requires Visited(f, s) != Some(m)
    ensures var f' := Next(f, WalkStep(s, buckets));
      && m < |f'.gauges| && m < |f'.hists| && f'.gauges[m] == f.gauges[m] && f'.hists[m] == f.hists[m]
      && (m in f'.walk.visited <==> m in f.walk.visited)
      && (f.busy == Loading(m) ==> f'.busy == f.busy)
      && (f.busy.Buckets? && f.busy.m == m ==> f'.busy == f.busy)
  {
    VisitedIsNew(f, s);
  }

  lemma LoadCovers(start: Full, f: Full, m: nat)
    requires Shapes(start) && m < |start.walk.metrics| && ValuesOk(f) && Enabled(f, Load)
    requires m < |f.walk.metrics| && Covered(start, f, m)
    ensures Covered(start, Next(f, Load), m)
  {
    assert GaugeOk(f, m);
    if f.busy.m != m {
      CoveredApart(start, f, Next(f, Load), m);
    }
  }

  lemma UpdateCovers(start: Full, f: Full, k: nat, gauge: G.Step, m: nat)
    requires Shapes(start) && m < |start.walk.metrics| && ValuesOk(f) && Enabled(f, UpdateGauge(k, gauge))
    requires m < |f.walk.metrics| && Covered(start, f, m)
    ensures Covered(start, Next(f, UpdateGauge(k, gauge)), m)
  {
  }

  lemma RecordCovers(start: Full, f: Full, h: nat, k: nat, m: nat)
    requires Shapes(start) && m < |start.walk.metrics| && ValuesOk(f) && Enabled(f, Record(h, k))
    requires m < |f.walk.metrics| && Covered(start, f, m)
    ensures Covered(start, Next(f, Record(h, k)), m)
  {
    var f' := Next(f, Record(h, k));
    if h == m && start.walk.metrics[m].kind == HistogramKind {
      forall b: nat | b < |f'.hists[m].cells| && BucketDone(f', m, b)
        ensures C.ReportedSince(f'.hists[m], b, |start.hists[m].incs|)
      {
        assert BucketDone(f, m, b);
        C.ReportedSinceKept(f.hists[m], C.Inc(k, 1), b, |start.hists[m].incs|);
      }
    }
  }

  lemma BucketCovers(start: Full, f: Full, m: nat)
    requires Shapes(start) && m < |start.walk.metrics| && ValuesOk(f) && Enabled(f, ReportBucket)
    requires m < |f.walk.metrics| && Covered(start, f, m)
    ensures Covered(start, Next(f, ReportBucket), m)
  {
    var f' := Next(f, ReportBucket);
    var Buckets(h, k) := f.busy;
    if h == m && start.walk.metrics[m].kind == HistogramKind {
      forall b: nat | b < |f'.hists[m].cells| && BucketDone(f', m, b)
        ensures C.ReportedSince(f'.hists[m], b, |start.hists[m].incs|)
      {
        if b == k {
          C.ReportAccounts(f.hists[m], k, |start.hists[m].incs|);
        } else {
          assert b < k && BucketDone(f, m, b);
          C.ReportedSinceKept(f.hists[m], C.Report(k), b, |start.hists[m].incs|);
        }
      }
    }
  }

  lemma OtherStepCovers(start: Full, f: Full, step: Step, m: nat)
    requires Shapes(start) && m < |start.walk.metrics| && ValuesOk(f) && Enabled(f, step) && !step.WalkStep?
    requires m < |f.walk.metrics| && Covered(start, f, m)
    ensures Next(f, step).walk == f.walk && Shapes(Next(f, step)) && Covered(start, Next(f, step), m)
  {
    match step
    case Load => LoadCovers(start, f, m);
    case ReportBucket => BucketCovers(start, f, m);
    case UpdateGauge(k, gauge) => UpdateCovers(start, f, k, gauge, m);
    case Record(h, k) => RecordCovers(start, f, h, k, m);
  }

  lemma StepKeeps(start: Full, f: Full, i: nat, step: Step)
    requires Shapes(start) && Kept(start, f, i) && Enabled(f, step)
    ensures Kept(start, Next(f, step), i)
  {
    var f' := Next(f, step);
    match step {
      case WalkStep(s, buckets) =>
        W.StepKeeps(start.walk, f.walk, i, s);
        WalkStepValues(f, s, buckets);
        MetricsStay(f.walk, s);
        forall m | 0 <= m < |start.walk.metrics|
          ensures f'.walk.metrics[m] == start.walk.metrics[m] && Covered(start, f', m)
        {
          WalkStepCovers(start, f, s, buckets, m);
        }
      case _ =>
        OtherStepValues(f, step);
        forall m | 0 <= m < |start.walk.metrics|
          ensures f'.walk == f.walk && Covered(start, f', m)
        {
          OtherStepCovers(start, f, step, m);
        }
    }
  }

  // ------------------------------------------------------------------ main results

  /** A report of scope i begins, with whatever other threads are doing to gauges. */
  ghost predicate Begins(start: Full, i: nat) {
    && start.walk == W.Begin(start.walk.nodes, start.walk.metrics, start.walk.bank, i)
    && i < |start.walk.nodes| && W.HeapOk(start.walk)
    && start.busy == Free && ValuesOk(start)
  }

  lemma BeginKept(start: Full, i: nat)
    requires Begins(start, i)
    ensures Kept(start, start, i)
  {
    W.RunKeeps(start.walk, i, []);
    forall m | 0 <= m < |start.walk.metrics| ensures Covered(start, start, m) {
      assert GaugeOk(start, m);
    }
  }

  lemma {:induction false} RunKeeps(start: Full, i: nat, steps: seq<Step>)
    requires Begins(start, i)
    ensures var r := Execute(start, steps); r.Some? ==> Kept(start, r.value, i)
  {
    if |steps| == 0 {
      BeginKept(start, i);
    } else {
      var last := |steps| - 1;
      RunKeeps(start, i, steps[..last]);
      var r := Execute(start, steps[..last]);
      if r.Some? && Enabled(r.value, steps[last]) {
        StepKeeps(start, r.value, i, steps[last]);
      }
    }
  }

  /** When a report of the root returns, whatever other threads did meanwhile, for every metric
      that existed when it began: a counter has accounted for all increments finished by then;
      a gauge with no update under way then has had its newest value, or a later one, read for
      reporting; and every bucket of a histogram has accounted for all samples recorded by
      then. */
  lemma LastReportCoversAll(start: Full, steps: seq<Step>, f: Full, m: nat)
    requires Begins(start, 0) && Execute(start, steps) == Some(f) && f.walk.stack == [] && f.busy == Free
    requires m < |start.walk.metrics|
    ensures Shapes(f) && m < |f.walk.metrics| && f.walk.metrics[m] == start.walk.metrics[m]
    ensures match start.walk.metrics[m].kind
      case CounterKind => C.ReportedSince(f.walk.bank, m, |start.walk.bank.incs|)
      case GaugeKind => start.gauges[m].between == 0 ==> f.gauges[m].read >= |start.gauges[m].stores|
      case HistogramKind => forall k: nat :: k < |start.hists[m].cells| ==>
        C.ReportedSince(f.hists[m], k, |start.hists[m].incs|)
  {
    RunKeeps(start, 0, steps);
    W.OwnersInRange(start.walk, m);
    W.AllUnderRoot(start.walk.nodes, start.walk.metrics[m].node);
    assert W.Wanted(start.walk, 0, m) && W.Promised(start.walk, f.walk, m);
    assert Covered(start, f, m);
    match start.walk.metrics[m].kind
    case CounterKind => C.ReportCoversEarlierIncrements(start.walk.bank, f.walk.ran, m);
    case GaugeKind =>
    case HistogramKind =>
      forall k: nat | k < |start.hists[m].cells| ensures C.ReportedSince(f.hists[m], k, |start.hists[m].incs|) {
        assert BucketDone(f, m, k);
      }
  }
}
