/** What becomes of each metric offered in a run, and what runs there are: the queue can
    hold any list of metrics up to its maximum, and the destructor can always finish. */
module ReporterRuns {
  import opened Wrappers
  import opened M3Types
  import opened ReporterState
  import opened ReporterMachine
  import opened ReporterProofs
  import opened PacketLimits

  // ------------------------------------------------------------------------ offers

  /** A metric given to `Enqueue`, and the state it was given in. */
  datatype Offer = Offer(m: Metric, before: State)

  /** The history of a run's `Enqueue` calls. */
  ghost function Offers(c: Config, steps: seq<Step>): seq<Offer> {
    if |steps| == 0 then []
    else
      var last := |steps| - 1;
      var r := Execute(c, START, steps[..last]);
      Offers(c, steps[..last]) + if steps[last].Enqueue? && r.Some? then [Offer(steps[last].m, r.value)] else []
  }

  /** The metrics of a run's `Enqueue` calls. */
  function Offered(steps: seq<Step>): seq<Metric> {
    if |steps| == 0 then []
    else
      var last := |steps| - 1;
      Offered(steps[..last]) + if steps[last].Enqueue? then [steps[last].m] else []
  }

  function Metrics(offers: seq<Offer>): seq<Metric> {
    if |offers| == 0 then [] else Metrics(offers[..|offers| - 1]) + [offers[|offers| - 1].m]
  }

  /** Made to a running reporter whose queue has room. */
  predicate HasRoom(c: Config, o: Offer) {
    o.before.store.run && |o.before.store.queue| < c.maxQueueSize
  }

  function WithRoom(c: Config, offers: seq<Offer>): seq<Offer> {
    if |offers| == 0 then []
    else
      var last := |offers| - 1;
      WithRoom(c, offers[..last]) + if HasRoom(c, offers[last]) then [offers[last]] else []
  }

  lemma MetricsAppend(offers: seq<Offer>, o: Offer)
    ensures Metrics(offers + [o]) == Metrics(offers) + [o.m]
  {
    assert (offers + [o])[..|offers|] == offers;
  }

  lemma {:induction false} OffersAreMade(c: Config, steps: seq<Step>)
    requires Execute(c, START, steps).Some?
    ensures Metrics(Offers(c, steps)) == Offered(steps)
  {
    if |steps| > 0 {
      var last := |steps| - 1;
      OffersAreMade(c, steps[..last]);
      if steps[last].Enqueue? {
        MetricsAppend(Offers(c, steps[..last]), Offer(steps[last].m, Execute(c, START, steps[..last]).value));
      } else {
        assert Offers(c, steps) == Offers(c, steps[..last]);
      }
    }
  }

  /** A metric is refused only after shutdown began or when the queue holds exactly its
      maximum: in every run what was accepted is, in order, what was offered with `run_` set
      to a queue with room, and a queue without room held `max_queue_size_` metrics. */
  lemma OffersDecided(c: Config, steps: seq<Step>, s: State)
    requires ConfigOk(c) && Execute(c, START, steps) == Some(s)
    ensures s.store.accepted == Metrics(WithRoom(c, Offers(c, steps)))
    ensures forall o :: o in Offers(c, steps) && o.before.store.run && !HasRoom(c, o) ==>
      |o.before.store.queue| == c.maxQueueSize
  {
    AcceptedWithRoom(c, steps);
    OffersBounded(c, steps);
  }

  lemma {:induction false} AcceptedWithRoom(c: Config, steps: seq<Step>)
    requires ConfigOk(c)
    ensures var r := Execute(c, START, steps);
      r.Some? ==> r.value.store.accepted == Metrics(WithRoom(c, Offers(c, steps)))
  {
    if |steps| > 0 {
      var last := |steps| - 1;
      AcceptedWithRoom(c, steps[..last]);
      var r := Execute(c, START, steps[..last]);
      if r.Some? && Enabled(r.value, steps[last]) {
        if steps[last].Enqueue? {
          InvHolds(c, START, steps[..last]);
          OneMoreOffer(c, Offers(c, steps[..last]), r.value, steps[last].m);
        } else {
          AcceptedGrows(c, r.value, steps[last]);
          assert Offers(c, steps) == Offers(c, steps[..last]);
        }
      }
    }
  }

  lemma OneMoreOffer(c: Config, offers: seq<Offer>, s: State, m: Metric)
    requires |s.store.queue| <= c.maxQueueSize && s.store.accepted == Metrics(WithRoom(c, offers))
    ensures Next(c, s, Enqueue(m)).store.accepted == Metrics(WithRoom(c, offers + [Offer(m, s)]))
  {
    var o := Offer(m, s);
    assert (offers + [o])[..|offers|] == offers;
    if HasRoom(c, o) {
      MetricsAppend(WithRoom(c, offers), o);
    } else {
      assert WithRoom(c, offers + [o]) == WithRoom(c, offers);
    }
  }

  lemma {:induction false} OffersBounded(c: Config, steps: seq<Step>)
    requires ConfigOk(c)
    ensures forall o :: o in Offers(c, steps) ==> |o.before.store.queue| <= c.maxQueueSize
  {
    if |steps| > 0 {
      var last := |steps| - 1;
      OffersBounded(c, steps[..last]);
      InvHolds(c, START, steps[..last]);
    }
  }

  /** `run_` is set until the destructor's first step. */
  lemma {:induction false} RunsUntilDestroyed(c: Config, steps: seq<Step>, s: State)
    requires Execute(c, START, steps) == Some(s)
    ensures s.store.run <==> DtorStep !in steps
    ensures s.store.run <==> s.dtor.NotCalled?
  {
    if |steps| > 0 {
      var last := |steps| - 1;
      var s' := Execute(c, START, steps[..last]).value;
      RunsUntilDestroyed(c, steps[..last], s');
      StopsWithDestructor(c, s', steps[last]);
      assert DtorStep in steps <==> DtorStep in steps[..last] || steps[last] == DtorStep by {
        assert steps == steps[..last] + [steps[last]];
      }
    }
  }

  lemma StopsWithDestructor(c: Config, s: State, step: Step)
    requires Enabled(s, step) && (s.store.run <==> s.dtor.NotCalled?)
    ensures var s' := Next(c, s, step);
      (s'.store.run <==> s.store.run && !step.DtorStep?) && (s'.store.run <==> s'.dtor.NotCalled?)
  {
  }

  /** The queue can hold any list of reported metrics up to its maximum: producers may fill
      it before the background thread starts. */
  lemma QueueFills(c: Config, ms: seq<Metric>) returns (s: State)
    requires CanBeReported(ms) && |ms| <= c.maxQueueSize
    ensures Reachable(c, s) && s.store.queue == s.store.accepted == ms
  {
    s := Fill(c, ms, |ms|);
    assert ms[..|ms|] == ms;
  }

  /** Nothing has happened but `Enqueue` calls, each accepted. */
  ghost predicate Filled(c: Config, s: State, ms: seq<Metric>) {
    Reachable(c, s) && s.store.run && s.pc.Starting? && s.store.queue == s.store.accepted == ms
  }

  lemma {:induction false} Fill(c: Config, ms: seq<Metric>, n: nat) returns (s: State)
    requires CanBeReported(ms) && n <= |ms| <= c.maxQueueSize
    ensures Filled(c, s, ms[..n])
  {
    if n == 0 {
      StartReachable(c);
      s := START;
    } else {
      s := Fill(c, ms, n - 1);
      s := FillNext(c, ms, n - 1, s);
    }
  }

  lemma FillOne(c: Config, front: seq<Metric>, m: Metric, s: State) returns (s': State)
    requires Filled(c, s, front) && |front| < c.maxQueueSize && FromReport(m) && Encodable(m)
    ensures Filled(c, s', front + [m])
  {
    Take(c, s, Enqueue(m));
    s' := Next(c, s, Enqueue(m));
  }

  lemma FillNext(c: Config, ms: seq<Metric>, n: nat, s: State) returns (s': State)
    requires CanBeReported(ms) && n < |ms| <= c.maxQueueSize && Filled(c, s, ms[..n])
    ensures Filled(c, s', ms[..n + 1])
  {
    ElementCanBeReported(ms, n);
    s' := FillOne(c, ms[..n], ms[n], s);
  }

  lemma ElementCanBeReported(ms: seq<Metric>, i: nat)
    requires CanBeReported(ms) && i < |ms|
    ensures FromReport(ms[i]) && Encodable(ms[i]) && ms[..i] + [ms[i]] == ms[..i + 1]
  {
    assert ms[i] in ms;
  }

  /** Every length up to the maximum occurs. */
  lemma QueueHolds(c: Config, n: nat) returns (s: State)
    requires n <= c.maxQueueSize
    ensures Reachable(c, s) && |s.store.queue| == n
  {
    var ms := seq(n, _ => Small(0));
    SmallCanBeReported(0);
    s := QueueFills(c, ms);
  }

  // ------------------------------------------------------------------- destruction

  /** The background thread gives `run_mutex_` back by its own steps. */
  lemma {:induction false} LetsGo(c: Config, s: State) returns (s': State)
    requires ConfigOk(c) && Reachable(c, s)
    ensures Reachable(c, s') && s'.dtor == s.dtor && !HoldsRunMutex(s'.pc)
    decreases Work(s)
  {
    s' := s;
    if HoldsRunMutex(s.pc) {
      Take(c, s, RUN);
      s' := Next(c, s, RUN);
      if !s.pc.AboutToWait? {
        ReachableInv(c, s);
        WorkShrinks(c, s, RUN);
        s' := LetsGo(c, s');
      }
    }
  }

  /** Once notified, it returns by its own steps. */
  lemma {:induction false} Returns(c: Config, s: State) returns (s': State)
    requires ConfigOk(c) && Reachable(c, s) && s.dtor.Notified?
    ensures Reachable(c, s') && s'.dtor.Notified? && s'.pc.Finished?
    decreases Work(s)
  {
    s' := s;
    if !s.pc.Finished? {
      ReachableInv(c, s);
      Take(c, s, RUN);
      WorkShrinks(c, s, RUN);
      s' := Returns(c, Next(c, s, RUN));
    }
  }

  /** From every reachable state the destructor can be called, and can come to its end with
      the queue and the batch empty and everything accepted handed to the client. */
  lemma DestructionCompletes(c: Config, s: State) returns (s': State)
    requires ConfigOk(c) && Reachable(c, s) && s.dtor.NotCalled?
    ensures Reachable(c, s') && s'.dtor.Joined? && s'.pc.Finished?
    ensures s'.store.queue == [] && s'.store.batch == [] && Flat(s'.store.emitted) == s'.store.accepted
  {
    s' := LetsGo(c, s);
    Take(c, s', DtorStep);
    s' := Next(c, s', DtorStep);
    Take(c, s', DtorStep);
    s' := Returns(c, Next(c, s', DtorStep));
    Take(c, s', DtorStep);
    s' := Next(c, s', DtorStep);
    DestructorDrains(c, s');
  }
}
