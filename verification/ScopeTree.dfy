/** `ScopeImpl`: the operations of every scope of a tree, on the heap of `ScopeForest`.
    Scope 0 is the one the builder made; only it has a reporting thread. */
module ScopeTree {
  import opened Wrappers
  import opened ByteStrings
  import opened CompactProtocol
  import opened ScopeIds
  import opened ScopeIdUniqueness
  import opened ScopeNames
  import opened ScopeForest
  import opened ScopeRequests
  import C = Counters

  ghost predicate NoDuplicates(s: seq<nat>) {
    forall i, j :: 0 <= i < j < |s| ==> s[i] != s[j]
  }

  /** The metrics of a scope of one kind, or of a whole subtree, each listed once. */
  ghost predicate ListsKind(visited: seq<nat>, metrics: seq<Owner>, i: nat, kind: Kind) {
    && NoDuplicates(visited)
    && forall m: nat :: m in visited <==> m < |metrics| && metrics[m].node == i && metrics[m].kind == kind
  }

  ghost predicate ListsSubtree(visited: seq<nat>, nodes: seq<Node>, metrics: seq<Owner>, i: nat)
    requires Linked(nodes) && i < |nodes|
  {
    && NoDuplicates(visited)
    && forall m: nat :: m in visited <==> m < |metrics| && metrics[m].node in Below(nodes, i)
  }

  /** One metric of a report.  Counters are read here; gauges and histograms have their own
      models and are only listed. */
  function Visit(b: C.Bank<Identity>, metrics: seq<Owner>, m: nat): C.Bank<Identity> {
    if C.Shaped(b) && m < |metrics| && metrics[m].kind == CounterKind && C.Enabled(b, C.Report(m))
    then C.Next(b, C.Report(m))
    else b
  }

  function VisitAll(b: C.Bank<Identity>, metrics: seq<Owner>, visited: seq<nat>): C.Bank<Identity> {
    if |visited| == 0 then b
    else Visit(VisitAll(b, metrics, visited[..|visited| - 1]), metrics, visited[|visited| - 1])
  }

  lemma {:induction false} VisitAllConcat(b: C.Bank<Identity>, metrics: seq<Owner>, xs: seq<nat>, ys: seq<nat>)
    ensures VisitAll(b, metrics, xs + ys) == VisitAll(VisitAll(b, metrics, xs), metrics, ys)
  {
    if |ys| == 0 {
      assert xs + ys == xs;
    } else {
      var last := |ys| - 1;
      VisitAllConcat(b, metrics, xs, ys[..last]);
      assert (xs + ys)[..|xs + ys| - 1] == xs + ys[..last];
    }
  }

  /** The subtractions of signed 64-bit integers in `Value` do not overflow. */
  ghost predicate NoOverflow(b: C.Bank<Identity>) {
    forall i :: 0 <= i < |b.cells| ==> -TWO_63 <= b.cells[i].Pending() < TWO_63
  }

  /** What a report leaves behind: visited counters have nothing pending and their deltas
      are in the log, once each; the others are as they were. */
  ghost predicate Reported(before: C.Bank<Identity>, after: C.Bank<Identity>, metrics: seq<Owner>, visited: seq<nat>) {
    && |after.cells| == |before.cells| && after.labels == before.labels && after.incs == before.incs
    && before.log <= after.log
    && forall i :: 0 <= i < |before.cells| ==>
      if i in visited && i < |metrics| && metrics[i].kind == CounterKind
      then after.cells[i] == before.cells[i].Settled()
      else after.cells[i] == before.cells[i]
  }

  lemma VisitKeepsInv(b: C.Bank<Identity>, metrics: seq<Owner>, m: nat)
    requires C.Inv(b) && NoOverflow(b)
    ensures C.Inv(Visit(b, metrics, m)) && NoOverflow(Visit(b, metrics, m))
  {
    if m < |b.cells| {
      C.InvKept(b, C.Report(m));
    }
  }

  lemma VisitReports(b: C.Bank<Identity>, mid: C.Bank<Identity>, metrics: seq<Owner>, visited: seq<nat>, m: nat)
    requires C.Shaped(mid) && NoOverflow(mid) && |metrics| == |b.cells| && Reported(b, mid, metrics, visited)
    ensures Reported(b, Visit(mid, metrics, m), metrics, visited + [m])
  {
    assert forall i :: i in visited + [m] <==> i in visited || i == m;
  }

  lemma {:induction false} VisitAllReports(b: C.Bank<Identity>, metrics: seq<Owner>, visited: seq<nat>)
    requires C.Inv(b) && NoOverflow(b) && |metrics| == |b.cells|
    ensures var after := VisitAll(b, metrics, visited);
      C.Inv(after) && NoOverflow(after) && Reported(b, after, metrics, visited)
  {
    if |visited| > 0 {
      var last := |visited| - 1;
      VisitAllReports(b, metrics, visited[..last]);
      var mid := VisitAll(b, metrics, visited[..last]);
      VisitKeepsInv(mid, metrics, visited[last]);
      VisitReports(b, mid, metrics, visited[..last], visited[last]);
      assert visited == visited[..last] + [visited[last]];
    }
  }

  /** The steps of the counters' machine that a report with these visits takes. */
  function ReportSteps(metrics: seq<Owner>, visited: seq<nat>): seq<C.Step<Identity>> {
    if |visited| == 0 then []
    else
      var m := visited[|visited| - 1];
      ReportSteps(metrics, visited[..|visited| - 1])
      + if m < |metrics| && metrics[m].kind == CounterKind then [C.Report(m)] else []
  }

  /** A report that nothing interrupts is a run of that machine. */
  lemma {:induction false} ReportIsARun(b: C.Bank<Identity>, metrics: seq<Owner>, visited: seq<nat>)
    requires C.Inv(b) && NoOverflow(b) && |metrics| == |b.cells|
    ensures C.Execute(b, ReportSteps(metrics, visited)) == Some(VisitAll(b, metrics, visited))
  {
    if |visited| > 0 {
      var last := |visited| - 1;
      var m, earlier := visited[last], ReportSteps(metrics, visited[..last]);
      ReportIsARun(b, metrics, visited[..last]);
      VisitAllReports(b, metrics, visited[..last]);
      if m < |metrics| && metrics[m].kind == CounterKind {
        C.ExecuteMore(b, earlier, VisitAll(b, metrics, visited[..last]), C.Report(m));
      } else {
        assert ReportSteps(metrics, visited) == earlier;
      }
    }
  }

  /** It has a step for every counter visited, and for no other. */
  lemma {:induction false} ReportStepsAre(metrics: seq<Owner>, visited: seq<nat>, m: nat)
    ensures C.Report(m) in ReportSteps(metrics, visited) <==>
      m in visited && m < |metrics| && metrics[m].kind == CounterKind
  {
    if |visited| > 0 {
      var last := |visited| - 1;
      ReportStepsAre(metrics, visited[..last], m);
      assert visited == visited[..last] + [visited[last]];
    }
  }

  class ScopeTree {
    var nodes: seq<Node>
    var metrics: seq<Owner>
    var bank: C.Bank<Identity>
    var running: bool

    ghost predicate Labelled()
      reads this
    {
      && |bank.labels| == |bank.cells| == |metrics|
      && forall m :: 0 <= m < |metrics| ==> metrics[m].node < |nodes| && bank.labels[m] == IdentityOf(nodes, metrics[m])
    }

    ghost predicate Valid()
      reads this
    {
      Linked(nodes) && Derived(nodes) && Owned(nodes, metrics) && Labelled() && C.Inv(bank)
    }

    /** `interval` is in seconds; a positive one starts the reporting thread. */
    constructor (prefix: Bytes, separator: Bytes, tags: Tags, interval: int, reporter: nat)
      ensures Valid() && running == (interval > 0) && metrics == []
      ensures nodes == [NewNode(0, prefix, separator, tags, reporter)]
      ensures nodes[0].prefix == prefix && nodes[0].separator == separator && nodes[0].tags == tags
      ensures nodes[0].reporter == reporter && nodes[0].registry == map[]
    {
      nodes := [NewNode(0, prefix, separator, tags, reporter)];
      metrics := [];
      bank := C.EmptyBank();
      running := interval > 0;
    }

    /** The private `SubScope`, whose callers are the two below: memoized by ID. */
    method GetOrCreateScope(i: nat, prefix: Bytes, tags: Tags, ghost hop: Hop) returns (child: nat)
      requires Valid() && i < |nodes|
      requires var n := nodes[i];
        Requested(n.prefix, n.separator, n.tags, hop) == (prefix, Merge(n.tags, tags))
      modifies this`nodes
      ensures Valid() && Answers(old(nodes), nodes, i, hop, child)
    {
      var newTags := MergeTags(nodes[i].tags, tags);
      var id := ScopeID(prefix, newTags);
      if id in nodes[i].registry {
        child := nodes[i].registry[id];
      } else {
        AddChildLinked(nodes, i, prefix, newTags);
        AddChildOwned(nodes, metrics, i, prefix, newTags);
        AddChildDerived(nodes, i, prefix, newTags, hop);
        child := |nodes|;
        var scope := NewNode(i, prefix, nodes[i].separator, newTags, nodes[i].reporter);
        nodes := nodes[i := nodes[i].(registry := nodes[i].registry[id := child])] + [scope];
      }
    }

    /** The scope registered for the joined name and the same tags.  It has them if the request
        is always answered as asked, and also if it and all scopes so far are clean. */
    method SubScope(i: nat, name: Bytes) returns (child: nat)
      requires Valid() && i < |nodes|
      modifies this`nodes
      ensures Valid() && Answers(old(nodes), nodes, i, Sub(name), child)
      ensures var n := old(nodes)[i];
        && Inherits(old(nodes), nodes, i, child)
        && (AlwaysAnswered(n.prefix, n.separator, n.tags, Sub(name)) || old(AllCleanWith(nodes, i, Sub(name))) ==>
          AsAsked(old(nodes), nodes, i, Sub(name), child))
        && (AsAsked(old(nodes), nodes, i, Sub(name), child) <==>
          && nodes[child].prefix == (if n.prefix == [] then name else n.prefix + n.separator + name)
          && nodes[child].tags == n.tags)
        && (old(AllCleanWith(nodes, i, Sub(name))) ==> AllClean(nodes))
    {
      assert Merge(nodes[i].tags, map[]) == nodes[i].tags;
      child := GetOrCreateScope(i, FullyQualifiedName(nodes[i].prefix, nodes[i].separator, name), map[], Sub(name));
      AnswerIsRegistered(old(nodes), nodes, i, Sub(name), child);
      AnswerAsAsked(old(nodes), nodes, i, Sub(name), child);
      CleanAnswer(old(nodes), nodes, i, Sub(name), child);
    }

    /** The scope registered for the same prefix and the merged tags, likewise. */
    method Tagged(i: nat, tags: Tags) returns (child: nat)
      requires Valid() && i < |nodes|
      modifies this`nodes
      ensures Valid() && Answers(old(nodes), nodes, i, Hop.Tagged(tags), child)
      ensures var n, hop := old(nodes)[i], Hop.Tagged(tags);
        && Inherits(old(nodes), nodes, i, child)
        && (AlwaysAnswered(n.prefix, n.separator, n.tags, hop) || old(AllCleanWith(nodes, i, hop)) ==>
          AsAsked(old(nodes), nodes, i, hop, child))
        && (AsAsked(old(nodes), nodes, i, hop, child) <==>
          nodes[child].prefix == n.prefix && nodes[child].tags == tags + n.tags)
        && (old(AllCleanWith(nodes, i, hop)) ==> AllClean(nodes))
    {
      child := GetOrCreateScope(i, nodes[i].prefix, tags, Hop.Tagged(tags));
      AnswerIsRegistered(old(nodes), nodes, i, Hop.Tagged(tags), child);
      AnswerAsAsked(old(nodes), nodes, i, Hop.Tagged(tags), child);
      CleanAnswer(old(nodes), nodes, i, Hop.Tagged(tags), child);
    }

    /** A request for tags whose ID was printed before, for other tags, is answered with the
        scope of those. */
    method TagBoth(i: nat, one: Tags, two: Tags) returns (found: nat)
      requires Valid() && i < |nodes|
      requires var n := nodes[i];
        var id := IdOf(n.prefix, Merge(n.tags, one));
        id == IdOf(n.prefix, Merge(n.tags, two)) && id !in n.registry
      modifies this`nodes
      ensures Valid() && found < |nodes| && nodes[found].tags == Merge(old(nodes)[i].tags, one)
    {
      var first := Tagged(i, one);
      assert nodes[i].prefix == old(nodes)[i].prefix && nodes[i].tags == old(nodes)[i].tags;
      ghost var id := IdOf(nodes[i].prefix, Merge(nodes[i].tags, two));
      assert id in nodes[i].registry && nodes[i].registry[id] == first;
      assert nodes[first].tags == Merge(old(nodes)[i].tags, one);
      found := Tagged(i, two);
      assert found == first;
    }

    /** A chain of `SubScope` and `Tagged` whose requests are always answered as asked, or are
        clean on a tree of clean scopes: whatever is registered already, it ends at a scope with
        the prefix and tags requested along the chain.  So its metrics are reported under the
        joined path, and with the outermost value of each tag. */
    method FollowChain(i: nat, hops: seq<Hop>) returns (last: nat)
      requires Valid() && i < |nodes|
      requires var n := nodes[i];
        || AnsweredChain(n.prefix, n.separator, n.tags, hops)
        || (AllClean(nodes) && CleanChain(n.prefix, n.separator, n.tags, hops))
      modifies this`nodes
      ensures Valid() && last < |nodes| && |old(nodes)| <= |nodes|
      ensures var n := old(nodes)[i];
        && (nodes[last].prefix, nodes[last].tags) == Follow(n.prefix, n.separator, n.tags, hops)
        && nodes[last].separator == n.separator && nodes[last].reporter == n.reporter
        && (Named(hops) ==> forall kind, name ::
          IdentityOf(nodes, Owner(last, kind, name)).0 == Path(n.prefix, n.separator, hops, name))
        && (forall kind, name, key ::
          Lookup(IdentityOf(nodes, Owner(last, kind, name)).1, key) == FirstValue(Layers(n.tags, hops), key))
        && forall key :: Lookup(nodes[last].tags, key) == FirstValue(Layers(n.tags, hops), key)
      decreases |hops|
    {
      ghost var n := nodes[i];
      if |hops| == 0 {
        last := i;
      } else {
        var next;
        match hops[0] {
          case Sub(name) =>
            assert Merge(n.tags, map[]) == n.tags;
            next := SubScope(i, name);
          case Tagged(tags) => next := Tagged(i, tags);
        }
        last := FollowChain(next, hops[1..]);
      }
      if Named(hops) {
        forall kind, name
          ensures IdentityOf(nodes, Owner(last, kind, name)).0 == Path(n.prefix, n.separator, hops, name)
        {
          ReportedName(n.prefix, n.separator, n.tags, hops, name);
        }
      }
      forall key ensures Lookup(nodes[last].tags, key) == FirstValue(Layers(n.tags, hops), key) {
        ChainTags(n.prefix, n.separator, n.tags, hops, key);
      }
    }

    /** `Counter`, `Gauge` and `Histogram`: the metric of that name, made if there is none. */
    method GetOrCreateMetric(i: nat, kind: Kind, name: Bytes) returns (m: nat)
      requires Valid() && i < |nodes|
      modifies this`nodes, this`metrics, this`bank
      ensures Valid() && m < |metrics| && metrics[m] == Owner(i, kind, name)
      ensures bank.labels[m].1 == nodes[i].tags
      ensures bank.labels[m].0 ==
        if nodes[i].prefix == [] then name else nodes[i].prefix + nodes[i].separator + name
      ensures match kind
        case CounterKind => name in nodes[i].counters && nodes[i].counters[name] == m
        case GaugeKind => name in nodes[i].gauges && nodes[i].gauges[name] == m
        case HistogramKind => name in nodes[i].histograms && nodes[i].histograms[name] == m
      ensures name in old(nodes)[i].Of(kind) ==>
        m == old(nodes)[i].Of(kind)[name] && nodes == old(nodes) && metrics == old(metrics) && bank == old(bank)
      ensures name !in old(nodes)[i].Of(kind) ==>
        && m == |old(metrics)| && nodes == AddMetric(old(nodes), i, kind, name, m)
        && metrics == old(metrics) + [Owner(i, kind, name)]
        && bank == C.Next(old(bank), C.Create(IdentityOf(old(nodes), Owner(i, kind, name))))
    {
      if name in nodes[i].Of(kind) {
        m := nodes[i].Of(kind)[name];
        assert NameOk(metrics, nodes[i], i, kind, name);
      } else {
        m := |metrics|;
        AddMetricLinked(nodes, i, kind, name, m);
        AddMetricOwned(nodes, metrics, i, kind, name);
        AddMetricDerived(nodes, i, kind, name, m);
        var identity := IdentityOf(nodes, Owner(i, kind, name));
        C.InvKept(bank, C.Create(identity));
        IdentitiesKept(nodes, metrics, i, kind, name, m);
        bank := C.Next(bank, C.Create(identity));
        nodes := AddMetric(nodes, i, kind, name, m);
        metrics := metrics + [Owner(i, kind, name)];
      }
    }

    method Inc(m: nat, delta: Int64)
      requires Valid() && m < |metrics|
      modifies this`bank
      ensures Valid() && bank == C.Next(old(bank), C.Inc(m, delta))
    {
      C.InvKept(bank, C.Inc(m, delta));
      bank := C.Next(bank, C.Inc(m, delta));
    }

    /** One of the loops of `Report`, over a map in whatever order it yields its entries. */
    method ReportKind(i: nat, kind: Kind) returns (visited: seq<nat>)
      requires Valid() && i < |nodes| && NoOverflow(bank)
      modifies this`bank
      ensures Valid() && NoOverflow(bank)
      ensures ListsKind(visited, metrics, i, kind)
      ensures bank == VisitAll(old(bank), metrics, visited)
    {
      visited := [];
      var entries := nodes[i].Of(kind);
      var left := entries.Keys;
      assert forall m: nat :: m < |metrics| ==> MetricOk(nodes, m, metrics[m]);
      while left != {}
        invariant left <= entries.Keys
        invariant Listed(visited, metrics, i, kind, left)
        invariant bank == VisitAll(old(bank), metrics, visited)
      {
        var name :| name in left;
        var m := entries[name];
        OneMoreListed(nodes, metrics, i, kind, left, name, visited);
        assert (visited + [m])[..|visited|] == visited;
        bank := Visit(bank, metrics, m);
        visited := visited + [m];
        left := left - {name};
      }
      VisitAllReports(old(bank), metrics, visited);
    }

    /** `Report`: the scope's own metrics, then every registered scope, recursively.  It
        terminates, and reports every metric of the subtree exactly once. */
    method Report(i: nat) returns (visited: seq<nat>)
      requires Valid() && i < |nodes| && NoOverflow(bank)
      modifies this`bank
      ensures Valid() && NoOverflow(bank)
      ensures ListsSubtree(visited, nodes, metrics, i)
      ensures bank == VisitAll(old(bank), metrics, visited)
      ensures Reported(old(bank), bank, metrics, visited)
      decreases |nodes| - i
    {
      visited := ReportOwn(i);
      var left := nodes[i].registry.Keys;
      while left != {}
        invariant left <= nodes[i].registry.Keys
        invariant Valid() && NoOverflow(bank)
        invariant NoDuplicates(visited)
        invariant forall m: nat :: m in visited <==> m < |metrics| && InDone(nodes, i, left, metrics[m].node)
        invariant bank == VisitAll(old(bank), metrics, visited)
      {
        var id :| id in left;
        assert EntryOk(nodes, i, id);
        var below := Report(nodes[i].registry[id]);
        DoneApart(nodes, i, left, id);
        Combine(visited, below);
        VisitAllConcat(old(bank), metrics, visited, below);
        visited := visited + below;
        DoneMore(nodes, i, left, id);
        left := left - {id};
      }
      AllDone(nodes, i);
      VisitAllReports(old(bank), metrics, visited);
    }

    method ReportOwn(i: nat) returns (visited: seq<nat>)
      requires Valid() && i < |nodes| && NoOverflow(bank)
      modifies this`bank
      ensures Valid() && NoOverflow(bank)
      ensures NoDuplicates(visited) && forall m: nat :: m in visited <==> m < |metrics| && metrics[m].node == i
      ensures bank == VisitAll(old(bank), metrics, visited)
    {
      var counters := ReportKind(i, CounterKind);
      var gauges := ReportKind(i, GaugeKind);
      Combine(counters, gauges);
      VisitAllConcat(old(bank), metrics, counters, gauges);
      var histograms := ReportKind(i, HistogramKind);
      Combine(counters + gauges, histograms);
      VisitAllConcat(old(bank), metrics, counters + gauges, histograms);
      visited := counters + gauges + histograms;
    }

    /** The destructor: with a reporting thread, which it stops, it reports the whole tree
        one last time; without one it reports nothing. */
    method Destroy() returns (visited: seq<nat>)
      requires Valid() && NoOverflow(bank)
      modifies this`running, this`bank
      ensures Valid() && !running
      ensures old(running) ==> NoDuplicates(visited) && forall m: nat :: m in visited <==> m < |metrics|
      ensures old(running) ==> Reported(old(bank), bank, metrics, visited)
      ensures old(running) ==>
        forall m :: 0 <= m < |metrics| && metrics[m].kind == CounterKind ==> bank.cells[m].Pending() == 0
      ensures !old(running) ==> visited == [] && bank == old(bank)
    {
      visited := [];
      if !running {
        return;
      }
      running := false;
      visited := Report(0);
      forall m | 0 <= m < |metrics| ensures m in visited {
        RootReachesAll(nodes, metrics[m].node);
      }
    }

    /** On every valid tree a metric carries its scope's tags and the name behind the scope's
        prefix, and two metrics share a label exactly when both agree. */
    lemma SharedLabelExactly(m: nat, m': nat)
      requires Valid() && m < |metrics| && m' < |metrics|
      ensures var n, n' := nodes[metrics[m].node], nodes[metrics[m'].node];
        var full := if n.prefix == [] then metrics[m].name else n.prefix + n.separator + metrics[m].name;
        var full' := if n'.prefix == [] then metrics[m'].name else n'.prefix + n'.separator + metrics[m'].name;
        && bank.labels[m] == (full, n.tags)
        && (bank.labels[m] == bank.labels[m'] <==> full == full' && n.tags == n'.tags)
    {
      IdentityIs(nodes, metrics[m], metrics[m']);
      IdentityIs(nodes, metrics[m'], metrics[m]);
    }

    /** Whole-run conservation over the tree, by what a metric is reported as: for every
        full name and tag map, all that was reported plus all that is pending is all that
        was counted. */
    lemma ConservedByIdentity(identity: Identity)
      requires Valid() && C.NoWrap(bank)
      ensures C.SumLabelled(bank.log, bank.labels, identity) + C.PendingLabelled(bank.cells, bank.labels, identity)
           == C.SumLabelled(bank.incs, bank.labels, identity)
    {
      C.InvConserves(bank, identity);
    }
  }

  /** So a scope other than the requested one can be returned: on a new tree, a request for
      the tags a=1 and b=2 is answered with the scope whose one tag a has the value 1,b=2. */
  method WrongScope(separator: Bytes, interval: int, reporter: nat) returns (tree: ScopeTree, found: nat)
    ensures tree.Valid() && found < |tree.nodes|
    ensures tree.nodes[found].tags != Follow([], separator, map[], [Tagged(TWO_TAGS)]).1
  {
    tree := new ScopeTree([], separator, map[], interval, reporter);
    MergeWithNone(ONE_TAG);
    FollowTagged(separator, TWO_TAGS);
    TwoTagsPrintAsOne([]);
    found := tree.TagBoth(0, ONE_TAG, TWO_TAGS);
  }

  lemma MergeWithNone(tags: Tags)
    ensures Merge(map[], tags) == tags
  {
  }

  lemma FollowTagged(separator: Bytes, tags: Tags)
    ensures Follow([], separator, map[], [Tagged(tags)]).1 == Merge(map[], tags) == tags
  {
    MergeWithNone(tags);
    assert [Tagged(tags)][1..] == [];
  }

  // ---------------------------------------------------------------- report lemmas

  lemma IdentitiesKept(nodes: seq<Node>, metrics: seq<Owner>, i: nat, kind: Kind, name: Bytes, m: nat)
    requires i < |nodes|
    ensures forall o: Owner :: o.node < |nodes| ==>
      IdentityOf(AddMetric(nodes, i, kind, name, m), o) == IdentityOf(nodes, o)
  {
  }

  lemma ListedOnce(nodes: seq<Node>, metrics: seq<Owner>, i: nat, kind: Kind, name: Bytes)
    requires Owned(nodes, metrics) && i < |nodes| && name in nodes[i].Of(kind)
    ensures forall m :: 0 <= m < |metrics| && metrics[m] == Owner(i, kind, name) ==> m == nodes[i].Of(kind)[name]
  {
    forall m | 0 <= m < |metrics| && metrics[m] == Owner(i, kind, name) ensures m == nodes[i].Of(kind)[name] {
      assert MetricOk(nodes, m, metrics[m]);
    }
  }

  /** `visited` lists the metrics of one kind whose names are not left over. */
  ghost predicate Listed(visited: seq<nat>, metrics: seq<Owner>, i: nat, kind: Kind, left: set<Bytes>) {
    && NoDuplicates(visited)
    && forall m: nat :: m in visited <==>
      m < |metrics| && metrics[m].node == i && metrics[m].kind == kind && metrics[m].name !in left
  }

  lemma OneMoreListed(
    nodes: seq<Node>, metrics: seq<Owner>, i: nat, kind: Kind, left: set<Bytes>, name: Bytes, visited: seq<nat>)
    requires Owned(nodes, metrics) && i < |nodes| && name in nodes[i].Of(kind) && name in left
    requires Listed(visited, metrics, i, kind, left)
    ensures Listed(visited + [nodes[i].Of(kind)[name]], metrics, i, kind, left - {name})
  {
    var m := nodes[i].Of(kind)[name];
    assert NameOk(metrics, nodes[i], i, kind, name);
    ListedOnce(nodes, metrics, i, kind, name);
    assert forall k :: 0 <= k < |visited| ==> visited[k] in visited;
    assert m !in visited;
  }

  lemma Combine(xs: seq<nat>, ys: seq<nat>)
    requires NoDuplicates(xs) && NoDuplicates(ys) && forall x :: x in xs ==> x !in ys
    ensures NoDuplicates(xs + ys) && forall x :: x in xs + ys <==> x in xs || x in ys
  {
    forall i, j | 0 <= i < j < |xs + ys| ensures (xs + ys)[i] != (xs + ys)[j] {
      if i < |xs| <= j {
        assert xs[i] in xs && ys[j - |xs|] in ys;
      }
    }
  }

  /** The scopes that have been reported when the registry entries `left` remain. */
  ghost predicate InDone(nodes: seq<Node>, i: nat, left: set<Bytes>, j: nat)
    requires Linked(nodes) && i < |nodes|
  {
    || j == i
    || (exists id :: id in nodes[i].registry && id !in left && EntryOk(nodes, i, id)
                     && j in Below(nodes, nodes[i].registry[id]))
  }

  lemma DoneApart(nodes: seq<Node>, i: nat, left: set<Bytes>, id: Bytes)
    requires Linked(nodes) && i < |nodes| && id in left && id in nodes[i].registry && EntryOk(nodes, i, id)
    ensures forall j :: InDone(nodes, i, left, j) ==> j !in Below(nodes, nodes[i].registry[id])
  {
    forall j | InDone(nodes, i, left, j) ensures j !in Below(nodes, nodes[i].registry[id]) {
      if j == i {
        if i in Below(nodes, nodes[i].registry[id]) { BelowIsYounger(nodes, nodes[i].registry[id], i); }
      } else {
        var x :| x in nodes[i].registry && x !in left && EntryOk(nodes, i, x)
          && j in Below(nodes, nodes[i].registry[x]);
        SiblingsApart(nodes, i, x, id, j);
      }
    }
  }

  lemma DoneMore(nodes: seq<Node>, i: nat, left: set<Bytes>, id: Bytes)
    requires Linked(nodes) && i < |nodes| && id in left && id in nodes[i].registry && EntryOk(nodes, i, id)
    ensures forall j :: InDone(nodes, i, left - {id}, j) <==>
      InDone(nodes, i, left, j) || j in Below(nodes, nodes[i].registry[id])
  {
  }

  lemma AllDone(nodes: seq<Node>, i: nat)
    requires Linked(nodes) && i < |nodes|
    ensures forall j :: InDone(nodes, i, {}, j) <==> j in Below(nodes, i)
  {
  }
}
