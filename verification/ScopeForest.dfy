/** The heap of scopes as a value: nodes and metrics are numbered in the order they are
    created, and a scope's registry and metric maps hold those numbers. */
module ScopeForest {
  import opened ByteStrings
  import opened ScopeIds
  import opened ScopeNames

  datatype Kind = CounterKind | GaugeKind | HistogramKind

  datatype Node = Node(
    prefix: Bytes, separator: Bytes, tags: Tags, reporter: nat,
    parent: nat,
    registry: map<Bytes, nat>,
    counters: map<Bytes, nat>, gauges: map<Bytes, nat>, histograms: map<Bytes, nat>)
  {
    function Of(kind: Kind): map<Bytes, nat> {
      match kind case CounterKind => counters case GaugeKind => gauges case HistogramKind => histograms
    }

    function With(kind: Kind, m: map<Bytes, nat>): Node {
      match kind
      case CounterKind => this.(counters := m)
      case GaugeKind => this.(gauges := m)
      case HistogramKind => this.(histograms := m)
    }
  }

  datatype Owner = Owner(node: nat, kind: Kind, name: Bytes)

  /** What a metric is reported as. */
  type Identity = (Bytes, Tags)

  function IdentityOf(nodes: seq<Node>, o: Owner): Identity
    requires o.node < |nodes|
  {
    var n := nodes[o.node];
    (FullyQualifiedName(n.prefix, n.separator, o.name), n.tags)
  }

  /** A metric is reported under its scope's tags, and under its name behind the scope's prefix
      and separator, or alone when there is no prefix.  So two metrics are reported as the same
      exactly when these full names and their scopes' tags are equal. */
  lemma IdentityIs(nodes: seq<Node>, o: Owner, o': Owner)
    requires o.node < |nodes| && o'.node < |nodes|
    ensures var n := nodes[o.node];
      IdentityOf(nodes, o) == (if n.prefix == [] then o.name else n.prefix + n.separator + o.name, n.tags)
    ensures IdentityOf(nodes, o) == IdentityOf(nodes, o') <==>
      && IdentityOf(nodes, o).0 == IdentityOf(nodes, o').0
      && nodes[o.node].tags == nodes[o'.node].tags
  {
  }

  // ------------------------------------------------------------------- invariants

  /** A registry entry: the child is younger, knows its parent, inherits separator and
      reporter, and is stored under its own ID. */
  ghost predicate EntryOk(nodes: seq<Node>, i: nat, id: Bytes)
    requires i < |nodes| && id in nodes[i].registry
  {
    var c := nodes[i].registry[id];
    && i < c < |nodes|
    && nodes[c].parent == i
    && nodes[c].separator == nodes[i].separator && nodes[c].reporter == nodes[i].reporter
    && id == IdOf(nodes[c].prefix, nodes[c].tags)
  }

  ghost predicate RegisteredAtParent(nodes: seq<Node>, c: nat)
    requires c < |nodes|
  {
    var id := IdOf(nodes[c].prefix, nodes[c].tags);
    nodes[c].parent < c && id in nodes[nodes[c].parent].registry && nodes[nodes[c].parent].registry[id] == c
  }

  ghost predicate Linked(nodes: seq<Node>) {
    && |nodes| > 0
    && (forall i, id :: 0 <= i < |nodes| && id in nodes[i].registry ==> EntryOk(nodes, i, id))
    && (forall c :: 0 < c < |nodes| ==> RegisteredAtParent(nodes, c))
  }

  ghost predicate MetricOk(nodes: seq<Node>, m: nat, o: Owner) {
    o.node < |nodes| && o.name in nodes[o.node].Of(o.kind) && nodes[o.node].Of(o.kind)[o.name] == m
  }

  ghost predicate NameOk(metrics: seq<Owner>, n: Node, i: nat, kind: Kind, name: Bytes)
    requires name in n.Of(kind)
  {
    n.Of(kind)[name] < |metrics| && metrics[n.Of(kind)[name]] == Owner(i, kind, name)
  }

  /** The metric maps and the metrics' owners are inverses of each other. */
  ghost predicate Owned(nodes: seq<Node>, metrics: seq<Owner>) {
    && (forall m :: 0 <= m < |metrics| ==> MetricOk(nodes, m, metrics[m]))
    && (forall i, kind, name :: 0 <= i < |nodes| && name in nodes[i].Of(kind) ==>
        NameOk(metrics, nodes[i], i, kind, name))
  }

  // --------------------------------------------------------------------- subtrees

  /** The scopes that a recursive call from scope i reaches. */
  ghost function Below(nodes: seq<Node>, i: nat): set<nat>
    requires Linked(nodes) && i < |nodes|
    decreases |nodes| - i
  {
    {i} + set id, j | id in nodes[i].registry && EntryOk(nodes, i, id) && j in Below(nodes, nodes[i].registry[id]) :: j
  }

  lemma {:induction false} BelowIsYounger(nodes: seq<Node>, i: nat, j: nat)
    requires Linked(nodes) && i < |nodes| && j in Below(nodes, i)
    ensures i <= j < |nodes|
    ensures j != i ==> nodes[j].parent in Below(nodes, i)
    decreases |nodes| - i
  {
    if j != i {
      var id :| id in nodes[i].registry && EntryOk(nodes, i, id) && j in Below(nodes, nodes[i].registry[id]);
      var c := nodes[i].registry[id];
      BelowIsYounger(nodes, c, j);
      if j == c {
        assert i in Below(nodes, i);
      } else {
        assert nodes[j].parent in Below(nodes, c);
      }
    }
  }

  lemma NotBelowSibling(nodes: seq<Node>, i: nat, a: Bytes, b: Bytes)
    requires Linked(nodes) && i < |nodes| && a in nodes[i].registry && b in nodes[i].registry && a != b
    requires EntryOk(nodes, i, a) && EntryOk(nodes, i, b)
    ensures nodes[i].registry[a] !in Below(nodes, nodes[i].registry[b])
  {
    var ca, cb := nodes[i].registry[a], nodes[i].registry[b];
    if ca in Below(nodes, cb) {
      BelowIsYounger(nodes, cb, ca);
      assert i in Below(nodes, cb) || ca == cb;
      if ca != cb { BelowIsYounger(nodes, cb, i); }
    }
  }

  /** Two children of a scope have no scope below both. */
  lemma {:induction false} SiblingsApart(nodes: seq<Node>, i: nat, a: Bytes, b: Bytes, j: nat)
    requires Linked(nodes) && i < |nodes| && a in nodes[i].registry && b in nodes[i].registry && a != b
    requires EntryOk(nodes, i, a) && EntryOk(nodes, i, b)
    ensures j !in Below(nodes, nodes[i].registry[a]) || j !in Below(nodes, nodes[i].registry[b])
    decreases j
  {
    var ca, cb := nodes[i].registry[a], nodes[i].registry[b];
    NotBelowSibling(nodes, i, a, b);
    NotBelowSibling(nodes, i, b, a);
    if j in Below(nodes, ca) && j in Below(nodes, cb) {
      assert j != ca && j != cb;
      BelowIsYounger(nodes, ca, j);
      BelowIsYounger(nodes, cb, j);
      assert RegisteredAtParent(nodes, j);
      SiblingsApart(nodes, i, a, b, nodes[j].parent);
    }
  }

  lemma SelfBelow(nodes: seq<Node>, i: nat)
    requires Linked(nodes) && i < |nodes|
    ensures i in Below(nodes, i)
  {
  }

  /** From the root the recursion reaches every scope. */
  lemma {:induction false} RootReachesAll(nodes: seq<Node>, c: nat)
    requires Linked(nodes) && c < |nodes|
    ensures c in Below(nodes, 0)
    decreases c
  {
    if c == 0 {
      SelfBelow(nodes, 0);
    } else {
      assert RegisteredAtParent(nodes, c);
      RootReachesAll(nodes, nodes[c].parent);
      BelowStep(nodes, 0, nodes[c].parent, c);
    }
  }

  lemma {:induction false} BelowStep(nodes: seq<Node>, i: nat, p: nat, c: nat)
    requires Linked(nodes) && i < |nodes| && p in Below(nodes, i)
    requires p < |nodes| && c < |nodes| && c > 0 && nodes[c].parent == p
    ensures c in Below(nodes, i)
    decreases |nodes| - i
  {
    if p == i {
      assert RegisteredAtParent(nodes, c);
      var id := IdOf(nodes[c].prefix, nodes[c].tags);
      assert EntryOk(nodes, i, id);
      SelfBelow(nodes, c);
    } else {
      var id :| id in nodes[i].registry && EntryOk(nodes, i, id) && p in Below(nodes, nodes[i].registry[id]);
      BelowStep(nodes, nodes[i].registry[id], p, c);
    }
  }

  // ---------------------------------------------------------------- agreement

  ghost predicate AllClean(nodes: seq<Node>) {
    forall i :: 0 <= i < |nodes| ==> Clean(nodes[i].prefix, nodes[i].tags)
  }

  /** Under the delimiter condition two requests to one scope lead to the same object exactly
      when their prefixes and merged tags are equal. */
  lemma SameObjectExactly(nodes: seq<Node>, i: nat, p: Bytes, t: Tags, p': Bytes, t': Tags)
    requires Linked(nodes) && AllClean(nodes) && i < |nodes| && Clean(p, t) && Clean(p', t')
    requires IdOf(p, t) in nodes[i].registry && IdOf(p', t') in nodes[i].registry
    ensures nodes[i].registry[IdOf(p, t)] == nodes[i].registry[IdOf(p', t')] <==> p == p' && t == t'
    ensures var c := nodes[i].registry[IdOf(p, t)];
      c < |nodes| && nodes[c].prefix == p && nodes[c].tags == t
  {
    assert EntryOk(nodes, i, IdOf(p, t)) && EntryOk(nodes, i, IdOf(p', t'));
    var c := nodes[i].registry[IdOf(p, t)];
    IdInjective(nodes[c].prefix, nodes[c].tags, p, t);
    if IdOf(p, t) == IdOf(p', t') {
      IdInjective(p, t, p', t');
    }
  }

  // ----------------------------------------------------------------- requests

  /** Every scope but the root was made by a request to its parent. */
  ghost predicate Derived(nodes: seq<Node>) {
    forall c :: 0 < c < |nodes| && nodes[c].parent < c ==> FromParent(nodes, c)
  }

  ghost predicate FromParent(nodes: seq<Node>, c: nat)
    requires c < |nodes| && nodes[c].parent < |nodes|
  {
    IsRequest(nodes[nodes[c].parent], nodes[c].prefix, nodes[c].tags)
  }

  ghost predicate IsRequest(n: Node, prefix: Bytes, tags: Tags) {
    exists hop :: Requested(n.prefix, n.separator, n.tags, hop) == (prefix, tags)
  }

  // --------------------------------------------------------------------- growing

  function NewNode(parent: nat, prefix: Bytes, separator: Bytes, tags: Tags, reporter: nat): Node {
    Node(prefix, separator, tags, reporter, parent, map[], map[], map[], map[])
  }

  /** A new child of scope i, registered under its ID. */
  ghost function AddChild(nodes: seq<Node>, i: nat, prefix: Bytes, tags: Tags): seq<Node>
    requires i < |nodes|
  {
    nodes[i := nodes[i].(registry := nodes[i].registry[IdOf(prefix, tags) := |nodes|])]
      + [NewNode(i, prefix, nodes[i].separator, tags, nodes[i].reporter)]
  }

  lemma AddChildLinked(nodes: seq<Node>, i: nat, prefix: Bytes, tags: Tags)
    requires Linked(nodes) && i < |nodes| && IdOf(prefix, tags) !in nodes[i].registry
    ensures Linked(AddChild(nodes, i, prefix, tags))
  {
    var nodes', id, n := AddChild(nodes, i, prefix, tags), IdOf(prefix, tags), |nodes|;
    forall k, x | 0 <= k < |nodes'| && x in nodes'[k].registry ensures EntryOk(nodes', k, x) {
      if k < n && !(k == i && x == id) {
        assert EntryOk(nodes, k, x);
      }
    }
    forall c | 0 < c < |nodes'| ensures RegisteredAtParent(nodes', c) {
      if c < n {
        assert RegisteredAtParent(nodes, c);
      }
    }
  }

  lemma AddChildDerived(nodes: seq<Node>, i: nat, prefix: Bytes, tags: Tags, hop: Hop)
    requires Derived(nodes) && i < |nodes|
    requires Requested(nodes[i].prefix, nodes[i].separator, nodes[i].tags, hop) == (prefix, tags)
    ensures Derived(AddChild(nodes, i, prefix, tags))
  {
    var nodes' := AddChild(nodes, i, prefix, tags);
    forall c | 0 < c < |nodes'| && nodes'[c].parent < c ensures FromParent(nodes', c) {
      if c < |nodes| {
        assert FromParent(nodes, c);
        var h :| Requested(nodes[nodes[c].parent].prefix, nodes[nodes[c].parent].separator,
                           nodes[nodes[c].parent].tags, h) == (nodes[c].prefix, nodes[c].tags);
      }
    }
  }

  lemma AddChildOwned(nodes: seq<Node>, metrics: seq<Owner>, i: nat, prefix: Bytes, tags: Tags)
    requires Owned(nodes, metrics) && i < |nodes|
    ensures Owned(AddChild(nodes, i, prefix, tags), metrics)
  {
    var nodes' := AddChild(nodes, i, prefix, tags);
    assert forall k, kind :: 0 <= k < |nodes| ==> nodes'[k].Of(kind) == nodes[k].Of(kind);
    assert forall kind :: nodes'[|nodes|].Of(kind) == map[];
    forall m | 0 <= m < |metrics| ensures MetricOk(nodes', m, metrics[m]) {
      assert MetricOk(nodes, m, metrics[m]);
    }
    forall k, kind, x | 0 <= k < |nodes'| && x in nodes'[k].Of(kind) ensures NameOk(metrics, nodes'[k], k, kind, x) {
      assert NameOk(metrics, nodes[k], k, kind, x);
    }
  }

  function AddMetric(nodes: seq<Node>, i: nat, kind: Kind, name: Bytes, m: nat): seq<Node>
    requires i < |nodes|
  {
    nodes[i := nodes[i].With(kind, nodes[i].Of(kind)[name := m])]
  }

  lemma AddMetricLinked(nodes: seq<Node>, i: nat, kind: Kind, name: Bytes, m: nat)
    requires Linked(nodes) && i < |nodes|
    ensures Linked(AddMetric(nodes, i, kind, name, m))
  {
    var nodes' := AddMetric(nodes, i, kind, name, m);
    assert forall k :: 0 <= k < |nodes| ==>
      nodes'[k].prefix == nodes[k].prefix && nodes'[k].tags == nodes[k].tags && nodes'[k].parent == nodes[k].parent
      && nodes'[k].separator == nodes[k].separator && nodes'[k].reporter == nodes[k].reporter
      && nodes'[k].registry == nodes[k].registry;
    forall k, x | 0 <= k < |nodes'| && x in nodes'[k].registry ensures EntryOk(nodes', k, x) {
      assert EntryOk(nodes, k, x);
    }
    forall c | 0 < c < |nodes'| ensures RegisteredAtParent(nodes', c) {
      assert RegisteredAtParent(nodes, c);
    }
  }

  lemma AddMetricDerived(nodes: seq<Node>, i: nat, kind: Kind, name: Bytes, m: nat)
    requires Derived(nodes) && i < |nodes|
    ensures Derived(AddMetric(nodes, i, kind, name, m))
  {
    var nodes' := AddMetric(nodes, i, kind, name, m);
    assert forall k :: 0 <= k < |nodes| ==>
      nodes'[k].prefix == nodes[k].prefix && nodes'[k].tags == nodes[k].tags
      && nodes'[k].parent == nodes[k].parent && nodes'[k].separator == nodes[k].separator;
    forall c | 0 < c < |nodes'| && nodes'[c].parent < c ensures FromParent(nodes', c) {
      assert FromParent(nodes, c);
    }
  }

  lemma AddMetricOwned(nodes: seq<Node>, metrics: seq<Owner>, i: nat, kind: Kind, name: Bytes)
    requires Owned(nodes, metrics) && i < |nodes| && name !in nodes[i].Of(kind)
    ensures Owned(AddMetric(nodes, i, kind, name, |metrics|), metrics + [Owner(i, kind, name)])
  {
    var nodes', metrics' := AddMetric(nodes, i, kind, name, |metrics|), metrics + [Owner(i, kind, name)];
    assert forall k, kd :: 0 <= k < |nodes| ==>
      nodes'[k].Of(kd) == if k == i && kd == kind then nodes[k].Of(kd)[name := |metrics|] else nodes[k].Of(kd);
    forall k, kd, x | 0 <= k < |nodes'| && x in nodes'[k].Of(kd) ensures NameOk(metrics', nodes'[k], k, kd, x) {
      if !(k == i && kd == kind && x == name) {
        assert x in nodes[k].Of(kd) && NameOk(metrics, nodes[k], k, kd, x);
      }
    }
    forall m | 0 <= m < |metrics'| ensures MetricOk(nodes', m, metrics'[m]) {
      if m < |metrics| {
        assert MetricOk(nodes, m, metrics[m]);
      }
    }
  }
}
