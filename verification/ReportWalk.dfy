/** `ScopeImpl::Report` in small steps, while other threads count, make metrics and make
    scopes.  A loop over a map of metrics holds that map's mutex, and the recursion into the
    children of a scope holds the scope's registry mutex; between them anything can happen. */
module ReportWalk {
  import opened Wrappers
  import opened ByteStrings
  import opened ScopeIds
  import opened ScopeForest
  import opened ScopeTree
  import C = Counters

  /** One activation of `Report`.  Its phases are the three loops over metrics, by kind, and
      then the loop over the registry; `left` holds the map entries still to come. */
  datatype Frame =
    | Between(i: nat, phase: nat)                  // before a phase, without a mutex
    | Loop(i: nat, phase: nat, left: set<Bytes>)
    | Children(i: nat, left: set<Bytes>)

  const REGISTRY: nat := 3

  function KindAt(phase: nat): Kind {
    if phase == 0 then CounterKind else if phase == 1 then GaugeKind else HistogramKind
  }

  function Rank(kind: Kind): (r: nat)
    ensures r < REGISTRY && KindAt(r) == kind
  {
    match kind case CounterKind => 0 case GaugeKind => 1 case HistogramKind => 2
  }

  /** `ran` are the steps of the counters' machine so far; the top of the stack is at its
      end. */
  datatype Walk = Walk(
    nodes: seq<Node>, metrics: seq<Owner>, bank: C.Bank<Identity>,
    stack: seq<Frame>, visited: seq<nat>, ran: seq<C.Step<Identity>>)

  datatype Step =
    | Lock                    // take the mutex of the next phase
    | VisitMetric(name: Bytes)
    | Unlock                  // the loop over a map of metrics is done
    | Enter(id: Bytes)        // recursive call
    | Leave                   // the loop over the registry is done: return
    | Inc(m: nat, delta: int)
    | NewMetric(i: nat, kind: Kind, name: Bytes)
    | NewScope(i: nat, prefix: Bytes, tags: Tags)

  predicate Locked(stack: seq<Frame>, i: nat, phase: nat) {
    exists j :: 0 <= j < |stack| && stack[j].i == i && HoldsMutex(stack[j], phase)
  }

  predicate HoldsMutex(f: Frame, phase: nat) {
    match f case Between(_, _) => false case Loop(_, p, _) => p == phase case Children(_, _) => phase == REGISTRY
  }

  function Top(s: Walk): Frame
    requires s.stack != []
  {
    s.stack[|s.stack| - 1]
  }

  function Replace(stack: seq<Frame>, f: Frame): seq<Frame>
    requires stack != []
  {
    stack[..|stack| - 1] + [f]
  }

  ghost predicate Enabled(s: Walk, step: Step) {
    match step
    case Inc(m, delta) => C.Enabled(s.bank, C.Inc(m, delta))
    case NewMetric(i, kind, name) =>
      i < |s.nodes| && name !in s.nodes[i].Of(kind) && !Locked(s.stack, i, Rank(kind))
    case NewScope(i, prefix, tags) =>
      i < |s.nodes| && IdOf(prefix, tags) !in s.nodes[i].registry && !Locked(s.stack, i, REGISTRY)
    case _ => s.stack != [] && Top(s).i < |s.nodes| && WalkEnabled(s, Top(s), step)
  }

  ghost predicate WalkEnabled(s: Walk, top: Frame, step: Step)
    requires top.i < |s.nodes|
  {
    match step
    case Lock => top.Between?
    case VisitMetric(name) =>
      && top.Loop? && name in top.left && name in s.nodes[top.i].Of(KindAt(top.phase))
      && (top.phase == 0 ==> C.Enabled(s.bank, C.Report(s.nodes[top.i].counters[name])))
    case Unlock => top.Loop? && top.left == {}
    case Enter(id) => top.Children? && id in top.left && id in s.nodes[top.i].registry
    case Leave => top.Children? && top.left == {}
    case _ => false
  }

  /** One step of the counters' machine. */
  function Count(s: Walk, step: C.Step<Identity>): Walk
    requires C.Shaped(s.bank) && C.Enabled(s.bank, step)
  {
    s.(bank := C.Next(s.bank, step), ran := s.ran + [step])
  }

  ghost function Next(s: Walk, step: Step): Walk
    requires Enabled(s, step) && C.Shaped(s.bank)
  {
    match step
    case Inc(m, delta) => Count(s, C.Inc(m, delta))
    case NewMetric(i, kind, name) =>
      Count(s, C.Create(IdentityOf(s.nodes, Owner(i, kind, name)))).(
        nodes := AddMetric(s.nodes, i, kind, name, |s.metrics|), metrics := s.metrics + [Owner(i, kind, name)])
    case NewScope(i, prefix, tags) => s.(nodes := AddChild(s.nodes, i, prefix, tags))
    case Lock =>
      var Between(i, phase) := Top(s);
      s.(stack := Replace(s.stack,
        if phase < REGISTRY then Loop(i, phase, s.nodes[i].Of(KindAt(phase)).Keys)
        else Children(i, s.nodes[i].registry.Keys)))
    case VisitMetric(name) =>
      var Loop(i, phase, left) := Top(s);
      var m := s.nodes[i].Of(KindAt(phase))[name];
      var counted := if phase == 0 then Count(s, C.Report(m)) else s;
      counted.(stack := Replace(s.stack, Loop(i, phase, left - {name})), visited := s.visited + [m])
    case Unlock => s.(stack := Replace(s.stack, Between(Top(s).i, Top(s).phase + 1)))
    case Enter(id) =>
      var Children(i, left) := Top(s);
      s.(stack := Replace(s.stack, Children(i, left - {id})) + [Between(s.nodes[i].registry[id], 0)])
    case Leave => s.(stack := s.stack[..|s.stack| - 1])
  }

  // ---------------------------------------------------------------------- subtrees

  /** j is c or below it, by the parent links, which never change. */
  predicate InSubtree(nodes: seq<Node>, c: nat, j: nat)
    requires j < |nodes|
    decreases j
  {
    j == c || (nodes[j].parent < j && InSubtree(nodes, c, nodes[j].parent))
  }

  lemma {:induction false} SubtreeIsYounger(nodes: seq<Node>, c: nat, j: nat)
    requires j < |nodes| && InSubtree(nodes, c, j)
    ensures c <= j
    decreases j
  {
    if j != c {
      SubtreeIsYounger(nodes, c, nodes[j].parent);
    }
  }

  lemma {:induction false} SubtreeKept(nodes: seq<Node>, nodes': seq<Node>, c: nat, j: nat)
    requires j < |nodes| <= |nodes'| && forall k :: 0 <= k < |nodes| ==> nodes'[k].parent == nodes[k].parent
    ensures InSubtree(nodes', c, j) <==> InSubtree(nodes, c, j)
    decreases j
  {
    if j != c && nodes[j].parent < j {
      SubtreeKept(nodes, nodes', c, nodes[j].parent);
    }
  }

  /** Two scopes with one parent have nothing below them in common. */
  lemma {:induction false} SubtreesApart(nodes: seq<Node>, a: nat, b: nat, j: nat)
    requires j < |nodes| && InSubtree(nodes, a, j) && InSubtree(nodes, b, j)
    requires a < |nodes| && b < |nodes| && nodes[a].parent == nodes[b].parent < a && nodes[b].parent < b
    ensures a == b
    decreases j
  {
    if j == a && j != b {
      SubtreeIsYounger(nodes, b, nodes[j].parent);
    } else if j == b && j != a {
      SubtreeIsYounger(nodes, a, nodes[j].parent);
    } else if j != a {
      SubtreesApart(nodes, a, b, nodes[j].parent);
    }
  }

  ghost predicate UnderChild(nodes: seq<Node>, i: nat, id: Bytes, j: nat)
    requires i < |nodes| && j < |nodes|
  {
    id in nodes[i].registry && InSubtree(nodes, nodes[i].registry[id], j)
  }

  /** Below a scope is what is at or below its registered children. */
  lemma {:induction false} BelowIsUnderChildren(nodes: seq<Node>, i: nat, j: nat)
    requires Linked(nodes) && i < |nodes| && j < |nodes|
    ensures j != i && InSubtree(nodes, i, j) <==> exists id :: UnderChild(nodes, i, id, j)
    decreases j
  {
    if id :| UnderChild(nodes, i, id, j) {
      assert EntryOk(nodes, i, id);
      UnderChildIsBelow(nodes, i, nodes[i].registry[id], j);
    }
    if j != i && InSubtree(nodes, i, j) {
      var p := nodes[j].parent;
      assert RegisteredAtParent(nodes, j);
      if p == i {
        assert UnderChild(nodes, i, IdOf(nodes[j].prefix, nodes[j].tags), j);
      } else {
        BelowIsUnderChildren(nodes, i, p);
        var id :| UnderChild(nodes, i, id, p);
        assert UnderChild(nodes, i, id, j);
      }
    }
  }

  lemma {:induction false} UnderChildIsBelow(nodes: seq<Node>, i: nat, c: nat, j: nat)
    requires c < |nodes| && j < |nodes| && nodes[c].parent == i < c && InSubtree(nodes, c, j)
    ensures j > i && InSubtree(nodes, i, j)
    decreases j
  {
    if j != c {
      UnderChildIsBelow(nodes, i, c, nodes[j].parent);
    }
  }

  lemma {:induction false} AllUnderRoot(nodes: seq<Node>, j: nat)
    requires Linked(nodes) && j < |nodes|
    ensures InSubtree(nodes, 0, j)
    decreases j
  {
    if j > 0 {
      assert RegisteredAtParent(nodes, j);
      AllUnderRoot(nodes, nodes[j].parent);
    }
  }

  // ------------------------------------------------------------------- invariants

  /** A metric that this activation of `Report` still has to visit. */
  ghost predicate FrameOwes(nodes: seq<Node>, f: Frame, o: Owner)
    requires f.i < |nodes| && o.node < |nodes|
  {
    match f
    case Between(i, phase) => if o.node == i then Rank(o.kind) >= phase else InSubtree(nodes, i, o.node)
    case Loop(i, phase, left) =>
      if o.node == i then Rank(o.kind) > phase || (Rank(o.kind) == phase && o.name in left)
      else InSubtree(nodes, i, o.node)
    case Children(i, left) => exists id :: id in left && UnderChild(nodes, i, id, o.node)
  }

  ghost predicate InRange(nodes: seq<Node>, stack: seq<Frame>) {
    forall j :: 0 <= j < |stack| ==> stack[j].i < |nodes|
  }

  ghost predicate Owed(nodes: seq<Node>, stack: seq<Frame>, o: Owner)
    requires InRange(nodes, stack) && o.node < |nodes|
  {
    && stack != []
    && (FrameOwes(nodes, stack[|stack| - 1], o) || Owed(nodes, stack[..|stack| - 1], o))
  }

  ghost predicate FrameOk(nodes: seq<Node>, f: Frame) {
    && f.i < |nodes|
    && match f
       case Between(_, phase) => phase <= REGISTRY
       case Loop(i, phase, left) => phase < REGISTRY && left <= nodes[i].Of(KindAt(phase)).Keys
       case Children(i, left) => left <= nodes[i].registry.Keys
  }

  /** An activation that is not the innermost: it called `Report` on its child c, which it
      has taken off its list, and is now somewhere below c. */
  ghost predicate Calls(nodes: seq<Node>, f: Frame, c: nat, now: nat)
    requires f.i < |nodes| && now < |nodes|
  {
    && f.Children? && f.i < c < |nodes| && nodes[c].parent == f.i && InSubtree(nodes, c, now)
    && forall id :: id in f.left && id in nodes[f.i].registry ==> nodes[f.i].registry[id] != c
  }

  ghost predicate StackOk(nodes: seq<Node>, stack: seq<Frame>) {
    && (forall j :: 0 <= j < |stack| ==> FrameOk(nodes, stack[j]))
    && forall j, k :: 0 <= j < k < |stack| ==> Calls(nodes, stack[j], stack[j + 1].i, stack[k].i)
  }

  ghost predicate HeapOk(s: Walk) {
    && Linked(s.nodes) && Owned(s.nodes, s.metrics)
    && C.Inv(s.bank) && |s.bank.cells| == |s.metrics| && Labelled(s)
  }

  /** Every counter is labelled with what it is reported as. */
  ghost predicate Labelled(s: Walk) {
    && |s.bank.labels| == |s.metrics|
    && forall m :: 0 <= m < |s.metrics| ==> LabelOk(s, m)
  }

  ghost predicate LabelOk(s: Walk, m: nat)
    requires m < |s.metrics| == |s.bank.labels|
  {
    s.metrics[m].node < |s.nodes| && s.bank.labels[m] == IdentityOf(s.nodes, s.metrics[m])
  }

  /** Nothing is visited twice, nor owed once it is visited. */
  ghost predicate AtMostOnce(s: Walk)
    requires HeapOk(s) && StackOk(s.nodes, s.stack)
  {
    && NoDuplicates(s.visited)
    && forall m :: m in s.visited ==> m < |s.metrics| && OwnerOk(s, m) && !Owed(s.nodes, s.stack, s.metrics[m])
  }

  ghost predicate OwnerOk(s: Walk, m: nat)
    requires m < |s.metrics|
  {
    s.metrics[m].node < |s.nodes|
  }

  // -------------------------------------------------------------------- owed metrics

  lemma OwedAfterReplace(nodes: seq<Node>, stack: seq<Frame>, f: Frame, o: Owner)
    requires stack != [] && InRange(nodes, stack) && f.i < |nodes| && o.node < |nodes|
    ensures InRange(nodes, Replace(stack, f))
    ensures Owed(nodes, Replace(stack, f), o) <==> FrameOwes(nodes, f, o) || Owed(nodes, stack[..|stack| - 1], o)
  {
    assert Replace(stack, f)[..|stack| - 1] == stack[..|stack| - 1];
  }

  lemma OwedAfterPush(nodes: seq<Node>, stack: seq<Frame>, f: Frame, o: Owner)
    requires InRange(nodes, stack) && f.i < |nodes| && o.node < |nodes|
    ensures InRange(nodes, stack + [f])
    ensures Owed(nodes, stack + [f], o) <==> FrameOwes(nodes, f, o) || Owed(nodes, stack, o)
  {
    assert (stack + [f])[..|stack|] == stack;
  }

  lemma StackAfterReplace(nodes: seq<Node>, stack: seq<Frame>, f: Frame)
    requires stack != [] && StackOk(nodes, stack) && FrameOk(nodes, f) && f.i == stack[|stack| - 1].i
    ensures StackOk(nodes, Replace(stack, f))
  {
    var stack' := Replace(stack, f);
    assert forall j :: 0 <= j < |stack| - 1 ==> stack'[j] == stack[j];
    assert forall j :: 0 <= j < |stack| ==> stack'[j].i == stack[j].i;
  }

  /** What an outer activation still owes is not below the scope it is in. */
  lemma {:induction false} OuterOwesNot(nodes: seq<Node>, stack: seq<Frame>, n: nat, o: Owner)
    requires Linked(nodes) && StackOk(nodes, stack) && n < |stack|
    requires o.node < |nodes| && o.node == stack[|stack| - 1].i
    ensures !Owed(nodes, stack[..n], o)
  {
    if n > 0 {
      OuterOwesNot(nodes, stack, n - 1, o);
      assert stack[..n][..n - 1] == stack[..n - 1];
      var f := stack[n - 1];
      assert Calls(nodes, f, stack[n].i, o.node);
      CallerOwesNot(nodes, f, stack[n].i, o);
    }
  }

  lemma CallerOwesNot(nodes: seq<Node>, f: Frame, c: nat, o: Owner)
    requires Linked(nodes) && f.i < |nodes| && o.node < |nodes| && Calls(nodes, f, c, o.node)
    ensures !FrameOwes(nodes, f, o)
  {
    if id :| id in f.left && UnderChild(nodes, f.i, id, o.node) {
      assert EntryOk(nodes, f.i, id);
      SubtreesApart(nodes, c, nodes[f.i].registry[id], o.node);
      assert false;
    }
  }

  // ----------------------------------------------- steps of the walk owe the same

  /** Taking the next mutex, or finishing a loop, changes nothing in what is owed. */
  lemma LockOwesSame(nodes: seq<Node>, metrics: seq<Owner>, i: nat, phase: nat, m: nat)
    requires Linked(nodes) && Owned(nodes, metrics) && i < |nodes| && phase < REGISTRY
    requires m < |metrics| && metrics[m].node < |nodes|
    ensures FrameOwes(nodes, Loop(i, phase, nodes[i].Of(KindAt(phase)).Keys), metrics[m])
       <==> FrameOwes(nodes, Between(i, phase), metrics[m])
    ensures FrameOwes(nodes, Loop(i, phase, {}), metrics[m]) <==> FrameOwes(nodes, Between(i, phase + 1), metrics[m])
  {
    assert MetricOk(nodes, m, metrics[m]);
  }

  lemma RegistryOwesSame(nodes: seq<Node>, i: nat, o: Owner)
    requires Linked(nodes) && i < |nodes| && o.node < |nodes|
    ensures FrameOwes(nodes, Children(i, nodes[i].registry.Keys), o) <==> FrameOwes(nodes, Between(i, REGISTRY), o)
    ensures !FrameOwes(nodes, Children(i, {}), o)
  {
    BelowIsUnderChildren(nodes, i, o.node);
    if o.node != i && InSubtree(nodes, i, o.node) {
      var id :| UnderChild(nodes, i, id, o.node);
      assert id in nodes[i].registry.Keys;
    }
  }

  lemma EnterOwesSame(nodes: seq<Node>, i: nat, left: set<Bytes>, id: Bytes, o: Owner)
    requires Linked(nodes) && i < |nodes| && o.node < |nodes| && id in left && id in nodes[i].registry
    ensures nodes[i].registry[id] < |nodes|
    ensures FrameOwes(nodes, Children(i, left), o) <==>
      FrameOwes(nodes, Children(i, left - {id}), o) || FrameOwes(nodes, Between(nodes[i].registry[id], 0), o)
  {
    assert EntryOk(nodes, i, id);
    var c := nodes[i].registry[id];
    assert FrameOwes(nodes, Between(c, 0), o) <==> UnderChild(nodes, i, id, o.node);
  }

  /** Other threads' new scopes and metrics change nothing in what is owed of the old ones. */
  ghost predicate Grown(nodes: seq<Node>, nodes': seq<Node>) {
    && |nodes| <= |nodes'|
    && forall k :: 0 <= k < |nodes| ==> nodes'[k].parent == nodes[k].parent
  }

  lemma FrameOwesSame(nodes: seq<Node>, nodes': seq<Node>, f: Frame, o: Owner)
    requires Linked(nodes) && Grown(nodes, nodes') && f.i < |nodes| && o.node < |nodes|
    requires f.Children? ==> nodes'[f.i].registry == nodes[f.i].registry
    ensures FrameOwes(nodes', f, o) <==> FrameOwes(nodes, f, o)
  {
    SubtreeKept(nodes, nodes', f.i, o.node);
    if f.Children? {
      forall id | id in nodes[f.i].registry
        ensures UnderChild(nodes', f.i, id, o.node) <==> UnderChild(nodes, f.i, id, o.node)
      {
        SubtreeKept(nodes, nodes', nodes[f.i].registry[id], o.node);
      }
    }
  }

  lemma {:induction false} OwedSame(nodes: seq<Node>, nodes': seq<Node>, stack: seq<Frame>, o: Owner)
    requires Linked(nodes) && Grown(nodes, nodes') && InRange(nodes, stack) && o.node < |nodes|
    requires forall j :: 0 <= j < |stack| && stack[j].Children? ==>
      nodes'[stack[j].i].registry == nodes[stack[j].i].registry
    ensures InRange(nodes', stack) && (Owed(nodes', stack, o) <==> Owed(nodes, stack, o))
  {
    if stack != [] {
      FrameOwesSame(nodes, nodes', stack[|stack| - 1], o);
      OwedSame(nodes, nodes', stack[..|stack| - 1], o);
    }
  }

  // ------------------------------------------------------ every step keeps them

  ghost predicate Inv(s: Walk) {
    HeapOk(s) && StackOk(s.nodes, s.stack) && AtMostOnce(s)
  }

  lemma OwnersInRange(s: Walk, m: nat)
    requires HeapOk(s) && m < |s.metrics|
    ensures OwnerOk(s, m)
  {
    assert MetricOk(s.nodes, m, s.metrics[m]);
  }

  lemma LabelsKept(s: Walk, step: Step)
    requires HeapOk(s) && Enabled(s, step)
    ensures Labelled(Next(s, step))
  {
    var s' := Next(s, step);
    match step {
      case NewMetric(i, kind, name) => IdentitiesKept(s.nodes, s.metrics, i, kind, name, |s.metrics|);
      case _ =>
    }
    forall m | 0 <= m < |s'.metrics| ensures LabelOk(s', m) {
      if m < |s.metrics| {
        assert LabelOk(s, m);
      }
    }
  }

  lemma HeapKept(s: Walk, step: Step)
    requires HeapOk(s) && Enabled(s, step)
    ensures HeapOk(Next(s, step))
  {
    LabelsKept(s, step);
    match step
    case Inc(m, delta) => C.InvKept(s.bank, C.Inc(m, delta));
    case NewMetric(i, kind, name) =>
      C.InvKept(s.bank, C.Create(IdentityOf(s.nodes, Owner(i, kind, name))));
      AddMetricLinked(s.nodes, i, kind, name, |s.metrics|);
      AddMetricOwned(s.nodes, s.metrics, i, kind, name);
    case NewScope(i, prefix, tags) =>
      AddChildLinked(s.nodes, i, prefix, tags);
      AddChildOwned(s.nodes, s.metrics, i, prefix, tags);
    case VisitMetric(name) =>
      if Top(s).phase == 0 {
        C.InvKept(s.bank, C.Report(s.nodes[Top(s).i].counters[name]));
      }
    case _ =>
  }

  /** The heap after another thread's step has the old scopes, with the maps whose mutexes the
      walk holds as they were. */
  ghost predicate HeapGrown(nodes: seq<Node>, nodes': seq<Node>, stack: seq<Frame>) {
    && Grown(nodes, nodes')
    && (forall k, kind :: 0 <= k < |nodes| ==> nodes[k].Of(kind).Keys <= nodes'[k].Of(kind).Keys)
    && forall j :: 0 <= j < |stack| && stack[j].i < |nodes| && stack[j].Children? ==>
      nodes'[stack[j].i].registry == nodes[stack[j].i].registry
  }

  lemma MetricGrows(s: Walk, i: nat, kind: Kind, name: Bytes)
    requires Enabled(s, NewMetric(i, kind, name))
    ensures HeapGrown(s.nodes, AddMetric(s.nodes, i, kind, name, |s.metrics|), s.stack)
  {
    var nodes' := AddMetric(s.nodes, i, kind, name, |s.metrics|);
    assert forall k :: 0 <= k < |s.nodes| ==>
      nodes'[k].parent == s.nodes[k].parent && nodes'[k].registry == s.nodes[k].registry;
  }

  lemma ScopeGrows(s: Walk, i: nat, prefix: Bytes, tags: Tags)
    requires Enabled(s, NewScope(i, prefix, tags))
    ensures HeapGrown(s.nodes, AddChild(s.nodes, i, prefix, tags), s.stack)
  {
  }

  lemma StackAfterGrowth(nodes: seq<Node>, nodes': seq<Node>, stack: seq<Frame>)
    requires StackOk(nodes, stack) && HeapGrown(nodes, nodes', stack)
    ensures StackOk(nodes', stack)
  {
    forall j, k | 0 <= j < k < |stack| ensures Calls(nodes', stack[j], stack[j + 1].i, stack[k].i) {
      assert Calls(nodes, stack[j], stack[j + 1].i, stack[k].i);
      SubtreeKept(nodes, nodes', stack[j + 1].i, stack[k].i);
    }
  }

  lemma StackAfterEnter(nodes: seq<Node>, stack: seq<Frame>, id: Bytes)
    requires Linked(nodes) && StackOk(nodes, stack) && stack != []
    requires var top := stack[|stack| - 1]; top.Children? && id in top.left && id in nodes[top.i].registry
    ensures var Children(i, left) := stack[|stack| - 1];
      StackOk(nodes, Replace(stack, Children(i, left - {id})) + [Between(nodes[i].registry[id], 0)])
  {
    var Children(i, left) := stack[|stack| - 1];
    assert EntryOk(nodes, i, id);
    var c := nodes[i].registry[id];
    var outer := Replace(stack, Children(i, left - {id}));
    StackAfterReplace(nodes, stack, Children(i, left - {id}));
    var stack' := outer + [Between(c, 0)];
    forall j, k | 0 <= j < k < |stack'| ensures Calls(nodes, stack'[j], stack'[j + 1].i, stack'[k].i) {
      if k == |stack| {
        if j == |stack| - 1 {
          OtherEntries(nodes, i, id);
        } else {
          assert Calls(nodes, outer[j], outer[j + 1].i, i);
          SubtreeIsYounger(nodes, outer[j + 1].i, i);
        }
      } else {
        assert Calls(nodes, outer[j], outer[j + 1].i, outer[k].i);
      }
    }
  }

  lemma OtherEntries(nodes: seq<Node>, i: nat, id: Bytes)
    requires Linked(nodes) && i < |nodes| && id in nodes[i].registry
    ensures forall x :: x in nodes[i].registry && x != id ==> nodes[i].registry[x] != nodes[i].registry[id]
  {
    forall x | x in nodes[i].registry && x != id ensures nodes[i].registry[x] != nodes[i].registry[id] {
      assert EntryOk(nodes, i, x) && EntryOk(nodes, i, id);
    }
  }

  lemma StackKept(s: Walk, step: Step)
    requires HeapOk(s) && StackOk(s.nodes, s.stack) && Enabled(s, step)
    ensures StackOk(Next(s, step).nodes, Next(s, step).stack)
  {
    match step
    case NewMetric(i, kind, name) =>
      MetricGrows(s, i, kind, name);
      StackAfterGrowth(s.nodes, Next(s, step).nodes, s.stack);
    case NewScope(i, prefix, tags) =>
      ScopeGrows(s, i, prefix, tags);
      StackAfterGrowth(s.nodes, Next(s, step).nodes, s.stack);
    case Enter(id) => StackAfterEnter(s.nodes, s.stack, id);
    case Lock => StackAfterReplace(s.nodes, s.stack, Top(Next(s, step)));
    case Unlock => StackAfterReplace(s.nodes, s.stack, Top(Next(s, step)));
    case VisitMetric(name) => StackAfterReplace(s.nodes, s.stack, Top(Next(s, step)));
    case _ =>
  }

  /** The metric that a step visits. */
  ghost predicate Visits(s: Walk, step: Step, m: nat) {
    && step.VisitMetric? && s.stack != [] && Top(s).Loop? && Top(s).i < |s.nodes|
    && step.name in s.nodes[Top(s).i].Of(KindAt(Top(s).phase))
    && s.nodes[Top(s).i].Of(KindAt(Top(s).phase))[step.name] == m
  }

  lemma VisitIsOwed(s: Walk, name: Bytes, m: nat)
    requires HeapOk(s) && StackOk(s.nodes, s.stack)
    requires Enabled(s, VisitMetric(name)) && Visits(s, VisitMetric(name), m)
    ensures m < |s.metrics| && s.metrics[m] == Owner(Top(s).i, KindAt(Top(s).phase), name)
    ensures Owed(s.nodes, s.stack, s.metrics[m])
  {
    assert NameOk(s.metrics, s.nodes[Top(s).i], Top(s).i, KindAt(Top(s).phase), name);
  }

  /** Visiting a metric takes it, and no other, off what is owed. */
  lemma VisitOwes(s: Walk, name: Bytes, m: nat)
    requires HeapOk(s) && StackOk(s.nodes, s.stack) && Enabled(s, VisitMetric(name))
    requires m < |s.metrics| && OwnerOk(s, m)
    ensures var Loop(i, phase, left) := Top(s);
      var stack' := Replace(s.stack, Loop(i, phase, left - {name}));
      && InRange(s.nodes, stack')
      && (Owed(s.nodes, stack', s.metrics[m]) <==>
          Owed(s.nodes, s.stack, s.metrics[m]) && !Visits(s, VisitMetric(name), m))
  {
    var Loop(i, phase, left) := Top(s);
    var o := s.metrics[m];
    OwedAfterReplace(s.nodes, s.stack, Loop(i, phase, left - {name}), o);
    assert MetricOk(s.nodes, m, o);
    if Visits(s, VisitMetric(name), m) {
      VisitIsOwed(s, name, m);
      OuterOwesNot(s.nodes, s.stack, |s.stack| - 1, o);
    }
  }

  /** What a step does to a metric's being owed. */
  lemma OwedKept(s: Walk, step: Step, m: nat)
    requires HeapOk(s) && StackOk(s.nodes, s.stack) && Enabled(s, step) && m < |s.metrics|
    ensures OwnerOk(s, m) && StackOk(Next(s, step).nodes, Next(s, step).stack)
    ensures var s' := Next(s, step);
      && m < |s'.metrics| && s'.metrics[m] == s.metrics[m] && |s.nodes| <= |s'.nodes|
      && (Owed(s'.nodes, s'.stack, s.metrics[m]) <==> Owed(s.nodes, s.stack, s.metrics[m]) && !Visits(s, step, m))
  {
    OwnersInRange(s, m);
    StackKept(s, step);
    var s', o := Next(s, step), s.metrics[m];
    match step
    case Inc(_, _) =>
    case NewMetric(i, kind, name) =>
      MetricGrows(s, i, kind, name);
      OwedSame(s.nodes, s'.nodes, s.stack, o);
    case NewScope(i, prefix, tags) =>
      ScopeGrows(s, i, prefix, tags);
      OwedSame(s.nodes, s'.nodes, s.stack, o);
    case VisitMetric(name) => VisitOwes(s, name, m);
    case Enter(id) => EnterKeepsOwed(s, id, o);
    case _ => LoopKeepsOwed(s, step, m);
  }

  lemma EnterKeepsOwed(s: Walk, id: Bytes, o: Owner)
    requires HeapOk(s) && StackOk(s.nodes, s.stack) && Enabled(s, Enter(id)) && o.node < |s.nodes|
    requires StackOk(s.nodes, Next(s, Enter(id)).stack)
    ensures Owed(s.nodes, Next(s, Enter(id)).stack, o) <==> Owed(s.nodes, s.stack, o)
  {
    var Children(i, left) := Top(s);
    EnterOwesSame(s.nodes, i, left, id, o);
    OwedAfterReplace(s.nodes, s.stack, Children(i, left - {id}), o);
    OwedAfterPush(s.nodes, Replace(s.stack, Children(i, left - {id})), Between(s.nodes[i].registry[id], 0), o);
  }

  lemma LoopKeepsOwed(s: Walk, step: Step, m: nat)
    requires HeapOk(s) && StackOk(s.nodes, s.stack) && Enabled(s, step) && m < |s.metrics| && OwnerOk(s, m)
    requires (step.Lock? || step.Unlock? || step.Leave?) && StackOk(s.nodes, Next(s, step).stack)
    ensures Owed(s.nodes, Next(s, step).stack, s.metrics[m]) <==> Owed(s.nodes, s.stack, s.metrics[m])
  {
    var i, o := Top(s).i, s.metrics[m];
    RegistryOwesSame(s.nodes, i, o);
    if !step.Leave? {
      OwedAfterReplace(s.nodes, s.stack, Top(Next(s, step)), o);
      if Top(s).phase < REGISTRY {
        LockOwesSame(s.nodes, s.metrics, i, Top(s).phase, m);
      }
    }
  }

  lemma AtMostOnceKept(s: Walk, step: Step)
    requires Inv(s) && Enabled(s, step)
    requires HeapOk(Next(s, step)) && StackOk(Next(s, step).nodes, Next(s, step).stack)
    ensures AtMostOnce(Next(s, step))
  {
    var s' := Next(s, step);
    if step.VisitMetric? {
      var m := s'.visited[|s.visited|];
      VisitIsOwed(s, step.name, m);
      assert m !in s.visited;
    }
    forall m | m in s'.visited
      ensures m < |s'.metrics| && OwnerOk(s', m) && !Owed(s'.nodes, s'.stack, s'.metrics[m])
    {
      VisitedInRange(s, step, m);
      OwedKept(s, step, m);
    }
  }

  lemma VisitedInRange(s: Walk, step: Step, m: nat)
    requires Inv(s) && Enabled(s, step) && m in Next(s, step).visited
    ensures m < |s.metrics| && (m in s.visited || Visits(s, step, m))
  {
    if m !in s.visited {
      VisitIsOwed(s, step.name, m);
    }
  }

  lemma InvKept(s: Walk, step: Step)
    requires Inv(s) && Enabled(s, step)
    ensures Inv(Next(s, step))
  {
    HeapKept(s, step);
    StackKept(s, step);
    AtMostOnceKept(s, step);
  }

  // -------------------------------------------------------------------- whole runs

  ghost function Execute(s: Walk, steps: seq<Step>): Option<Walk> {
    if |steps| == 0 then Some(s)
    else
      var last := |steps| - 1;
      match Execute(s, steps[..last])
      case None => None
      case Some(s') =>
        if C.Shaped(s'.bank) && Enabled(s', steps[last]) then Some(Next(s', steps[last])) else None
  }

  /** A call of `Report` on scope i begins. */
  function Begin(nodes: seq<Node>, metrics: seq<Owner>, bank: C.Bank<Identity>, i: nat): Walk {
    Walk(nodes, metrics, bank, [Between(i, 0)], [], [])
  }

  /** A metric that the call is to visit: it existed in the subtree when the call began. */
  ghost predicate Wanted(start: Walk, i: nat, m: nat) {
    m < |start.metrics| && OwnerOk(start, m) && InSubtree(start.nodes, i, start.metrics[m].node)
  }

  /** A metric of the beginning is visited or still owed, and is where it was. */
  ghost predicate Promised(start: Walk, s: Walk, m: nat) {
    && m < |start.metrics| <= |s.metrics| && s.metrics[m] == start.metrics[m]
    && s.metrics[m].node < |s.nodes| && InRange(s.nodes, s.stack)
    && (m in s.visited || Owed(s.nodes, s.stack, s.metrics[m]))
  }

  lemma PromiseKept(start: Walk, s: Walk, step: Step, m: nat)
    requires Inv(s) && Enabled(s, step) && Promised(start, s, m)
    ensures Promised(start, Next(s, step), m)
  {
    OwedKept(s, step, m);
    assert m in s.visited ==> m in Next(s, step).visited;
    assert Visits(s, step, m) ==> m in Next(s, step).visited;
  }

  /** The steps of the counters' machine: a run from the beginning, with a report of every
      counter visited. */
  ghost predicate Counted(start: Walk, s: Walk) {
    && C.Shaped(start.bank) && C.Execute(start.bank, s.ran) == Some(s.bank)
    && forall m :: m in s.visited && m < |s.metrics| && s.metrics[m].kind == CounterKind ==> C.Report(m) in s.ran
  }

  lemma CountedMore(start: Walk, s: Walk, step: C.Step<Identity>)
    requires C.Shaped(start.bank) && C.Execute(start.bank, s.ran) == Some(s.bank)
    requires C.Shaped(s.bank) && C.Enabled(s.bank, step)
    ensures C.Execute(start.bank, Count(s, step).ran) == Some(Count(s, step).bank)
  {
    C.ExecuteMore(start.bank, s.ran, s.bank, step);
  }

  lemma CountedKept(start: Walk, s: Walk, step: Step)
    requires Inv(s) && Enabled(s, step) && Counted(start, s)
    ensures Counted(start, Next(s, step))
  {
    var s' := Next(s, step);
    match step {
      case Inc(m, delta) => CountedMore(start, s, C.Inc(m, delta));
      case NewMetric(i, kind, name) => CountedMore(start, s, C.Create(IdentityOf(s.nodes, Owner(i, kind, name))));
      case VisitMetric(name) =>
        if Top(s).phase == 0 {
          CountedMore(start, s, C.Report(s.nodes[Top(s).i].counters[name]));
        }
      case _ =>
    }
    forall m | m in s'.visited && m < |s'.metrics| && s'.metrics[m].kind == CounterKind ensures C.Report(m) in s'.ran {
      VisitedInRange(s, step, m);
      ReportCounted(s, step, m);
    }
  }

  lemma ReportCounted(s: Walk, step: Step, m: nat)
    requires Inv(s) && Enabled(s, step) && m < |s.metrics| && Next(s, step).metrics[m].kind == CounterKind
    requires m in s.visited ==> s.metrics[m].kind == CounterKind ==> C.Report(m) in s.ran
    requires m in s.visited || Visits(s, step, m)
    ensures C.Report(m) in Next(s, step).ran
  {
    if Visits(s, step, m) && m !in s.visited {
      VisitIsOwed(s, step.name, m);
    }
  }

  lemma BeginOk(start: Walk, i: nat)
    requires HeapOk(start) && i < |start.nodes| && start.stack == [Between(i, 0)]
    requires start.visited == [] && start.ran == []
    ensures Inv(start) && Counted(start, start)
    ensures forall m :: Wanted(start, i, m) ==> Promised(start, start, m)
  {
    assert C.Execute(start.bank, []) == Some(start.bank);
  }

  ghost predicate AllKept(start: Walk, s: Walk, i: nat) {
    && Inv(s) && Counted(start, s)
    && forall m :: Wanted(start, i, m) ==> Promised(start, s, m)
  }

  lemma {:induction false} RunKeeps(start: Walk, i: nat, steps: seq<Step>)
    requires HeapOk(start) && i < |start.nodes| && start.stack == [Between(i, 0)]
    requires start.visited == [] && start.ran == []
    ensures var r := Execute(start, steps); r.Some? ==> AllKept(start, r.value, i)
  {
    if |steps| == 0 {
      BeginOk(start, i);
    } else {
      var last := |steps| - 1;
      RunKeeps(start, i, steps[..last]);
      var r := Execute(start, steps[..last]);
      if r.Some? && C.Shaped(r.value.bank) && Enabled(r.value, steps[last]) {
        StepKeeps(start, r.value, i, steps[last]);
      }
    }
  }

  lemma StepKeeps(start: Walk, s: Walk, i: nat, step: Step)
    requires AllKept(start, s, i) && Enabled(s, step)
    ensures AllKept(start, Next(s, step), i)
  {
    InvKept(s, step);
    CountedKept(start, s, step);
    forall m | Wanted(start, i, m) ensures Promised(start, Next(s, step), m) {
      PromiseKept(start, s, step, m);
    }
  }

  // ------------------------------------------------------------------ main results

  /** However the walk interleaves with new increments, metrics and scopes: at every moment no
      metric has been visited twice; and when the call returns, every metric that the subtree
      had when it began has been visited, so each of these exactly once. */
  lemma EachMetricOnce(
    nodes: seq<Node>, metrics: seq<Owner>, bank: C.Bank<Identity>, i: nat, steps: seq<Step>, s: Walk)
    requires HeapOk(Begin(nodes, metrics, bank, i)) && i < |nodes|
    requires Execute(Begin(nodes, metrics, bank, i), steps) == Some(s)
    ensures NoDuplicates(s.visited) && forall m :: m in s.visited ==> m < |s.metrics|
    ensures s.stack == [] ==> forall m :: Wanted(Begin(nodes, metrics, bank, i), i, m) ==> m in s.visited
  {
    var start := Begin(nodes, metrics, bank, i);
    RunKeeps(start, i, steps);
    if s.stack == [] {
      forall m | Wanted(start, i, m) ensures m in s.visited {
        assert Promised(start, s, m);
      }
    }
  }

  /** Any tree of `ScopeTree` is such a beginning. */
  lemma TreeCanBegin(tree: ScopeTree, i: nat)
    requires tree.Valid() && i < |tree.nodes|
    ensures HeapOk(Begin(tree.nodes, tree.metrics, tree.bank, i))
  {
  }

  /** The last report of the destructor: when the call on the root returns, every counter that
      existed when it began has accounted for all increments finished by then. */
  lemma LastReportCovers(
    nodes: seq<Node>, metrics: seq<Owner>, bank: C.Bank<Identity>, steps: seq<Step>, s: Walk, m: nat)
    requires HeapOk(Begin(nodes, metrics, bank, 0))
    requires Execute(Begin(nodes, metrics, bank, 0), steps) == Some(s) && s.stack == []
    requires m < |metrics| && metrics[m].kind == CounterKind
    ensures C.ReportedSince(s.bank, m, |bank.incs|)
  {
    var start := Begin(nodes, metrics, bank, 0);
    OwnersInRange(start, m);
    AllUnderRoot(nodes, metrics[m].node);
    EachMetricOnce(nodes, metrics, bank, 0, steps, s);
    RunKeeps(start, 0, steps);
    assert Wanted(start, 0, m) && Promised(start, s, m);
    C.ReportCoversEarlierIncrements(bank, s.ran, m);
  }

  /** At every moment of a report that other threads interrupt, for each full name and tag map:
      what was reported and what is pending is what was counted. */
  lemma WalkConserves(
    nodes: seq<Node>, metrics: seq<Owner>, bank: C.Bank<Identity>, i: nat, steps: seq<Step>, s: Walk,
    identity: Identity)
    requires HeapOk(Begin(nodes, metrics, bank, i)) && i < |nodes|
    requires Execute(Begin(nodes, metrics, bank, i), steps) == Some(s) && C.NoWrap(s.bank)
    ensures |s.bank.labels| == |s.metrics| && forall m :: 0 <= m < |s.metrics| ==> LabelOk(s, m)
    ensures C.SumLabelled(s.bank.log, s.bank.labels, identity)
         + C.PendingLabelled(s.bank.cells, s.bank.labels, identity)
         == C.SumLabelled(s.bank.incs, s.bank.labels, identity)
  {
    RunKeeps(Begin(nodes, metrics, bank, i), i, steps);
    C.InvConserves(s.bank, identity);
  }

  predicate OfWalk(step: Step) {
    step.Lock? || step.VisitMetric? || step.Unlock? || step.Enter? || step.Leave?
  }

  /** Until it returns, the walk can always take a step of its own: nothing another thread does
      blocks it for good. */
  lemma WalkCanGoOn(s: Walk)
    requires Inv(s) && NoOverflow(s.bank) && s.stack != []
    ensures exists step :: OfWalk(step) && Enabled(s, step)
  {
    var top := Top(s);
    match top
    case Between(_, _) => assert Enabled(s, Lock);
    case Loop(i, phase, left) =>
      if left == {} {
        assert Enabled(s, Unlock);
      } else {
        var name :| name in left;
        assert NameOk(s.metrics, s.nodes[i], i, KindAt(phase), name);
        assert Enabled(s, VisitMetric(name));
      }
    case Children(i, left) =>
      if left == {} {
        assert Enabled(s, Leave);
      } else {
        var id :| id in left;
        assert Enabled(s, Enter(id));
      }
  }

  // ------------------------------------------------------------------- termination

  /** A scope that this activation will call `Report` on, directly or further down. */
  ghost predicate FrameOwesScope(nodes: seq<Node>, f: Frame, j: nat)
    requires f.i < |nodes| && j < |nodes|
  {
    j != f.i && FrameOwes(nodes, f, Probe(j))
  }

  /** Any metric of scope j. */
  function Probe(j: nat): Owner {
    Owner(j, CounterKind, [])
  }

  ghost predicate ScopeOwed(nodes: seq<Node>, stack: seq<Frame>, j: nat)
    requires InRange(nodes, stack) && j < |nodes|
  {
    && stack != []
    && (FrameOwesScope(nodes, stack[|stack| - 1], j) || ScopeOwed(nodes, stack[..|stack| - 1], j))
  }

  lemma ScopeOwedAfterPush(nodes: seq<Node>, stack: seq<Frame>, f: Frame, j: nat)
    requires InRange(nodes, stack) && f.i < |nodes| && j < |nodes|
    ensures InRange(nodes, stack + [f])
    ensures ScopeOwed(nodes, stack + [f], j) <==> FrameOwesScope(nodes, f, j) || ScopeOwed(nodes, stack, j)
  {
    assert (stack + [f])[..|stack|] == stack;
  }

  lemma {:induction false} ScopeOwedIsOwed(nodes: seq<Node>, stack: seq<Frame>, j: nat)
    requires InRange(nodes, stack) && j < |nodes|
    ensures ScopeOwed(nodes, stack, j) ==> Owed(nodes, stack, Probe(j))
  {
    if stack != [] {
      ScopeOwedIsOwed(nodes, stack[..|stack| - 1], j);
    }
  }

  lemma {:induction false} ScopeOwedSame(nodes: seq<Node>, nodes': seq<Node>, stack: seq<Frame>, j: nat)
    requires Linked(nodes) && Grown(nodes, nodes') && InRange(nodes, stack) && j < |nodes|
    requires forall k :: 0 <= k < |stack| && stack[k].Children? ==>
      nodes'[stack[k].i].registry == nodes[stack[k].i].registry
    ensures InRange(nodes', stack) && (ScopeOwed(nodes', stack, j) <==> ScopeOwed(nodes, stack, j))
  {
    if stack != [] {
      FrameOwesSame(nodes, nodes', stack[|stack| - 1], Probe(j));
      ScopeOwedSame(nodes, nodes', stack[..|stack| - 1], j);
    }
  }

  /** The scope that a step enters. */
  ghost predicate Enters(s: Walk, step: Step, j: nat) {
    && step.Enter? && s.stack != [] && Top(s).i < |s.nodes| && step.id in s.nodes[Top(s).i].registry
    && s.nodes[Top(s).i].registry[step.id] == j
  }

  /** Entering a scope takes it, and no other, off what is owed. */
  lemma EnterOwesScope(s: Walk, id: Bytes, j: nat)
    requires HeapOk(s) && StackOk(s.nodes, s.stack) && Enabled(s, Enter(id)) && j < |s.nodes|
    requires StackOk(s.nodes, Next(s, Enter(id)).stack)
    ensures ScopeOwed(s.nodes, Next(s, Enter(id)).stack, j) <==>
      ScopeOwed(s.nodes, s.stack, j) && !Enters(s, Enter(id), j)
    ensures Enters(s, Enter(id), j) ==> ScopeOwed(s.nodes, s.stack, j)
  {
    var Children(i, left) := Top(s);
    var c, lower := s.nodes[i].registry[id], s.stack[..|s.stack| - 1];
    var outer := Replace(s.stack, Children(i, left - {id}));
    assert EntryOk(s.nodes, i, id);
    EnterOwesSame(s.nodes, i, left, id, Probe(j));
    ScopeOwedAfterPush(s.nodes, lower, Children(i, left - {id}), j);
    ScopeOwedAfterPush(s.nodes, outer, Between(c, 0), j);
    ChildrenOweBelow(s.nodes, i, left, j);
    if j == c {
      InnermostIsNotOwed(s.nodes, outer, c);
    }
  }

  lemma InnermostIsNotOwed(nodes: seq<Node>, outer: seq<Frame>, c: nat)
    requires Linked(nodes) && c < |nodes| && StackOk(nodes, outer + [Between(c, 0)])
    ensures InRange(nodes, outer) && !ScopeOwed(nodes, outer, c)
  {
    var stack := outer + [Between(c, 0)];
    assert stack[..|outer|] == outer;
    assert forall k :: 0 <= k < |outer| ==> stack[k] == outer[k];
    OuterOwesNot(nodes, stack, |outer|, Probe(c));
    ScopeOwedIsOwed(nodes, outer, c);
  }

  lemma ChildrenOweBelow(nodes: seq<Node>, i: nat, left: set<Bytes>, j: nat)
    requires Linked(nodes) && i < |nodes| && j < |nodes|
    ensures FrameOwes(nodes, Children(i, left), Probe(j)) ==> j != i
  {
    BelowIsUnderChildren(nodes, i, j);
  }

  lemma LoopKeepsScopes(s: Walk, step: Step, j: nat)
    requires HeapOk(s) && StackOk(s.nodes, s.stack) && Enabled(s, step) && j < |s.nodes|
    requires (step.Lock? || step.Unlock? || step.Leave? || step.VisitMetric?) && StackOk(s.nodes, Next(s, step).stack)
    ensures ScopeOwed(s.nodes, Next(s, step).stack, j) <==> ScopeOwed(s.nodes, s.stack, j)
  {
    RegistryOwesSame(s.nodes, Top(s).i, Probe(j));
    if !step.Leave? {
      ScopeOwedAfterPush(s.nodes, s.stack[..|s.stack| - 1], Top(Next(s, step)), j);
    }
  }

  lemma ScopeOwedKept(s: Walk, step: Step, j: nat)
    requires HeapOk(s) && StackOk(s.nodes, s.stack) && Enabled(s, step) && j < |s.nodes|
    ensures StackOk(Next(s, step).nodes, Next(s, step).stack) && |s.nodes| <= |Next(s, step).nodes|
    ensures var s' := Next(s, step);
      ScopeOwed(s'.nodes, s'.stack, j) <==> ScopeOwed(s.nodes, s.stack, j) && !Enters(s, step, j)
    ensures Enters(s, step, j) ==> ScopeOwed(s.nodes, s.stack, j)
  {
    StackKept(s, step);
    match step
    case Inc(_, _) =>
    case NewMetric(i, kind, name) =>
      MetricGrows(s, i, kind, name);
      ScopeOwedSame(s.nodes, Next(s, step).nodes, s.stack, j);
    case NewScope(i, prefix, tags) =>
      ScopeGrows(s, i, prefix, tags);
      ScopeOwedSame(s.nodes, Next(s, step).nodes, s.stack, j);
    case Enter(id) => EnterOwesScope(s, id, j);
    case _ => LoopKeepsScopes(s, step, j);
  }

  ghost function OwedMetrics(s: Walk): set<nat>
    requires HeapOk(s) && StackOk(s.nodes, s.stack)
  {
    set m | 0 <= m < |s.metrics| && OwnerOk(s, m) && Owed(s.nodes, s.stack, s.metrics[m])
  }

  ghost function OwedScopes(s: Walk): set<nat>
    requires StackOk(s.nodes, s.stack)
  {
    set j | 0 <= j < |s.nodes| && ScopeOwed(s.nodes, s.stack, j)
  }

  /** The steps an activation takes besides visits and calls. */
  function FrameRank(f: Frame): nat {
    match f
    case Between(_, phase) => if phase <= REGISTRY then 9 - 2 * phase else 0
    case Loop(_, phase, _) => if phase < REGISTRY then 8 - 2 * phase else 0
    case Children(_, _) => 2
  }

  function StackRank(stack: seq<Frame>): nat {
    if stack == [] then 0 else StackRank(stack[..|stack| - 1]) + FrameRank(stack[|stack| - 1])
  }

  /** A bound on the walk's own steps if nothing new is made: a call, with all it does besides
      visits, is ten of them at most. */
  ghost function Work(s: Walk): nat
    requires HeapOk(s) && StackOk(s.nodes, s.stack)
  {
    10 * |OwedScopes(s)| + |OwedMetrics(s)| + StackRank(s.stack)
  }

  lemma RankAfterReplace(stack: seq<Frame>, f: Frame)
    requires stack != []
    ensures StackRank(Replace(stack, f)) == StackRank(stack) - FrameRank(stack[|stack| - 1]) + FrameRank(f)
  {
    assert Replace(stack, f)[..|stack| - 1] == stack[..|stack| - 1];
  }

  lemma RankAfterPush(stack: seq<Frame>, f: Frame)
    ensures StackRank(stack + [f]) == StackRank(stack) + FrameRank(f)
  {
    assert (stack + [f])[..|stack|] == stack;
  }

  /** What a step costs or saves on the stack. */
  function RankChange(step: Step): int {
    match step
    case Enter(_) => 9
    case Leave => -2
    case Lock => -1
    case Unlock => -1
    case _ => 0
  }

  lemma LockRank(s: Walk)
    requires HeapOk(s) && StackOk(s.nodes, s.stack) && Enabled(s, Lock)
    ensures StackRank(Next(s, Lock).stack) == StackRank(s.stack) - 1
  {
    var i, phase := Top(s).i, Top(s).phase;
    if phase < REGISTRY {
      RankAfterLoop(s.nodes, s.stack, Loop(i, phase, s.nodes[i].Of(KindAt(phase)).Keys));
    } else {
      RankAfterLoop(s.nodes, s.stack, Children(i, s.nodes[i].registry.Keys));
    }
  }

  lemma RankKept(s: Walk, step: Step)
    requires HeapOk(s) && StackOk(s.nodes, s.stack) && Enabled(s, step)
    ensures StackRank(Next(s, step).stack) == StackRank(s.stack) + RankChange(step)
  {
    match step
    case Lock => LockRank(s);
    case Unlock => RankAfterLoop(s.nodes, s.stack, Between(Top(s).i, Top(s).phase + 1));
    case VisitMetric(name) => RankAfterLoop(s.nodes, s.stack, Loop(Top(s).i, Top(s).phase, Top(s).left - {name}));
    case Enter(id) => RankAfterEnter(s.stack, Top(s).left - {id}, s.nodes[Top(s).i].registry[id]);
    case _ =>
  }

  lemma RankAfterLoop(nodes: seq<Node>, stack: seq<Frame>, f: Frame)
    requires stack != [] && StackOk(nodes, stack)
    ensures StackRank(Replace(stack, f)) == StackRank(stack) - FrameRank(stack[|stack| - 1]) + FrameRank(f)
    ensures FrameOk(nodes, stack[|stack| - 1])
  {
    RankAfterReplace(stack, f);
  }

  lemma RankAfterEnter(stack: seq<Frame>, left: set<Bytes>, c: nat)
    requires stack != [] && stack[|stack| - 1].Children?
    ensures StackRank(Replace(stack, Children(stack[|stack| - 1].i, left)) + [Between(c, 0)]) == StackRank(stack) + 9
  {
    var f := Children(stack[|stack| - 1].i, left);
    RankAfterReplace(stack, f);
    RankAfterPush(Replace(stack, f), Between(c, 0));
  }

  lemma SetOneLess(a: set<nat>, b: set<nat>, x: nat)
    requires x in a && forall y :: y in b ==> y in a && y != x
    ensures |b| <= |a| - 1
  {
    Subset(b, a - {x});
  }

  lemma SetOneMore(a: set<nat>, b: set<nat>, x: nat)
    requires forall y :: y in b ==> y in a || y == x
    ensures |b| <= |a| + 1
  {
    Subset(b, a + {x});
  }

  lemma {:induction false} Subset(a: set<nat>, b: set<nat>)
    requires a <= b
    ensures |a| <= |b|
  {
    if a != {} {
      var x :| x in a;
      Subset(a - {x}, b - {x});
    }
  }

  lemma MetricsOwedAfter(s: Walk, step: Step)
    requires HeapOk(s) && StackOk(s.nodes, s.stack) && Enabled(s, step)
    ensures HeapOk(Next(s, step)) && StackOk(Next(s, step).nodes, Next(s, step).stack)
    ensures |OwedMetrics(Next(s, step))| <= |OwedMetrics(s)|
      + (if step.NewMetric? then 1 else if step.VisitMetric? then -1 else 0)
  {
    HeapKept(s, step);
    StackKept(s, step);
    var s' := Next(s, step);
    forall m | m in OwedMetrics(s')
      ensures (m in OwedMetrics(s) && !Visits(s, step, m)) || (step.NewMetric? && m == |s.metrics|)
    {
      if m < |s.metrics| {
        OwedKept(s, step, m);
      }
    }
    if step.NewMetric? {
      SetOneMore(OwedMetrics(s), OwedMetrics(s'), |s.metrics|);
    } else if step.VisitMetric? {
      var m := s.nodes[Top(s).i].Of(KindAt(Top(s).phase))[step.name];
      VisitIsOwed(s, step.name, m);
      OwnersInRange(s, m);
      SetOneLess(OwedMetrics(s), OwedMetrics(s'), m);
    } else {
      Subset(OwedMetrics(s'), OwedMetrics(s));
    }
  }

  lemma ScopesOwedAfter(s: Walk, step: Step)
    requires HeapOk(s) && StackOk(s.nodes, s.stack) && Enabled(s, step)
    ensures StackOk(Next(s, step).nodes, Next(s, step).stack)
    ensures |OwedScopes(Next(s, step))| <= |OwedScopes(s)|
      + (if step.NewScope? then 1 else if step.Enter? then -1 else 0)
  {
    StackKept(s, step);
    var s' := Next(s, step);
    forall j | j in OwedScopes(s')
      ensures (j in OwedScopes(s) && !Enters(s, step, j)) || (step.NewScope? && j == |s.nodes|)
    {
      if j < |s.nodes| {
        ScopeOwedKept(s, step, j);
      }
    }
    if step.NewScope? {
      SetOneMore(OwedScopes(s), OwedScopes(s'), |s.nodes|);
    } else if step.Enter? {
      var c := s.nodes[Top(s).i].registry[step.id];
      assert EntryOk(s.nodes, Top(s).i, step.id);
      ScopeOwedKept(s, step, c);
      SetOneLess(OwedScopes(s), OwedScopes(s'), c);
    } else {
      Subset(OwedScopes(s'), OwedScopes(s));
    }
  }

  /** Every step of the walk leaves it less to do, and other threads give it more only by making
      metrics and scopes. */
  lemma WorkShrinks(s: Walk, step: Step)
    requires HeapOk(s) && StackOk(s.nodes, s.stack) && Enabled(s, step)
    ensures HeapOk(Next(s, step)) && StackOk(Next(s, step).nodes, Next(s, step).stack)
    ensures OfWalk(step) ==> Work(Next(s, step)) < Work(s)
    ensures !OfWalk(step) ==> Work(Next(s, step)) <= Work(s) + Created(step)
  {
    MetricsOwedAfter(s, step);
    ScopesOwedAfter(s, step);
    RankKept(s, step);
  }

  /** What a step of another thread adds to the walk's work. */
  function Created(step: Step): nat {
    match step case NewMetric(_, _, _) => 1 case NewScope(_, _, _) => 10 case _ => 0
  }

  function OwnSteps(steps: seq<Step>): nat {
    if |steps| == 0 then 0
    else OwnSteps(steps[..|steps| - 1]) + if OfWalk(steps[|steps| - 1]) then 1 else 0
  }

  function AllCreated(steps: seq<Step>): nat {
    if |steps| == 0 then 0 else AllCreated(steps[..|steps| - 1]) + Created(steps[|steps| - 1])
  }

  lemma {:induction false} WorkBudget(s: Walk, steps: seq<Step>)
    requires HeapOk(s) && StackOk(s.nodes, s.stack)
    ensures var r := Execute(s, steps); r.Some? ==>
      && HeapOk(r.value) && StackOk(r.value.nodes, r.value.stack)
      && OwnSteps(steps) + Work(r.value) <= Work(s) + AllCreated(steps)
  {
    if |steps| > 0 {
      var last := |steps| - 1;
      WorkBudget(s, steps[..last]);
      var r := Execute(s, steps[..last]);
      if r.Some? && C.Shaped(r.value.bank) && Enabled(r.value, steps[last]) {
        WorkShrinks(r.value, steps[last]);
      }
    }
  }

  /** The report returns: it takes at most as many steps of its own as it had work at the
      beginning and was given meanwhile, and when it has taken them all it has returned. */
  lemma WalkReturns(
    nodes: seq<Node>, metrics: seq<Owner>, bank: C.Bank<Identity>, i: nat, steps: seq<Step>, s: Walk)
    requires HeapOk(Begin(nodes, metrics, bank, i)) && i < |nodes|
    requires Execute(Begin(nodes, metrics, bank, i), steps) == Some(s) && NoOverflow(s.bank)
    ensures StackOk(nodes, [Between(i, 0)])
    ensures OwnSteps(steps) <= Work(Begin(nodes, metrics, bank, i)) + AllCreated(steps)
    ensures OwnSteps(steps) == Work(Begin(nodes, metrics, bank, i)) + AllCreated(steps) ==> s.stack == []
  {
    var start := Begin(nodes, metrics, bank, i);
    BeginOk(start, i);
    WorkBudget(start, steps);
    RunKeeps(start, i, steps);
    if s.stack != [] {
      WalkCanGoOn(s);
      var step :| OfWalk(step) && Enabled(s, step);
      WorkShrinks(s, step);
    }
  }
}
