/** Which requests to a scope are always answered with the scope asked for.  A registry is
    keyed by printed IDs, and what can be registered at a scope are the children that
    `SubScope` and `Tagged` make of it: so a request can go wrong exactly when another request
    to the same scope, for something else, prints the same ID. */
module ScopeRequests {
  import opened Wrappers
  import opened ByteStrings
  import opened ScopeIds
  import opened IdReadings
  import opened ScopeIdUniqueness
  import opened ScopeNames
  import opened ScopeForest

  // ------------------------------------------------------- answers and other requests

  /** In every heap that requests can lead to, the scope that the registry of a scope with this
      prefix, separator and tags holds under the request's ID is the one asked for. */
  ghost predicate AlwaysAnswered(prefix: Bytes, separator: Bytes, tags: Tags, hop: Hop) {
    var (p, t) := Requested(prefix, separator, tags, hop);
    forall nodes: seq<Node>, i: nat ::
      (Linked(nodes) && Derived(nodes) && i < |nodes| && IsAt(nodes[i], prefix, separator, tags)
       && IdOf(p, t) in nodes[i].registry) ==> Stored(nodes, i, IdOf(p, t), p, t)
  }

  ghost predicate IsAt(n: Node, prefix: Bytes, separator: Bytes, tags: Tags) {
    n.prefix == prefix && n.separator == separator && n.tags == tags
  }

  ghost predicate Stored(nodes: seq<Node>, i: nat, id: Bytes, p: Bytes, t: Tags)
    requires i < |nodes| && id in nodes[i].registry
  {
    var c := nodes[i].registry[id];
    c < |nodes| && nodes[c].prefix == p && nodes[c].tags == t
  }

  /** The request `other` prints the ID of `hop` for something else. */
  ghost predicate Confused(prefix: Bytes, separator: Bytes, tags: Tags, hop: Hop, other: Hop) {
    var (p, t) := Requested(prefix, separator, tags, hop);
    var (p', t') := Requested(prefix, separator, tags, other);
    IdOf(p', t') == IdOf(p, t) && (p', t') != (p, t)
  }

  /** One way to a wrong answer is enough: on a new tree, `other` first and then `hop`. */
  lemma ConfusedIsWrong(prefix: Bytes, separator: Bytes, tags: Tags, hop: Hop, other: Hop)
    requires Confused(prefix, separator, tags, hop, other)
    ensures !AlwaysAnswered(prefix, separator, tags, hop)
  {
    var (p, t) := Requested(prefix, separator, tags, hop);
    var (p', t') := Requested(prefix, separator, tags, other);
    var root := [NewNode(0, prefix, separator, tags, 0)];
    AddChildLinked(root, 0, p', t');
    AddChildDerived(root, 0, p', t', other);
    OneChild(prefix, separator, tags, p', t');
    assert !Stored(AddChild(root, 0, p', t'), 0, IdOf(p, t), p, t);
  }

  lemma OneChild(prefix: Bytes, separator: Bytes, tags: Tags, p: Bytes, t: Tags)
    ensures var nodes := AddChild([NewNode(0, prefix, separator, tags, 0)], 0, p, t);
      && |nodes| == 2 && IsAt(nodes[0], prefix, separator, tags)
      && nodes[0].registry == map[IdOf(p, t) := 1] && nodes[1].prefix == p && nodes[1].tags == t
  {
  }

  lemma NotConfusedIsAnswered(prefix: Bytes, separator: Bytes, tags: Tags, hop: Hop)
    requires forall other :: !Confused(prefix, separator, tags, hop, other)
    ensures AlwaysAnswered(prefix, separator, tags, hop)
  {
    var (p, t) := Requested(prefix, separator, tags, hop);
    forall nodes: seq<Node>, i: nat | Linked(nodes) && Derived(nodes) && i < |nodes|
      && IsAt(nodes[i], prefix, separator, tags) && IdOf(p, t) in nodes[i].registry
      ensures Stored(nodes, i, IdOf(p, t), p, t)
    {
      assert EntryOk(nodes, i, IdOf(p, t));
      var c := nodes[i].registry[IdOf(p, t)];
      assert FromParent(nodes, c);
      var other :| Requested(prefix, separator, tags, other) == (nodes[c].prefix, nodes[c].tags);
      assert !Confused(prefix, separator, tags, hop, other);
    }
  }

  // ------------------------------------------------------------------ one request

  /** A request to scope i turns the heap `before` into `after` and is answered with `child`: the
      scope registered under the request's ID, or a new one. */
  ghost predicate Answers(before: seq<Node>, after: seq<Node>, i: nat, hop: Hop, child: nat) {
    && i < |before| <= |after|
    && var n := before[i];
       var (p, t) := Requested(n.prefix, n.separator, n.tags, hop);
       && (IdOf(p, t) in n.registry ==> after == before && child == n.registry[IdOf(p, t)])
       && (IdOf(p, t) !in n.registry ==> after == AddChild(before, i, p, t) && child == |before|)
  }

  ghost predicate Inherits(before: seq<Node>, after: seq<Node>, i: nat, child: nat) {
    && i < |before| && i < child < |after|
    && after[child].separator == before[i].separator && after[child].reporter == before[i].reporter
  }

  ghost predicate AsAsked(before: seq<Node>, after: seq<Node>, i: nat, hop: Hop, child: nat) {
    && i < |before| && child < |after|
    && (after[child].prefix, after[child].tags) == Requested(before[i].prefix, before[i].separator, before[i].tags, hop)
  }

  /** Every request along the chain is always answered as asked. */
  ghost predicate AnsweredChain(prefix: Bytes, separator: Bytes, tags: Tags, hops: seq<Hop>)
    decreases |hops|
  {
    |hops| > 0 ==>
      var (p, t) := Requested(prefix, separator, tags, hops[0]);
      AlwaysAnswered(prefix, separator, tags, hops[0]) && AnsweredChain(p, separator, t, hops[1..])
  }

  /** All scopes are clean, and so is what the request asks for. */
  ghost predicate AllCleanWith(nodes: seq<Node>, i: nat, hop: Hop)
    requires i < |nodes|
  {
    var (p, t) := Requested(nodes[i].prefix, nodes[i].separator, nodes[i].tags, hop);
    AllClean(nodes) && Clean(p, t)
  }

  lemma AnswerIsRegistered(before: seq<Node>, after: seq<Node>, i: nat, hop: Hop, child: nat)
    requires Linked(after) && Answers(before, after, i, hop, child)
    ensures var n := before[i];
      var (p, t) := Requested(n.prefix, n.separator, n.tags, hop);
      && IsAt(after[i], n.prefix, n.separator, n.tags)
      && IdOf(p, t) in after[i].registry && after[i].registry[IdOf(p, t)] == child
    ensures Inherits(before, after, i, child)
  {
    var n := before[i];
    var (p, t) := Requested(n.prefix, n.separator, n.tags, hop);
    assert IdOf(p, t) in after[i].registry && EntryOk(after, i, IdOf(p, t));
  }

  lemma AnswerAsAsked(before: seq<Node>, after: seq<Node>, i: nat, hop: Hop, child: nat)
    requires Linked(after) && Derived(after) && Answers(before, after, i, hop, child)
    ensures AlwaysAnswered(before[i].prefix, before[i].separator, before[i].tags, hop) ==>
      AsAsked(before, after, i, hop, child)
  {
    AnswerIsRegistered(before, after, i, hop, child);
    var n := before[i];
    var (p, t) := Requested(n.prefix, n.separator, n.tags, hop);
    if AlwaysAnswered(n.prefix, n.separator, n.tags, hop) {
      assert Stored(after, i, IdOf(p, t), p, t);
    }
  }

  lemma CleanAnswer(before: seq<Node>, after: seq<Node>, i: nat, hop: Hop, child: nat)
    requires Linked(after) && Answers(before, after, i, hop, child)
    ensures AllCleanWith(before, i, hop) ==> AllClean(after) && AsAsked(before, after, i, hop, child)
  {
    AnswerIsRegistered(before, after, i, hop, child);
    var n := before[i];
    var (p, t) := Requested(n.prefix, n.separator, n.tags, hop);
    if AllCleanWith(before, i, hop) {
      SameObjectExactly(after, i, p, t, p, t);
    }
  }

  // --------------------------------------------------------------- larger tag sets

  ghost predicate Extends(t: Tags, u: Tags) {
    forall k :: k in t ==> k in u && u[k] == t[k]
  }

  lemma MergeExtends(t: Tags, x: Tags)
    ensures Extends(t, Merge(t, x))
    ensures Extends(t, x) ==> Merge(t, x) == x
  {
  }

  lemma {:induction false} BodyGrows(a: seq<Bytes>, b: seq<Bytes>, t: Tags, u: Tags)
    requires Ordered(a) && Ordered(b) && Extends(t, u)
    requires (forall k :: k in a ==> k in b && k in t) && forall k :: k in b ==> k in u
    ensures |Body(a, t)| <= |Body(b, u)| && (a != b ==> |Body(a, t)| < |Body(b, u)|)
    decreases |b|
  {
    if |a| > 0 {
      assert a[0] in b;
      assert a == [a[0]] + a[1..] && b == [b[0]] + b[1..];
      if a[0] == b[0] {
        TailsNest(a, b);
        BodyGrows(a[1..], b[1..], t, u);
      } else {
        RestNests(a, b);
        BodyGrows(a, b[1..], t, u);
      }
    } else if |b| > 0 {
      assert 0 < |Pair(b[0], u[b[0]])| <= |Body(b, u)|;
    }
  }

  lemma TailsNest(a: seq<Bytes>, b: seq<Bytes>)
    requires Ordered(a) && Ordered(b) && |a| > 0 && |b| > 0 && a[0] == b[0] && forall k :: k in a ==> k in b
    ensures forall k :: k in a[1..] ==> k in b[1..]
  {
    StringLessIrreflexive(a[0]);
    forall k | k in a[1..] ensures k in b[1..] {
      var i :| 0 <= i < |a[1..]| && a[1..][i] == k;
      assert StringLess(a[0], a[i + 1]);
      assert k in a && k in b;
    }
  }

  lemma RestNests(a: seq<Bytes>, b: seq<Bytes>)
    requires Ordered(a) && Ordered(b) && |a| > 0 && |b| > 0 && a[0] != b[0] && forall k :: k in a ==> k in b
    ensures forall k :: k in a ==> k in b[1..]
  {
    assert a[0] in b;
    var j :| 0 <= j < |b| && b[j] == a[0];
    assert StringLess(b[0], a[0]);
    StringLessIrreflexive(b[0]);
    forall k | k in a ensures k in b[1..] {
      var i :| 0 <= i < |a| && a[i] == k;
      if i > 0 {
        StringLessTransitive(b[0], a[0], a[i]);
      }
      assert k in b;
    }
  }

  /** Among the tag maps that extend t, only t itself prints as short as t. */
  lemma ExtensionIsLonger(t: Tags, u: Tags)
    requires Extends(t, u)
    ensures |BodyOf(t)| <= |BodyOf(u)|
    ensures |BodyOf(t)| == |BodyOf(u)| ==> t == u
  {
    var a, b := SortedKeys(t.Keys), SortedKeys(u.Keys);
    BodyGrows(a, b, t, u);
    if a == b {
      assert forall k :: k in t <==> k in u by { assert forall k :: k in a <==> k in b; }
    }
  }

  // --------------------------------------------------------- requests for a subscope

  /** What the new prefix of a subscope has behind the old one. */
  function Suffix(prefix: Bytes, separator: Bytes, name: Bytes): Bytes {
    if prefix == [] then name else separator + name
  }

  lemma SuffixIsBehind(prefix: Bytes, separator: Bytes, name: Bytes)
    ensures FullyQualifiedName(prefix, separator, name) == prefix + Suffix(prefix, separator, name)
  {
  }

  /** Behind the old prefix the ID can be read as tags of the old scope and more. */
  ghost predicate SubMisread(prefix: Bytes, separator: Bytes, tags: Tags, name: Bytes) {
    var r := Suffix(prefix, separator, name);
    r != [] && r[0] == PLUS && exists u :: u in Readings(r[1..] + [PLUS] + BodyOf(tags), None) && Extends(tags, u)
  }

  lemma CutSuffix(p: Bytes, r: Bytes, a: Bytes, b: Bytes)
    ensures p + [PLUS] + a == (p + r) + [PLUS] + b <==> [PLUS] + a == r + [PLUS] + b
  {
    var x, y := [PLUS] + a, r + [PLUS] + b;
    assert p + [PLUS] + a == p + x && (p + r) + [PLUS] + b == p + y;
    assert (p + x)[|p|..] == x && (p + y)[|p|..] == y;
  }

  lemma StartsWithPlus(r: Bytes, a: Bytes, b: Bytes)
    requires r != []
    ensures [PLUS] + a == r + [PLUS] + b <==> r[0] == PLUS && a == r[1..] + [PLUS] + b
  {
    var x, y := [PLUS] + a, r + [PLUS] + b;
    assert x[0] == PLUS && x[1..] == a;
    assert y[0] == r[0] && y[1..] == r[1..] + [PLUS] + b;
    if r[0] == PLUS && a == r[1..] + [PLUS] + b {
      assert x == [PLUS] + y[1..] == y;
    }
  }

  lemma SubConfusion(prefix: Bytes, separator: Bytes, tags: Tags, name: Bytes, other: Hop)
    requires Confused(prefix, separator, tags, Sub(name), other)
    ensures SubMisread(prefix, separator, tags, name)
  {
    var r := Suffix(prefix, separator, name);
    SuffixIsBehind(prefix, separator, name);
    assert Merge(tags, map[]) == tags;
    match other
    case Sub(name') =>
      var q, q' := FullyQualifiedName(prefix, separator, name), FullyQualifiedName(prefix, separator, name');
      SamePrefix(q, q', BodyOf(tags));
      assert false;
    case Tagged(x) =>
      var u := Merge(tags, x);
      MergeExtends(tags, x);
      CutSuffix(prefix, r, BodyOf(u), BodyOf(tags));
      if r == [] {
        assert prefix + r == prefix;
        ExtensionIsLonger(tags, u);
        assert false;
      } else {
        StartsWithPlus(r, BodyOf(u), BodyOf(tags));
        assert u != map[] by { NothingPrintsNothing(u); }
        ReadingsExactly(r[1..] + [PLUS] + BodyOf(tags), u);
      }
  }

  lemma SamePrefix(q: Bytes, q': Bytes, body: Bytes)
    ensures q + [PLUS] + body == q' + [PLUS] + body ==> q == q'
  {
    if q + [PLUS] + body == q' + [PLUS] + body {
      assert |q| == |q'|;
      assert q == (q + [PLUS] + body)[..|q|] == q';
    }
  }

  lemma NothingPrintsNothing(u: Tags)
    ensures u == map[] <==> BodyOf(u) == []
  {
    NoKeys(u);
    if u != map[] {
      BodyHasEquals(SortedKeys(u.Keys), u);
    }
  }

  lemma SubMisreadIsConfused(prefix: Bytes, separator: Bytes, tags: Tags, name: Bytes, u: Tags)
    requires var r := Suffix(prefix, separator, name);
      r != [] && r[0] == PLUS && u in Readings(r[1..] + [PLUS] + BodyOf(tags), None) && Extends(tags, u)
    ensures Confused(prefix, separator, tags, Sub(name), Tagged(u))
  {
    var r := Suffix(prefix, separator, name);
    SuffixIsBehind(prefix, separator, name);
    assert Merge(tags, map[]) == tags;
    MergeExtends(tags, u);
    ReadingsExactly(r[1..] + [PLUS] + BodyOf(tags), u);
    StartsWithPlus(r, BodyOf(u), BodyOf(tags));
    CutSuffix(prefix, r, BodyOf(u), BodyOf(tags));
    assert |prefix + r| > |prefix|;
  }

  /** `SubScope(name)` is always answered as asked exactly when what it puts behind the prefix
      cannot be read as tags. */
  lemma SubAnsweredExactly(prefix: Bytes, separator: Bytes, tags: Tags, name: Bytes)
    ensures AlwaysAnswered(prefix, separator, tags, Sub(name)) <==> !SubMisread(prefix, separator, tags, name)
  {
    var r := Suffix(prefix, separator, name);
    if SubMisread(prefix, separator, tags, name) {
      var u :| u in Readings(r[1..] + [PLUS] + BodyOf(tags), None) && Extends(tags, u);
      SubMisreadIsConfused(prefix, separator, tags, name, u);
      ConfusedIsWrong(prefix, separator, tags, Sub(name), Tagged(u));
    } else {
      forall other ensures !Confused(prefix, separator, tags, Sub(name), other) {
        if Confused(prefix, separator, tags, Sub(name), other) {
          SubConfusion(prefix, separator, tags, name, other);
          assert false;
        }
      }
      NotConfusedIsAnswered(prefix, separator, tags, Sub(name));
    }
  }

  // ------------------------------------------------------------ requests with tags

  /** The ID of the new tags can be read with other tags that extend the scope's. */
  ghost predicate ReadOtherwise(tags: Tags, u: Tags) {
    exists v :: v in Readings(BodyOf(u), None) && Extends(tags, v) && v != u
  }

  /** The ID of the new tags ends like the scope's own, and what is before that can be the
      prefix of a subscope. */
  ghost predicate ReadAsSub(prefix: Bytes, separator: Bytes, tags: Tags, u: Tags) {
    EndsAs(prefix, separator, BodyOf(u), BodyOf(tags))
  }

  ghost predicate EndsAs(prefix: Bytes, separator: Bytes, b: Bytes, c: Bytes) {
    var n := |b| - |c| - 1;
    n >= 0 && b[n..] == [PLUS] + c && (prefix == [] || separator <= [PLUS] + b[..n])
  }

  ghost predicate TaggedMisread(prefix: Bytes, separator: Bytes, tags: Tags, provided: Tags) {
    var u := Merge(tags, provided);
    ReadOtherwise(tags, u) || ReadAsSub(prefix, separator, tags, u)
  }

  lemma CutEnd(r: Bytes, b: Bytes, c: Bytes)
    requires r != [] && r + [PLUS] + c == [PLUS] + b
    ensures var n := |b| - |c| - 1; n >= 0 && b[n..] == [PLUS] + c && r == [PLUS] + b[..n]
  {
    var n, x := |r| - 1, [PLUS] + b;
    assert |x| == |r| + 1 + |c|;
    assert x[|r|..] == [PLUS] + c by { assert x == r + ([PLUS] + c); }
    assert b[n..] == x[n + 1..];
    assert r == x[..|r|] == [PLUS] + b[..n];
  }

  lemma SuffixEndsAs(prefix: Bytes, separator: Bytes, name: Bytes, b: Bytes, c: Bytes)
    requires var r := Suffix(prefix, separator, name); r != [] && [PLUS] + b == r + [PLUS] + c
    ensures EndsAs(prefix, separator, b, c)
  {
    CutEnd(Suffix(prefix, separator, name), b, c);
  }

  lemma TaggedBySub(prefix: Bytes, separator: Bytes, tags: Tags, provided: Tags, name: Bytes)
    requires Confused(prefix, separator, tags, Tagged(provided), Sub(name))
    ensures ReadAsSub(prefix, separator, tags, Merge(tags, provided))
  {
    var r, u := Suffix(prefix, separator, name), Merge(tags, provided);
    SuffixIsBehind(prefix, separator, name);
    MergeExtends(tags, provided);
    assert Merge(tags, map[]) == tags;
    CutSuffix(prefix, r, BodyOf(u), BodyOf(tags));
    if r == [] {
      assert prefix + r == prefix;
      ExtensionIsLonger(tags, u);
      assert false;
    } else {
      SuffixEndsAs(prefix, separator, name, BodyOf(u), BodyOf(tags));
    }
  }

  lemma TaggedByTagged(prefix: Bytes, separator: Bytes, tags: Tags, provided: Tags, x: Tags)
    requires Confused(prefix, separator, tags, Tagged(provided), Tagged(x))
    ensures ReadOtherwise(tags, Merge(tags, provided))
  {
    var u, v := Merge(tags, provided), Merge(tags, x);
    MergeExtends(tags, x);
    SameBody(prefix, u, v);
    NothingPrintsNothing(u);
    NothingPrintsNothing(v);
    ReadingsExactly(BodyOf(u), v);
  }

  lemma SameBody(prefix: Bytes, u: Tags, v: Tags)
    ensures IdOf(prefix, u) == IdOf(prefix, v) <==> BodyOf(u) == BodyOf(v)
  {
    var n := |prefix| + 1;
    assert IdOf(prefix, u)[n..] == BodyOf(u) && IdOf(prefix, v)[n..] == BodyOf(v);
  }

  lemma ReadOtherwiseIsConfused(prefix: Bytes, separator: Bytes, tags: Tags, provided: Tags, v: Tags)
    requires var u := Merge(tags, provided); v in Readings(BodyOf(u), None) && Extends(tags, v) && v != u
    ensures Confused(prefix, separator, tags, Tagged(provided), Tagged(v))
  {
    var u := Merge(tags, provided);
    ReadingsExactly(BodyOf(u), v);
    MergeExtends(tags, v);
    SameBody(prefix, u, v);
  }

  lemma NameOfSuffix(prefix: Bytes, separator: Bytes, r: Bytes) returns (name: Bytes)
    requires prefix == [] || separator <= r
    ensures Suffix(prefix, separator, name) == r
  {
    name := if prefix == [] then r else r[|separator|..];
  }

  lemma Assoc(a: Bytes, b: Bytes, c: Bytes)
    ensures a + b + c == a + (b + c)
  {
  }

  lemma JoinAtPlus(front: Bytes, c: Bytes)
    ensures [PLUS] + (front + ([PLUS] + c)) == ([PLUS] + front) + [PLUS] + c
  {
    Assoc([PLUS], front, [PLUS] + c);
    Assoc([PLUS] + front, [PLUS], c);
  }

  lemma NameOfEnd(prefix: Bytes, separator: Bytes, b: Bytes, c: Bytes) returns (name: Bytes)
    requires EndsAs(prefix, separator, b, c)
    ensures var r := Suffix(prefix, separator, name); r != [] && [PLUS] + b == r + [PLUS] + c
  {
    var front := b[..|b| - |c| - 1];
    assert b == front + ([PLUS] + c);
    name := NameOfSuffix(prefix, separator, [PLUS] + front);
    JoinAtPlus(front, c);
  }

  lemma ReadAsSubIsConfused(prefix: Bytes, separator: Bytes, tags: Tags, provided: Tags) returns (name: Bytes)
    requires ReadAsSub(prefix, separator, tags, Merge(tags, provided))
    ensures Confused(prefix, separator, tags, Tagged(provided), Sub(name))
  {
    name := NameOfEnd(prefix, separator, BodyOf(Merge(tags, provided)), BodyOf(tags));
    SubIsConfused(prefix, separator, tags, provided, name, Suffix(prefix, separator, name));
  }

  lemma SubIsConfused(prefix: Bytes, separator: Bytes, tags: Tags, provided: Tags, name: Bytes, r: Bytes)
    requires Suffix(prefix, separator, name) == r != []
    requires [PLUS] + BodyOf(Merge(tags, provided)) == r + [PLUS] + BodyOf(tags)
    ensures Confused(prefix, separator, tags, Tagged(provided), Sub(name))
  {
    SuffixIsBehind(prefix, separator, name);
    assert Merge(tags, map[]) == tags;
    CutSuffix(prefix, r, BodyOf(Merge(tags, provided)), BodyOf(tags));
    assert |prefix + r| > |prefix|;
  }

  /** `Tagged(provided)` is always answered as asked exactly when the merged tags cannot be read
      in another way that a request to the same scope could have made. */
  lemma TaggedAnsweredExactly(prefix: Bytes, separator: Bytes, tags: Tags, provided: Tags)
    ensures AlwaysAnswered(prefix, separator, tags, Tagged(provided))
      <==> !TaggedMisread(prefix, separator, tags, provided)
  {
    var u := Merge(tags, provided);
    if ReadOtherwise(tags, u) {
      var v :| v in Readings(BodyOf(u), None) && Extends(tags, v) && v != u;
      ReadOtherwiseIsConfused(prefix, separator, tags, provided, v);
      ConfusedIsWrong(prefix, separator, tags, Tagged(provided), Tagged(v));
    } else if ReadAsSub(prefix, separator, tags, u) {
      var name := ReadAsSubIsConfused(prefix, separator, tags, provided);
      ConfusedIsWrong(prefix, separator, tags, Tagged(provided), Sub(name));
    } else {
      forall other ensures !Confused(prefix, separator, tags, Tagged(provided), other) {
        if Confused(prefix, separator, tags, Tagged(provided), other) {
          match other
          case Sub(name) => TaggedBySub(prefix, separator, tags, provided, name);
          case Tagged(x) => TaggedByTagged(prefix, separator, tags, provided, x);
          assert false;
        }
      }
      NotConfusedIsAnswered(prefix, separator, tags, Tagged(provided));
    }
  }

  // ----------------------------------------------------------------- untagged scopes

  lemma NoTagsBody()
    ensures BodyOf(map[]) == []
  {
    NothingPrintsNothing(map[]);
  }

  /** Text can be read as tags exactly when it has an equals sign. */
  lemma ReadableExactly(w: Bytes)
    ensures (exists u :: u in Readings(w, None)) <==> EQUALS in w
  {
    if e: nat :| e < |w| && w[e] == EQUALS {
      assert KeyEnds(w, None, e);
      ReadingCases(w, None, LastTag(w, e));
    } else {
      forall u ensures u !in Readings(w, None) {
        if u in Readings(w, None) {
          ReadingsExactly(w, u);
          NothingPrintsNothing(u);
          NoKeys(u);
          BodyHasEquals(SortedKeys(u.Keys), u);
          assert false;
        }
      }
    }
  }

  /** On a scope without tags, `SubScope(name)` is answered as asked exactly when what it puts
      behind the prefix does not start with a plus sign and have an equals sign later. */
  lemma SubOfUntagged(prefix: Bytes, separator: Bytes, name: Bytes)
    ensures var r := Suffix(prefix, separator, name);
      AlwaysAnswered(prefix, separator, map[], Sub(name)) <==> !(r != [] && r[0] == PLUS && EQUALS in r[1..])
  {
    var r := Suffix(prefix, separator, name);
    SubAnsweredExactly(prefix, separator, map[], name);
    NoTagsBody();
    if r != [] {
      var w := r[1..] + [PLUS];
      assert w + BodyOf(map[]) == w;
      assert EQUALS in w <==> EQUALS in r[1..];
      ReadableAsAny(w);
    }
  }

  lemma ReadableAsAny(w: Bytes)
    ensures (exists u :: u in Readings(w, None) && Extends(map[], u)) <==> EQUALS in w
  {
    ReadableExactly(w);
    if u :| u in Readings(w, None) {
      assert Extends(map[], u);
    }
  }

  /** Tags that can be told from their print: none, or one without an equals sign in its key or
      its value. */
  ghost predicate Plain(x: Tags) {
    x == map[] || (|x| == 1 && forall k :: k in x ==> EQUALS !in k && EQUALS !in x[k])
  }

  lemma OneTagBody(k: Bytes, v: Bytes)
    ensures BodyOf(map[k := v]) == Pair(k, v)
  {
    var none: Tags := map[];
    assert map[k := v] == none[k := v];
    BodyOfSmallest(k, v, none);
  }

  lemma PlainIsReadOnce(x: Tags)
    requires Plain(x)
    ensures !ReadOtherwise(map[], x)
  {
    forall v | v in Readings(BodyOf(x), None) ensures v == x {
      ReadingsExactly(BodyOf(x), v);
      NothingPrintsNothing(v);
      NothingPrintsNothing(x);
      var k :| k in x;
      OnlyKey(x, k);
      OneTagBody(k, x[k]);
      NoKeys(v);
      OneEqualsOneTag(SortedKeys(v.Keys), v, k, x[k]);
    }
  }

  lemma OthersAreReadTwice(x: Tags)
    requires !Plain(x)
    ensures ReadOtherwise(map[], x)
  {
    var b := BodyOf(x);
    if |x| > 1 {
      NoKeys(x);
      BodyHasEquals(SortedKeys(x.Keys), x);
      var e: nat :| e < |b| && b[e] == EQUALS;
      ReadAsOneTag(x, e);
      assert |LastTag(b, e)| == 1;
    } else {
      var k :| k in x && !(EQUALS !in k && EQUALS !in x[k]);
      OnlyKey(x, k);
      OneTagBody(k, x[k]);
      var e: nat := OtherSign(k, x[k]);
      ReadAsOneTag(x, e);
      assert b[..e] in LastTag(b, e) && |b[..e]| != |k|;
    }
  }

  lemma OtherSign(k: Bytes, v: Bytes) returns (e: nat)
    requires EQUALS in k || EQUALS in v
    ensures e < |Pair(k, v)| && Pair(k, v)[e] == EQUALS && e != |k|
  {
    if j: nat :| j < |k| && k[j] == EQUALS {
      e := j;
    } else {
      var j: nat :| j < |v| && v[j] == EQUALS;
      e := |k| + 1 + j;
    }
  }

  lemma ReadAsOneTag(x: Tags, e: nat)
    requires e < |BodyOf(x)| && BodyOf(x)[e] == EQUALS
    ensures LastTag(BodyOf(x), e) in Readings(BodyOf(x), None)
    ensures LastTag(BodyOf(x), e) != x ==> ReadOtherwise(map[], x)
  {
    assert KeyEnds(BodyOf(x), None, e);
    ReadingCases(BodyOf(x), None, LastTag(BodyOf(x), e));
    assert Extends(map[], LastTag(BodyOf(x), e));
  }

  /** On a scope without tags, `Tagged(x)` is answered as asked exactly when x is empty, or is
      one tag without an equals sign whose value, if it ends in a plus sign, cannot be the end
      of a subscope's prefix. */
  lemma TaggedOfUntagged(prefix: Bytes, separator: Bytes, x: Tags)
    ensures AlwaysAnswered(prefix, separator, map[], Tagged(x))
      <==> Plain(x) && forall k :: k in x ==> !EndsAsSub(prefix, separator, k, x[k])
  {
    TaggedAnsweredExactly(prefix, separator, map[], x);
    assert Merge(map[], x) == x;
    NoTagsBody();
    if Plain(x) {
      PlainIsReadOnce(x);
      if x != map[] {
        var k :| k in x;
        OnlyKey(x, k);
        OneTagBody(k, x[k]);
        OneTagAsSub(prefix, separator, k, x[k]);
      }
    } else {
      OthersAreReadTwice(x);
    }
  }

  /** The tag k=v looks like the suffix of a subscope's prefix and the plus sign behind it. */
  ghost predicate EndsAsSub(prefix: Bytes, separator: Bytes, k: Bytes, v: Bytes) {
    && v != [] && v[|v| - 1] == PLUS
    && (prefix == [] || separator <= [PLUS] + Pair(k, v[..|v| - 1]))
  }

  lemma OneTagAsSub(prefix: Bytes, separator: Bytes, k: Bytes, v: Bytes)
    ensures ReadAsSub(prefix, separator, map[], map[k := v]) <==> EndsAsSub(prefix, separator, k, v)
  {
    NoTagsBody();
    OneTagBody(k, v);
    var b := Pair(k, v);
    var n := |b| - 1;
    assert b[n..] == [b[n]] && [PLUS] + BodyOf(map[]) == [PLUS];
    if v == [] {
      assert b[n] == EQUALS;
    } else {
      assert b[n] == v[|v| - 1] && b[..n] == Pair(k, v[..|v| - 1]);
    }
  }
}
