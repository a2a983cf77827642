/** Tags whose keys and values hold no delimiter of the printer: their ID can be read in
    another way only by taking neighbouring tags for one. */
module CleanTags {
  import opened Wrappers
  import opened ByteStrings
  import opened ScopeIds
  import opened IdReadings
  import opened ScopeIdUniqueness
  import opened ScopeNames
  import opened ScopeRequests

  ghost predicate NoDelimiter(s: Bytes) {
    EQUALS !in s && COMMA !in s
  }

  ghost predicate AllPlain(u: Tags) {
    forall k :: k in u ==> NoDelimiter(k) && NoDelimiter(u[k])
  }

  /** Two keys next to each other in order that a scope with tags t does not have. */
  ghost predicate NewNeighbours(keys: seq<Bytes>, t: Tags) {
    exists i :: 0 <= i < |keys| - 1 && NewAt(keys, t, i)
  }

  ghost predicate NewAt(keys: seq<Bytes>, t: Tags, i: nat)
    requires i + 1 < |keys|
  {
    keys[i] !in t && keys[i + 1] !in t
  }

  // --------------------------------------------- neighbours can be read as one tag

  /** The tags with the ones at i and i + 1 taken for one. */
  function Fuse(keys: seq<Bytes>, u: Tags, i: nat): Tags
    requires i + 1 < |keys| && forall k :: k in keys ==> k in u
  {
    (u - {keys[i + 1]})[keys[i] := u[keys[i]] + [COMMA] + Pair(keys[i + 1], u[keys[i + 1]])]
  }

  function Without(keys: seq<Bytes>, i: nat): seq<Bytes>
    requires i < |keys|
  {
    keys[..i] + keys[i + 1..]
  }

  lemma FusePair(k: Bytes, v: Bytes, pair: Bytes)
    ensures Pair(k, v) + [COMMA] + pair == Pair(k, v + [COMMA] + pair)
  {
  }

  lemma FuseFirst(keys: seq<Bytes>, u: Tags, v: Tags)
    requires |keys| > 1 && (forall k :: k in keys ==> k in u) && keys[0] in v
    requires forall k :: k in keys[2..] ==> k in v && v[k] == u[k]
    requires v[keys[0]] == u[keys[0]] + [COMMA] + Pair(keys[1], u[keys[1]])
    ensures Body([keys[0]] + keys[2..], v) == Body(keys, u)
  {
    var first, second, rest := keys[0], keys[1], keys[2..];
    var pair := Pair(second, u[second]);
    FusePair(first, u[first], pair);
    assert keys[1..][1..] == rest && ([first] + rest)[1..] == rest;
    if |rest| > 0 {
      BodyDependsOnKeys(rest, u, v);
      assert Body(keys[1..], u) == pair + [COMMA] + Body(rest, u);
      Regroup4(Pair(first, u[first]), pair, Body(rest, u));
    } else {
      assert Body(keys[1..], u) == pair;
    }
  }

  lemma Regroup4(a: Bytes, b: Bytes, c: Bytes)
    ensures a + [COMMA] + (b + [COMMA] + c) == (a + [COMMA] + b) + [COMMA] + c
  {
  }

  lemma {:induction false} FusePrints(keys: seq<Bytes>, u: Tags, v: Tags, i: nat)
    requires i + 1 < |keys| && (forall k :: k in keys ==> k in u)
    requires forall a, b :: 0 <= a < b < |keys| ==> keys[a] != keys[b]
    requires keys[i] in v && v[keys[i]] == u[keys[i]] + [COMMA] + Pair(keys[i + 1], u[keys[i + 1]])
    requires forall k :: k in keys && k != keys[i] && k != keys[i + 1] ==> k in v && v[k] == u[k]
    ensures (forall k :: k in Without(keys, i + 1) ==> k in v) && Body(Without(keys, i + 1), v) == Body(keys, u)
  {
    WithoutKeys(keys, i + 1);
    if i == 0 {
      assert Without(keys, 1) == [keys[0]] + keys[2..];
      FuseFirst(keys, u, v);
    } else {
      assert Without(keys, i + 1)[1..] == Without(keys[1..], i);
      assert keys[0] != keys[i] && keys[0] != keys[i + 1];
      FusePrints(keys[1..], u, v, i - 1);
    }
  }

  lemma WithoutKeys(keys: seq<Bytes>, i: nat)
    requires i < |keys| && forall a, b :: 0 <= a < b < |keys| ==> keys[a] != keys[b]
    ensures forall k :: k in Without(keys, i) <==> k in keys && k != keys[i]
  {
    assert keys == keys[..i] + [keys[i]] + keys[i + 1..];
  }

  lemma WithoutOrdered(keys: seq<Bytes>, i: nat)
    requires Ordered(keys) && i < |keys|
    ensures Ordered(Without(keys, i))
  {
    var r := Without(keys, i);
    assert forall a :: 0 <= a < |r| ==> r[a] == if a < i then keys[a] else keys[a + 1];
  }

  lemma FuseBody(u: Tags, i: nat)
    requires i + 1 < |SortedKeys(u.Keys)|
    ensures var v := Fuse(SortedKeys(u.Keys), u, i); BodyOf(v) == BodyOf(u) && v != map[] && v != u
  {
    var keys := SortedKeys(u.Keys);
    var v := Fuse(keys, u, i);
    OrderedDistinct(keys);
    FusePrints(keys, u, v, i);
    FusedKeys(u, i);
    assert keys[i] in v && keys[i + 1] !in v && keys[i + 1] in u;
  }

  lemma FusedKeys(u: Tags, i: nat)
    requires i + 1 < |SortedKeys(u.Keys)|
    ensures var keys := SortedKeys(u.Keys); SortedKeys(Fuse(keys, u, i).Keys) == Without(keys, i + 1)
  {
    var keys := SortedKeys(u.Keys);
    OrderedDistinct(keys);
    WithoutKeys(keys, i + 1);
    WithoutOrdered(keys, i + 1);
    OrderedIsCanonical(SortedKeys(Fuse(keys, u, i).Keys), Without(keys, i + 1));
  }

  lemma FuseExtends(t: Tags, u: Tags, keys: seq<Bytes>, i: nat)
    requires Extends(t, u) && i + 1 < |keys| && (forall k :: k in keys ==> k in u) && NewAt(keys, t, i)
    ensures Extends(t, Fuse(keys, u, i))
  {
  }

  /** Two new tags that are neighbours are misread. */
  lemma NeighboursAreFused(t: Tags, u: Tags)
    requires Extends(t, u) && NewNeighbours(SortedKeys(u.Keys), t)
    ensures ReadOtherwise(t, u)
  {
    var keys := SortedKeys(u.Keys);
    var i :| 0 <= i < |keys| - 1 && NewAt(keys, t, i);
    FuseBody(u, i);
    FuseExtends(t, u, keys, i);
    ReadingsExactly(BodyOf(u), Fuse(keys, u, i));
  }

  // --------------------------------------------------------- nothing else is misread

  lemma PlainPair(k: Bytes, v: Bytes)
    requires NoDelimiter(k) && NoDelimiter(v)
    ensures COMMA !in Pair(k, v) && forall j :: 0 <= j < |Pair(k, v)| && Pair(k, v)[j] == EQUALS ==> j == |k|
  {
    var p := Pair(k, v);
    forall j | 0 <= j < |p| ensures p[j] != COMMA && (p[j] == EQUALS ==> j == |k|) {
      if j < |k| {
        assert k[j] in k;
      } else if j > |k| {
        assert p[j] == v[j - |k| - 1] && v[j - |k| - 1] in v;
      }
    }
  }

  /** What follows a comma of the print is the print of the tags from some key on. */
  lemma {:induction false} BehindComma(keys: seq<Bytes>, u: Tags, at: nat) returns (j: nat)
    requires (forall k :: k in keys ==> k in u && NoDelimiter(k) && NoDelimiter(u[k]))
    requires at < |Body(keys, u)| && Body(keys, u)[at] == COMMA
    ensures 0 < j < |keys| && Body(keys, u)[at + 1..] == Body(keys[j..], u)
    ensures at >= |Pair(keys[0], u[keys[0]])| && (at == |Pair(keys[0], u[keys[0]])| ==> j == 1)
    ensures j == 1 ==> at == |Pair(keys[0], u[keys[0]])|
  {
    var pair := Pair(keys[0], u[keys[0]]);
    PlainPair(keys[0], u[keys[0]]);
    assert pair <= Body(keys, u);
    assert forall j :: 0 <= j < |pair| ==> pair[j] in pair;
    assert |keys| > 1;
    var more := Body(keys[1..], u);
    assert Body(keys, u) == pair + [COMMA] + more;
    if at == |pair| {
      j := 1;
    } else {
      var j' := BehindComma(keys[1..], u, at - |pair| - 1);
      j := j' + 1;
      assert keys[1..][j'..] == keys[j..];
    }
  }

  /** A key that a reading starts with begins with the first key printed. */
  lemma FirstKeyBegins(keys: seq<Bytes>, u: Tags, e: nat)
    requires |keys| > 0 && (forall k :: k in keys ==> k in u) && EQUALS !in keys[0]
    requires e < |Body(keys, u)| && Body(keys, u)[e] == EQUALS
    ensures keys[0] <= Body(keys, u)[..e] && !StringLess(Body(keys, u)[..e], keys[0])
  {
    var k, w := keys[0], Body(keys, u);
    assert k <= Pair(k, u[k]) <= w;
    assert forall j :: 0 <= j < |k| ==> w[j] == k[j] && k[j] in k;
    PrefixNotAbove(k, w[..e]);
  }

  lemma {:induction false} PrefixNotAbove(a: Bytes, b: Bytes)
    requires a <= b
    ensures !StringLess(b, a) && (a != b ==> StringLess(a, b))
  {
    if |a| > 0 {
      assert a[0] == b[0];
      PrefixNotAbove(a[1..], b[1..]);
    }
  }

  /** The smallest key of u, and the other tags. */
  ghost predicate IsSplit(u: Tags, key: Bytes, more: Tags) {
    key in u && AllAbove(Some(key), more) && key !in more && u == more[key := u[key]]
  }

  /** The print of a non-empty map starts with its smallest key and an equals sign. */
  lemma SmallestPrinted(u: Tags, key: Bytes, more: Tags)
    requires IsSplit(u, key, more)
    ensures SortedKeys(u.Keys) == [key] + SortedKeys(more.Keys)
    ensures BodyOf(u) == if more == map[] then Pair(key, u[key]) else Pair(key, u[key]) + [COMMA] + BodyOf(more)
    ensures |key| < |BodyOf(u)| && BodyOf(u)[|key|] == EQUALS && BodyOf(u)[..|key|] == key
  {
    BodyOfSmallest(key, u[key], more);
    PairBegins(key, u[key], BodyOf(u));
  }

  lemma PairBegins(key: Bytes, value: Bytes, w: Bytes)
    requires Pair(key, value) <= w
    ensures |key| < |w| && w[|key|] == EQUALS && w[..|key|] == key
  {
    assert Pair(key, value)[|key|] == EQUALS && Pair(key, value)[..|key|] == key;
  }

  lemma SmallestIsLeast(u: Tags, key: Bytes, more: Tags, k: Bytes)
    requires IsSplit(u, key, more) && k in u
    ensures k == key || StringLess(key, k)
  {
  }

  lemma CancelPair(pair: Bytes, a: Bytes, b: Bytes)
    ensures pair + [COMMA] + a == pair + [COMMA] + b ==> a == b
  {
    var x, y := pair + [COMMA] + a, pair + [COMMA] + b;
    assert x[|pair| + 1..] == a && y[|pair| + 1..] == b;
  }

  /** A first tag read as it was printed leaves the same text for the others. */
  lemma SameRest(u: Tags, v: Tags, key: Bytes, u': Tags, v': Tags)
    requires IsSplit(u, key, u')
    requires IsSplit(v, key, v')
    requires u[key] == v[key] && BodyOf(u) == BodyOf(v)
    ensures BodyOf(u') == BodyOf(v')
  {
    SmallestPrinted(u, key, u');
    SmallestPrinted(v, key, v');
    CancelPair(Pair(key, u[key]), BodyOf(u'), BodyOf(v'));
    NothingPrintsNothing(u');
    NothingPrintsNothing(v');
  }

  /** The first tag is read as it was printed if the scope has its key already. */
  lemma KnownFirst(t: Tags, u: Tags, v: Tags, k: Bytes, u': Tags, k': Bytes, v': Tags)
    requires AllPlain(u) && Extends(t, u) && Extends(t, v) && BodyOf(u) == BodyOf(v) && k in t
    requires IsSplit(u, k, u') && IsSplit(v, k', v')
    ensures k' == k && v[k'] == u[k]
  {
    SmallestPrinted(u, k, u');
    SmallestPrinted(v, k', v');
    FirstKeyBegins(SortedKeys(u.Keys), u, |k'|);
    SmallestIsLeast(v, k', v', k);
  }

  /** And if it is new but the next one is not. */
  lemma NewFirst(t: Tags, u: Tags, v: Tags, k: Bytes, u': Tags, k': Bytes, v': Tags, next: Bytes)
    requires AllPlain(u) && Extends(t, u) && Extends(t, v) && BodyOf(u) == BodyOf(v)
    requires IsSplit(u, k, u') && IsSplit(v, k', v')
    requires u' != map[] && next in t && next == SortedKeys(u'.Keys)[0]
    ensures k' == k && v[k'] == u[k]
  {
    SmallestPrinted(u, k, u');
    SmallestPrinted(v, k', v');
    var keys := SortedKeys(u.Keys);
    assert keys[1] == next && StringLess(keys[0], keys[1]);
    StringLessIrreflexive(k);
    NotTheNext(u, k, next, k');
    assert next in v';
    ReadInPlace(keys, u, k', v[k'], v', next);
  }

  /** A reading whose first tag leaves the second key to the others ends that tag where it was
      printed to end. */
  lemma ReadInPlace(keys: seq<Bytes>, u: Tags, k': Bytes, x: Bytes, v': Tags, next: Bytes)
    requires AllPlain(u) && Ordered(keys) && (forall k :: k in keys ==> k in u) && |keys| > 1 && next == keys[1]
    requires Body(keys, u) == Pair(k', x) + [COMMA] + BodyOf(v') && next in v'
    ensures k' == keys[0] && x == u[keys[0]]
  {
    var w, pair, end := Body(keys, u), Pair(keys[0], u[keys[0]]), |Pair(k', x)|;
    assert w[end] == COMMA && w[end + 1..] == BodyOf(v') && w[..end] == Pair(k', x);
    var j := BehindComma(keys, u, end);
    if j > 1 {
      NotLater(keys, u, v', j, next);
    }
    assert pair <= w && w[..|pair|] == pair;
    SamePair(keys[0], u[keys[0]], k', x);
  }

  lemma SamePair(k: Bytes, v: Bytes, k': Bytes, v': Bytes)
    requires NoDelimiter(k) && NoDelimiter(v) && Pair(k', v') == Pair(k, v)
    ensures k' == k && v' == v
  {
    PlainPair(k, v);
    assert Pair(k', v')[|k'|] == EQUALS;
    assert k == Pair(k, v)[..|k|] && v == Pair(k, v)[|k| + 1..];
    assert k' == Pair(k', v')[..|k'|] && v' == Pair(k', v')[|k'| + 1..];
  }

  lemma NotTheNext(u: Tags, k: Bytes, next: Bytes, k': Bytes)
    requires AllPlain(u) && k in u && next in u && SortedKeys(u.Keys) != [] && SortedKeys(u.Keys)[0] == k && k != next
    requires |k'| < |BodyOf(u)| && BodyOf(u)[|k'|] == EQUALS && BodyOf(u)[..|k'|] == k'
    ensures k' != next
  {
    var w := BodyOf(u);
    FirstKeyBegins(SortedKeys(u.Keys), u, |k'|);
    assert Pair(k, u[k]) <= w && w[|k|] == EQUALS;
    if k' != k {
      assert |k| < |k'| && k'[|k|] == EQUALS;
    }
  }

  /** A reading of text from a later key on starts with no smaller key. */
  lemma LaterFirst(keys: seq<Bytes>, u: Tags, v': Tags, first: Bytes, more: Tags)
    requires |keys| > 0 && (forall k :: k in keys ==> k in u) && EQUALS !in keys[0]
    requires BodyOf(v') == Body(keys, u) && IsSplit(v', first, more)
    ensures !StringLess(first, keys[0])
  {
    SmallestPrinted(v', first, more);
    FirstKeyBegins(keys, u, |first|);
  }

  lemma KeyBetween(first: Bytes, next: Bytes, later: Bytes)
    requires !StringLess(first, later) && StringLess(next, later)
    ensures first != next && !StringLess(first, next)
  {
    if StringLess(first, next) {
      StringLessTransitive(first, next, later);
      assert false;
    }
  }

  /** So it does not hold the second key. */
  lemma NotLater(keys: seq<Bytes>, u: Tags, v': Tags, j: nat, next: Bytes)
    requires AllPlain(u) && Ordered(keys) && 1 < j < |keys| && (forall k :: k in keys ==> k in u) && next == keys[1]
    requires BodyOf(v') == Body(keys[j..], u) && v' != map[]
    ensures next !in v'
  {
    var first, more := SplitSmallest(v');
    assert keys[j..][0] == keys[j] && keys[j] in u;
    LaterFirst(keys[j..], u, v', first, more);
    assert StringLess(keys[1], keys[j]);
    KeyBetween(first, next, keys[j]);
  }

  /** Without new neighbours there is one way to read plain tags that extend t. */
  lemma {:induction false} ReadOnce(t: Tags, u: Tags, v: Tags)
    requires AllPlain(u) && Extends(t, u) && Extends(t, v) && BodyOf(u) == BodyOf(v)
    requires !NewNeighbours(SortedKeys(u.Keys), t)
    ensures u == v
    decreases |u|
  {
    NothingPrintsNothing(u);
    NothingPrintsNothing(v);
    if u != map[] {
      var k, u' := SplitSmallest(u);
      var k', v' := SplitSmallest(v);
      FirstReadAsPrinted(t, u, v, k, u', k', v');
      SameRest(u, v, k, u', v');
      NeighboursKept(t, u, k, u');
      RestExtends(t, u, k, u');
      RestExtends(t, v, k, v');
      RestIsPlain(u, k, u');
      ReadOnce(t - {k}, u', v');
    }
  }

  lemma RestIsPlain(u: Tags, k: Bytes, u': Tags)
    requires AllPlain(u) && IsSplit(u, k, u')
    ensures AllPlain(u') && |u'| < |u|
  {
    assert forall x :: x in u' ==> x in u && u[x] == u'[x];
    assert u'.Keys == u.Keys - {k};
  }

  lemma NeighboursKept(t: Tags, u: Tags, k: Bytes, u': Tags)
    requires IsSplit(u, k, u') && !NewNeighbours(SortedKeys(u.Keys), t)
    ensures !NewNeighbours(SortedKeys(u'.Keys), t - {k})
  {
    BodyOfSmallest(k, u[k], u');
    NeighboursOfRest(SortedKeys(u'.Keys), k, t);
  }

  lemma RestExtends(t: Tags, u: Tags, k: Bytes, u': Tags)
    requires Extends(t, u) && IsSplit(u, k, u')
    ensures Extends(t - {k}, u')
  {
  }

  lemma NeighboursOfRest(rest: seq<Bytes>, k: Bytes, t: Tags)
    requires !NewNeighbours([k] + rest, t) && k !in rest
    ensures !NewNeighbours(rest, t - {k})
  {
    forall i | 0 <= i < |rest| - 1 ensures !NewAt(rest, t - {k}, i) {
      assert !NewAt([k] + rest, t, i + 1);
      assert rest[i] in rest && rest[i + 1] in rest;
    }
  }

  lemma FirstReadAsPrinted(t: Tags, u: Tags, v: Tags, k: Bytes, u': Tags, k': Bytes, v': Tags)
    requires AllPlain(u) && Extends(t, u) && Extends(t, v) && BodyOf(u) == BodyOf(v)
    requires !NewNeighbours(SortedKeys(u.Keys), t)
    requires IsSplit(u, k, u') && IsSplit(v, k', v')
    ensures k' == k && v[k'] == u[k]
  {
    SmallestPrinted(u, k, u');
    if k in t {
      KnownFirst(t, u, v, k, u', k', v');
    } else if u' == map[] {
      OneEqualsOneTag(SortedKeys(v.Keys), v, k, u[k]);
    } else {
      NoKeys(u');
      assert !NewAt(SortedKeys(u.Keys), t, 0);
      NewFirst(t, u, v, k, u', k', v', SortedKeys(u'.Keys)[0]);
    }
  }

  // ----------------------------------------------------------------- the condition

  /** Merged tags without delimiters are read otherwise exactly when two new ones are
      neighbours. */
  lemma PlainReadOtherwise(t: Tags, u: Tags)
    requires AllPlain(u) && Extends(t, u)
    ensures ReadOtherwise(t, u) <==> NewNeighbours(SortedKeys(u.Keys), t)
  {
    if NewNeighbours(SortedKeys(u.Keys), t) {
      NeighboursAreFused(t, u);
    } else {
      forall v | v in Readings(BodyOf(u), None) && Extends(t, v) ensures v == u {
        ReadingsExactly(BodyOf(u), v);
        ReadOnce(t, u, v);
      }
    }
  }

  /** So on any scope, a request for tags without delimiters is always answered as asked exactly
      when no two new tags are neighbours in key order, and the ID does not end like the
      scope's own behind what a subscope's prefix could have. */
  lemma PlainTaggedExactly(prefix: Bytes, separator: Bytes, tags: Tags, provided: Tags)
    requires AllPlain(Merge(tags, provided))
    ensures var u := Merge(tags, provided);
      AlwaysAnswered(prefix, separator, tags, Tagged(provided)) <==>
      !NewNeighbours(SortedKeys(u.Keys), tags) && !ReadAsSub(prefix, separator, tags, u)
  {
    MergeExtends(tags, provided);
    PlainReadOtherwise(tags, Merge(tags, provided));
    TaggedAnsweredExactly(prefix, separator, tags, provided);
  }
}
