/** `ScopeID`: a scope's prefix and tags printed as `prefix+k1=v1,k2=v2`, keys in order.
    The registry of a scope is keyed by these strings. */
module ScopeIds {
  import opened Wrappers
  import opened ByteStrings

  type Tags = map<Bytes, Bytes>

  const PLUS: Byte := 43
  const COMMA: Byte := 44
  const EQUALS: Byte := 61

  // ----------------------------------------------------------------- sorted keys

  ghost predicate Ordered(keys: seq<Bytes>) {
    forall i, j :: 0 <= i < j < |keys| ==> StringLess(keys[i], keys[j])
  }

  function InsertKey(keys: seq<Bytes>, key: Bytes): seq<Bytes> {
    if |keys| == 0 || !StringLess(keys[0], key) then [key] + keys
    else [keys[0]] + InsertKey(keys[1..], key)
  }

  /** `std::sort`. */
  function Sort(keys: seq<Bytes>): seq<Bytes> {
    if |keys| == 0 then [] else InsertKey(Sort(keys[1..]), keys[0])
  }

  lemma {:induction false} InsertKeyOrdered(keys: seq<Bytes>, key: Bytes)
    requires Ordered(keys) && key !in keys
    ensures Ordered(InsertKey(keys, key))
    ensures forall k :: k in InsertKey(keys, key) <==> k in keys || k == key
  {
    if |keys| == 0 {
    } else if !StringLess(keys[0], key) {
      StringLessTotal(keys[0], key);
      forall i | 0 <= i < |keys| ensures StringLess(key, keys[i]) {
        if i > 0 { StringLessTransitive(key, keys[0], keys[i]); }
      }
    } else {
      InsertKeyOrdered(keys[1..], key);
      assert keys == [keys[0]] + keys[1..];
      var r := InsertKey(keys[1..], key);
      forall j | 0 <= j < |r| ensures StringLess(keys[0], r[j]) {
        assert r[j] in r;
      }
    }
  }

  ghost predicate Distinct(keys: seq<Bytes>) {
    forall i, j :: 0 <= i < j < |keys| ==> keys[i] != keys[j]
  }

  lemma {:induction false} SortOrders(keys: seq<Bytes>)
    requires Distinct(keys)
    ensures Ordered(Sort(keys)) && forall k :: k in Sort(keys) <==> k in keys
  {
    if |keys| > 0 {
      SortOrders(keys[1..]);
      assert keys == [keys[0]] + keys[1..];
      InsertKeyOrdered(Sort(keys[1..]), keys[0]);
    }
  }

  lemma {:induction false} OrderedIsCanonical(a: seq<Bytes>, b: seq<Bytes>)
    requires Ordered(a) && Ordered(b)
    requires forall k :: k in a <==> k in b
    ensures a == b
  {
    assert forall i :: 0 <= i < |a| ==> a[i] in b;
    assert forall i :: 0 <= i < |b| ==> b[i] in a;
    if |a| > 0 {
      var i :| 0 <= i < |b| && b[i] == a[0];
      var j :| 0 <= j < |a| && a[j] == b[0];
      if a[0] != b[0] {
        StringLessTransitive(a[0], b[0], a[0]);
        StringLessIrreflexive(a[0]);
      }
      forall k ensures k in a[1..] <==> k in b[1..] {
        StringLessIrreflexive(k);
        assert k in a <==> k == a[0] || k in a[1..] by { assert a == [a[0]] + a[1..]; }
        assert k in b <==> k == b[0] || k in b[1..] by { assert b == [b[0]] + b[1..]; }
      }
      OrderedIsCanonical(a[1..], b[1..]);
      assert a == [a[0]] + a[1..] && b == [b[0]] + b[1..];
    }
  }

  /** The members of a set in order: there is one such sequence. */
  ghost function SortedKeys(keys: set<Bytes>): (r: seq<Bytes>)
    ensures Ordered(r) && forall k :: k in r <==> k in keys
  {
    if keys == {} then []
    else
      var key :| key in keys;
      InsertKeyOrdered(SortedKeys(keys - {key}), key);
      InsertKey(SortedKeys(keys - {key}), key)
  }

  // -------------------------------------------------------------------- printing

  function Pair(key: Bytes, value: Bytes): Bytes {
    key + [EQUALS] + value
  }

  function Body(keys: seq<Bytes>, tags: Tags): Bytes
    requires forall k :: k in keys ==> k in tags
  {
    if |keys| == 0 then []
    else if |keys| == 1 then Pair(keys[0], tags[keys[0]])
    else Pair(keys[0], tags[keys[0]]) + [COMMA] + Body(keys[1..], tags)
  }

  ghost function IdOf(prefix: Bytes, tags: Tags): Bytes {
    prefix + [PLUS] + Body(SortedKeys(tags.Keys), tags)
  }

  /** IDs written out in ASCII: a plus behind the prefix, an equals sign between key and value,
      a comma between pairs, and keys in the order of strings. */
  lemma IdsWrittenOut(prefix: Bytes, k: Bytes, v: Bytes, k': Bytes, v': Bytes)
    ensures IdOf(prefix, map[]) == prefix + [43]
    ensures IdOf(prefix, map[k := v]) == prefix + [43] + (k + [61] + v)
    ensures StringLess(k, k') ==>
      IdOf(prefix, map[k := v, k' := v']) == prefix + [43] + ((k + [61] + v) + [44] + (k' + [61] + v'))
  {
    OrderedIsCanonical(SortedKeys(map[k := v].Keys), [k]);
    if StringLess(k, k') {
      TwoKeys(k, v, k', v');
    }
  }

  lemma TwoKeys(k: Bytes, v: Bytes, k': Bytes, v': Bytes)
    requires StringLess(k, k')
    ensures var tags := map[k := v, k' := v'];
      Body(SortedKeys(tags.Keys), tags) == (k + [61] + v) + [44] + (k' + [61] + v')
  {
    var tags := map[k := v, k' := v'];
    StringLessIrreflexive(k);
    OrderedIsCanonical(SortedKeys(tags.Keys), [k, k']);
    assert [k, k'][1..] == [k'];
  }

  lemma {:induction false} BodyPrefix(keys: seq<Bytes>, tags: Tags, i: nat)
    requires i < |keys| && forall k :: k in keys ==> k in tags
    ensures Body(keys[..i + 1], tags) ==
      if i == 0 then Pair(keys[0], tags[keys[0]])
      else Body(keys[..i], tags) + [COMMA] + Pair(keys[i], tags[keys[i]])
    decreases i
  {
    if i == 0 {
      assert keys[..1] == [keys[0]];
    } else {
      BodyPrefix(keys[1..], tags, i - 1);
      assert keys[..i + 1][1..] == keys[1..][..i];
      if i > 1 {
        assert keys[..i][1..] == keys[1..][..i - 1];
      } else {
        assert keys[..1] == [keys[0]];
      }
    }
  }

  /** The keys in whatever order the hash map yields them, then sorted: the result does not
      depend on that order. */
  method CollectKeys(tags: Tags) returns (keys: seq<Bytes>)
    ensures keys == SortedKeys(tags.Keys)
  {
    keys := [];
    var left := tags.Keys;
    while left != {}
      invariant left <= tags.Keys && Distinct(keys)
      invariant forall k :: k in keys <==> k in tags.Keys - left
    {
      var key :| key in left;
      assert forall i :: 0 <= i < |keys| ==> keys[i] in keys;
      keys := keys + [key];
      left := left - {key};
    }
    SortOrders(keys);
    keys := Sort(keys);
    OrderedIsCanonical(keys, SortedKeys(tags.Keys));
  }

  /** What the printing loop writes for pair i. */
  function Piece(keys: seq<Bytes>, tags: Tags, i: nat): Bytes
    requires i < |keys| && forall k :: k in keys ==> k in tags
  {
    if i != |keys| - 1 then Pair(keys[i], tags[keys[i]]) + [COMMA] else Pair(keys[i], tags[keys[i]])
  }

  function Pieces(keys: seq<Bytes>, tags: Tags, i: nat): Bytes
    requires i <= |keys| && forall k :: k in keys ==> k in tags
  {
    if i == 0 then [] else Pieces(keys, tags, i - 1) + Piece(keys, tags, i - 1)
  }

  lemma {:induction false} PiecesMakeBody(keys: seq<Bytes>, tags: Tags, i: nat)
    requires i <= |keys| && forall k :: k in keys ==> k in tags
    ensures Pieces(keys, tags, i) == Body(keys[..i], tags) + if 0 < i < |keys| then [COMMA] else []
  {
    if i > 0 {
      PiecesMakeBody(keys, tags, i - 1);
      BodyPrefix(keys, tags, i - 1);
    }
  }

  lemma PieceAppended(stream: Bytes, keys: seq<Bytes>, tags: Tags, i: nat)
    requires i < |keys| && forall k :: k in keys ==> k in tags
    ensures stream + Pieces(keys, tags, i + 1) == (stream + Pieces(keys, tags, i)) + Piece(keys, tags, i)
  {
  }

  method PrintPairs(stream: Bytes, keys: seq<Bytes>, tags: Tags) returns (id: Bytes)
    requires forall k :: k in keys ==> k in tags
    ensures id == stream + Pieces(keys, tags, |keys|)
  {
    id := stream + [];
    for i := 0 to |keys|
      invariant id == stream + Pieces(keys, tags, i)
    {
      PieceAppended(stream, keys, tags, i);
      var pair := Pair(keys[i], tags[keys[i]]);
      if i != |keys| - 1 {
        id := id + (pair + [COMMA]);
      } else {
        id := id + pair;
      }
    }
  }

  method ScopeID(prefix: Bytes, tags: Tags) returns (id: Bytes)
    ensures id == IdOf(prefix, tags)
  {
    var keys := CollectKeys(tags);
    id := PrintPairs(prefix + [PLUS], keys, tags);
    PiecesMakeBody(keys, tags, |keys|);
    assert keys[..|keys|] == keys;
  }

  // --------------------------------------------------------------------- parsing

  function IndexOf(s: Bytes, c: Byte): (r: nat)
    ensures r <= |s| && c !in s[..r]
    ensures r < |s| ==> s[r] == c
  {
    if |s| == 0 || s[0] == c then 0
    else
      var r := 1 + IndexOf(s[1..], c);
      assert s[..r] == [s[0]] + s[1..][..r - 1];
      r
  }

  lemma {:induction false} IndexOfFirst(a: Bytes, c: Byte, b: Bytes)
    requires c !in a
    ensures IndexOf(a + [c] + b, c) == |a|
    ensures (a + [c] + b)[..|a|] == a && (a + [c] + b)[|a| + 1..] == b
  {
    if |a| > 0 {
      assert (a + [c] + b)[1..] == a[1..] + [c] + b;
      IndexOfFirst(a[1..], c, b);
    }
  }

  lemma {:induction false} IndexOfAbsent(s: Bytes, c: Byte)
    requires c !in s
    ensures IndexOf(s, c) == |s|
  {
    if |s| > 0 { IndexOfAbsent(s[1..], c); }
  }

  function ParsePair(item: Bytes): Option<(Bytes, Bytes)> {
    var e := IndexOf(item, EQUALS);
    if e == |item| then None else Some((item[..e], item[e + 1..]))
  }

  function ParsePairs(body: Bytes): Option<Tags>
    decreases |body|
  {
    var comma := IndexOf(body, COMMA);
    match ParsePair(body[..comma])
    case None => None
    case Some(pair) =>
      if comma == |body| then Some(map[pair.0 := pair.1])
      else
        match ParsePairs(body[comma + 1..])
        case None => None
        case Some(tags) => Some(tags[pair.0 := pair.1])
  }

  /** Up to the first plus sign is the prefix; commas separate the tags, and the first equals
      sign of each ends its key. */
  function ParseId(id: Bytes): Option<(Bytes, Tags)> {
    var plus := IndexOf(id, PLUS);
    if plus == |id| then None
    else if plus + 1 == |id| then Some((id[..plus], map[]))
    else
      match ParsePairs(id[plus + 1..])
      case None => None
      case Some(tags) => Some((id[..plus], tags))
  }

  /** The delimiter condition. */
  predicate Clean(prefix: Bytes, tags: Tags) {
    && PLUS !in prefix
    && forall k :: k in tags ==> EQUALS !in k && COMMA !in k && COMMA !in tags[k]
  }

  lemma ParsePairOfPair(key: Bytes, value: Bytes)
    requires EQUALS !in key && COMMA !in key && COMMA !in value
    ensures ParsePair(Pair(key, value)) == Some((key, value))
    ensures COMMA !in Pair(key, value) && IndexOf(Pair(key, value), COMMA) == |Pair(key, value)|
  {
    IndexOfFirst(key, EQUALS, value);
    IndexOfAbsent(Pair(key, value), COMMA);
  }

  lemma {:induction false} ParsePairsBody(keys: seq<Bytes>, tags: Tags)
    requires |keys| > 0 && Distinct(keys) && (forall k :: k in keys ==> k in tags) && Clean([], tags)
    ensures ParsePairs(Body(keys, tags)) == Some(map k | k in keys :: tags[k])
    decreases |keys|
  {
    var key := keys[0];
    var item := Pair(key, tags[key]);
    ParsePairOfPair(key, tags[key]);
    if |keys| == 1 {
      assert item[..|item|] == item;
      assert forall k :: k in keys <==> k == key;
      assert map[key := tags[key]] == map k | k in keys :: tags[k];
    } else {
      var more := keys[1..];
      IndexOfFirst(item, COMMA, Body(more, tags));
      ParsePairsBody(more, tags);
      assert forall k :: k in keys <==> k == key || k in more;
      assert (map k | k in more :: tags[k])[key := tags[key]] == map k | k in keys :: tags[k];
    }
  }

  lemma OrderedDistinct(keys: seq<Bytes>)
    requires Ordered(keys)
    ensures Distinct(keys)
  {
    forall i, j | 0 <= i < j < |keys| ensures keys[i] != keys[j] {
      StringLessIrreflexive(keys[i]);
    }
  }

  lemma NoKeys(tags: Tags)
    ensures |SortedKeys(tags.Keys)| == 0 <==> tags == map[]
  {
    var keys := SortedKeys(tags.Keys);
    if |keys| == 0 {
      assert forall k :: k in tags ==> k in keys;
    } else {
      assert keys[0] in tags;
    }
  }

  /** Canonical and invertible: under the delimiter condition the parser recovers the prefix
      and the tags. */
  lemma IdRoundTrip(prefix: Bytes, tags: Tags)
    requires Clean(prefix, tags)
    ensures ParseId(IdOf(prefix, tags)) == Some((prefix, tags))
  {
    var keys := SortedKeys(tags.Keys);
    var body := Body(keys, tags);
    IndexOfFirst(prefix, PLUS, body);
    NoKeys(tags);
    if |keys| > 0 {
      OrderedDistinct(keys);
      ParsePairsBody(keys, tags);
      assert |body| > 0;
      assert (map k | k in keys :: tags[k]) == tags;
    }
  }

  lemma IdInjective(p: Bytes, t: Tags, p': Bytes, t': Tags)
    requires Clean(p, t) && Clean(p', t') && IdOf(p, t) == IdOf(p', t')
    ensures p == p' && t == t'
  {
    IdRoundTrip(p, t);
    IdRoundTrip(p', t');
  }
}
