/** The names and tags of nested scopes. */
module ScopeNames {
  import opened Wrappers
  import opened ByteStrings
  import opened ScopeIds

  function FullyQualifiedName(prefix: Bytes, separator: Bytes, name: Bytes): Bytes {
    if prefix == [] then name else prefix + separator + name
  }

  /** The tags of a child.  The parent's tags are inserted first and `insert` does not
      replace, so the parent's value of a common key stays. */
  function Merge(parent: Tags, provided: Tags): Tags {
    provided + parent
  }

  /** What `scope.h` says instead: the provided tags take precedence. */
  function Documented(parent: Tags, provided: Tags): Tags {
    parent + provided
  }

  /** Code and documentation agree exactly when no common key has two values. */
  lemma MergeMatchesDocumentation(parent: Tags, provided: Tags)
    ensures Merge(parent, provided) == Documented(parent, provided)
      <==> forall k :: k in parent && k in provided ==> parent[k] == provided[k]
  {
    if Merge(parent, provided) == Documented(parent, provided) {
      forall k | k in parent && k in provided ensures parent[k] == provided[k] {
        assert Merge(parent, provided)[k] == parent[k] && Documented(parent, provided)[k] == provided[k];
      }
    }
  }

  /** `unordered_map::insert` for every entry of a map, in any order. */
  method InsertAll(into: Tags, from: Tags) returns (r: Tags)
    ensures r == from + into
  {
    r := into;
    var left := from.Keys;
    while left != {}
      invariant left <= from.Keys
      invariant r.Keys == into.Keys + (from.Keys - left)
      invariant forall k :: k in r ==> r[k] == if k in into then into[k] else from[k]
    {
      var key :| key in left;
      if key !in r {
        r := r[key := from[key]];
      }
      left := left - {key};
    }
  }

  method MergeTags(parent: Tags, provided: Tags) returns (newTags: Tags)
    ensures newTags == Merge(parent, provided)
  {
    newTags := InsertAll(map[], parent);
    newTags := InsertAll(newTags, provided);
  }

  // ---------------------------------------------------------------------- chains

  datatype Hop = Sub(name: Bytes) | Tagged(tags: Tags)

  /** The prefix and tags that one request asks for. */
  function Requested(prefix: Bytes, separator: Bytes, tags: Tags, hop: Hop): (Bytes, Tags) {
    match hop
    case Sub(name) => (FullyQualifiedName(prefix, separator, name), Merge(tags, map[]))
    case Tagged(provided) => (prefix, Merge(tags, provided))
  }

  /** The prefix and tags of the scope that a chain of `SubScope` and `Tagged` leads to. */
  function Follow(prefix: Bytes, separator: Bytes, tags: Tags, hops: seq<Hop>): (Bytes, Tags)
    decreases |hops|
  {
    if |hops| == 0 then (prefix, tags)
    else
      match hops[0]
      case Sub(name) => Follow(FullyQualifiedName(prefix, separator, name), separator, Merge(tags, map[]), hops[1..])
      case Tagged(provided) => Follow(prefix, separator, Merge(tags, provided), hops[1..])
  }

  function Join(separator: Bytes, parts: seq<Bytes>): Bytes {
    if |parts| == 0 then []
    else if |parts| == 1 then parts[0]
    else parts[0] + separator + Join(separator, parts[1..])
  }

  lemma {:induction false} JoinAppend(separator: Bytes, parts: seq<Bytes>, last: Bytes)
    requires |parts| > 0
    ensures Join(separator, parts + [last]) == Join(separator, parts) + separator + last
  {
    if |parts| == 1 {
      assert (parts + [last])[1..] == [last];
    } else {
      assert (parts + [last])[1..] == parts[1..] + [last];
      JoinAppend(separator, parts[1..], last);
    }
  }

  function Names(hops: seq<Hop>): seq<Bytes> {
    if |hops| == 0 then []
    else (match hops[0] case Sub(name) => [name] case Tagged(_) => []) + Names(hops[1..])
  }

  predicate Named(hops: seq<Hop>) {
    forall i :: 0 <= i < |hops| && hops[i].Sub? ==> hops[i].name != []
  }

  /** The reported name is the path of names from the root joined by the separator. */
  lemma {:induction false} ChainName(parts: seq<Bytes>, separator: Bytes, tags: Tags, hops: seq<Hop>)
    requires Named(hops) && (|parts| > 0 ==> Join(separator, parts) != [])
    ensures Follow(Join(separator, parts), separator, tags, hops).0 == Join(separator, parts + Names(hops))
    decreases |hops|
  {
    if |hops| == 0 {
      assert parts + [] == parts;
    } else {
      match hops[0]
      case Sub(name) =>
        assert parts + Names(hops) == (parts + [name]) + Names(hops[1..]);
        if |parts| == 0 {
          assert parts + [name] == [name];
        } else {
          JoinAppend(separator, parts, name);
        }
        ChainName(parts + [name], separator, Merge(tags, map[]), hops[1..]);
      case Tagged(provided) =>
        assert Names(hops) == Names(hops[1..]);
        ChainName(parts, separator, Merge(tags, provided), hops[1..]);
    }
  }

  /** The prefix after one hop. */
  function Descend(prefix: Bytes, separator: Bytes, hop: Hop): Bytes {
    match hop case Sub(name) => FullyQualifiedName(prefix, separator, name) case Tagged(_) => prefix
  }

  /** The names from the root on, joined by the separator. */
  function Path(root: Bytes, separator: Bytes, hops: seq<Hop>, name: Bytes): Bytes {
    Join(separator, (if root == [] then [] else [root]) + Names(hops) + [name])
  }

  /** Every scope along the chain meets the delimiter condition. */
  ghost predicate CleanChain(prefix: Bytes, separator: Bytes, tags: Tags, hops: seq<Hop>)
    decreases |hops|
  {
    |hops| > 0 ==>
      var prefix' := Descend(prefix, separator, hops[0]);
      var tags' := Merge(tags, Provided(hops[0]));
      Clean(prefix', tags') && CleanChain(prefix', separator, tags', hops[1..])
  }

  /** Hence the name under which a metric of the last scope is reported. */
  lemma ReportedName(root: Bytes, separator: Bytes, tags: Tags, hops: seq<Hop>, name: Bytes)
    requires Named(hops)
    ensures FullyQualifiedName(Follow(root, separator, tags, hops).0, separator, name)
         == Path(root, separator, hops, name)
  {
    var parts := if root == [] then [] else [root];
    ChainName(parts, separator, tags, hops);
    var path := parts + Names(hops);
    if |path| == 0 {
      assert path + [name] == [name];
    } else {
      JoinAppend(separator, path, name);
      JoinNonEmpty(separator, parts, hops);
    }
  }

  lemma {:induction false} NamesNonEmpty(hops: seq<Hop>)
    requires Named(hops)
    ensures forall i :: 0 <= i < |Names(hops)| ==> Names(hops)[i] != []
  {
    if |hops| > 0 { NamesNonEmpty(hops[1..]); }
  }

  lemma JoinNonEmpty(separator: Bytes, parts: seq<Bytes>, hops: seq<Hop>)
    requires Named(hops) && |parts + Names(hops)| > 0 && forall i :: 0 <= i < |parts| ==> parts[i] != []
    ensures Join(separator, parts + Names(hops)) != []
  {
    NamesNonEmpty(hops);
    assert (parts + Names(hops))[0] != [];
  }

  /** The maps a chain contributes, outermost first. */
  function Layers(tags: Tags, hops: seq<Hop>): seq<Tags>
    decreases |hops|
  {
    if |hops| == 0 then [tags]
    else [tags] + Layers(Provided(hops[0]), hops[1..])
  }

  /** The value of a key in the first layer that has it. */
  function FirstValue(layers: seq<Tags>, key: Bytes): Option<Bytes> {
    if |layers| == 0 then None
    else if key in layers[0] then Some(layers[0][key])
    else FirstValue(layers[1..], key)
  }

  function Lookup(tags: Tags, key: Bytes): Option<Bytes> {
    if key in tags then Some(tags[key]) else None
  }

  /** The tags are the union along the chain, and the outermost value of a key is kept. */
  lemma {:induction false} ChainTags(prefix: Bytes, separator: Bytes, tags: Tags, hops: seq<Hop>, key: Bytes)
    ensures Lookup(Follow(prefix, separator, tags, hops).1, key) == FirstValue(Layers(tags, hops), key)
    decreases |hops|
  {
    if |hops| > 0 {
      var provided := Provided(hops[0]);
      var prefix' := Descend(prefix, separator, hops[0]);
      ChainTags(prefix', separator, Merge(tags, provided), hops[1..], key);
      LayersMerge(tags, provided, hops[1..], key);
    }
  }

  lemma LayersMerge(tags: Tags, provided: Tags, hops: seq<Hop>, key: Bytes)
    ensures FirstValue(Layers(Merge(tags, provided), hops), key) == FirstValue([tags] + Layers(provided, hops), key)
  {
    var merged, apart := Layers(Merge(tags, provided), hops), Layers(provided, hops);
    assert merged[1..] == apart[1..];
    assert ([tags] + apart)[1..] == apart;
  }

  /** The tags as the documentation describes them. */
  function FollowDocumented(tags: Tags, hops: seq<Hop>): Tags
    decreases |hops|
  {
    if |hops| == 0 then tags
    else FollowDocumented(Documented(tags, Provided(hops[0])), hops[1..])
  }

  function Provided(hop: Hop): Tags {
    match hop case Sub(_) => map[] case Tagged(provided) => provided
  }

  /** The value of a key in the last layer that has it. */
  function LastValue(layers: seq<Tags>, key: Bytes): Option<Bytes> {
    if |layers| == 0 then None
    else
      match LastValue(layers[1..], key)
      case Some(v) => Some(v)
      case None => Lookup(layers[0], key)
  }

  /** The documented tags are the union with the innermost value of a key. */
  lemma {:induction false} DocumentedTags(tags: Tags, hops: seq<Hop>, key: Bytes)
    ensures Lookup(FollowDocumented(tags, hops), key) == LastValue(Layers(tags, hops), key)
    decreases |hops|
  {
    if |hops| == 0 {
      LastOfOne(tags, key);
    } else {
      var provided := Provided(hops[0]);
      DocumentedTags(Documented(tags, provided), hops[1..], key);
      LayersDocumented(tags, provided, hops[1..], key);
    }
  }

  lemma LastOfOne(tags: Tags, key: Bytes)
    ensures LastValue([tags], key) == Lookup(tags, key)
  {
    assert [tags][1..] == [];
  }

  lemma LayersDocumented(tags: Tags, provided: Tags, hops: seq<Hop>, key: Bytes)
    ensures LastValue(Layers(Documented(tags, provided), hops), key) == LastValue([tags] + Layers(provided, hops), key)
  {
    var merged, apart := Layers(Documented(tags, provided), hops), Layers(provided, hops);
    assert merged[1..] == apart[1..];
    assert ([tags] + apart)[1..] == apart;
  }

  lemma SameLookups(a: Tags, b: Tags)
    requires forall key :: Lookup(a, key) == Lookup(b, key)
    ensures a == b
  {
    assert forall key :: key in a <==> Lookup(a, key).Some?;
    assert forall key :: key in b <==> Lookup(b, key).Some?;
    assert forall key :: key in a ==> Lookup(a, key) == Some(a[key]);
    assert forall key :: key in b ==> Lookup(b, key) == Some(b[key]);
  }

  /** No key has an innermost value that differs from its outermost one. */
  ghost predicate Agreeing(layers: seq<Tags>) {
    forall key :: FirstValue(layers, key) == LastValue(layers, key)
  }

  /** A whole chain matches the documentation exactly when the outermost and the innermost
      value of every key agree. */
  lemma ChainMatchesDocumentation(prefix: Bytes, separator: Bytes, tags: Tags, hops: seq<Hop>)
    ensures Follow(prefix, separator, tags, hops).1 == FollowDocumented(tags, hops) <==> Agreeing(Layers(tags, hops))
  {
    var coded, documented := Follow(prefix, separator, tags, hops).1, FollowDocumented(tags, hops);
    var layers := Layers(tags, hops);
    forall key
      ensures Lookup(coded, key) == FirstValue(layers, key) && Lookup(documented, key) == LastValue(layers, key)
    {
      ChainTags(prefix, separator, tags, hops, key);
      DocumentedTags(tags, hops, key);
    }
    if coded == documented {
      forall key ensures FirstValue(layers, key) == LastValue(layers, key) {
        assert Lookup(coded, key) == Lookup(documented, key);
      }
    } else if Agreeing(layers) {
      SameLookups(coded, documented);
      assert false;
    }
  }
}
