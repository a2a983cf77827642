/** `scope_impl.h` calls a scope's ID unique.  Over all prefixes and tags it is not: here is
    exactly when no other prefix and tags print the same ID. */
module ScopeIdUniqueness {
  import opened ByteStrings
  import opened ScopeIds

  ghost predicate UniqueId(p: Bytes, t: Tags) {
    forall p', t' :: IdOf(p', t') == IdOf(p, t) ==> p' == p && t' == t
  }

  /** Without tags, no equals sign may follow a plus sign of the prefix.  With one tag, only
      the delimiters the printer wrote may look like delimiters.  Two tags are already one
      too many: the pair of equals signs can be read as a single tag. */
  ghost predicate SelfDelimiting(p: Bytes, t: Tags) {
    if t == map[] then forall i :: 0 <= i < |p| && p[i] == PLUS ==> EQUALS !in p[i + 1..]
    else
      && |t| == 1 && PLUS !in p
      && forall k :: k in t ==>
        PLUS !in k && EQUALS !in k && EQUALS !in t[k] && (t[k] == [] || t[k][|t[k]| - 1] != PLUS)
  }

  lemma EmptyId(p: Bytes)
    ensures IdOf(p, map[]) == p + [PLUS]
  {
    NoKeys(map[]);
  }

  lemma SingleId(p: Bytes, k: Bytes, v: Bytes)
    ensures IdOf(p, map[k := v]) == p + [PLUS] + Pair(k, v)
  {
    var t: Tags := map[k := v];
    var keys := SortedKeys(t.Keys);
    StringLessIrreflexive(k);
    assert Ordered([k]);
    OrderedIsCanonical(keys, [k]);
  }

  lemma BodyHasEquals(keys: seq<Bytes>, t: Tags)
    requires |keys| > 0 && forall k :: k in keys ==> k in t
    ensures EQUALS in Body(keys, t)
  {
    assert Pair(keys[0], t[keys[0]])[|keys[0]|] == EQUALS;
  }

  /** Any plus sign with an equals sign behind it can be read as the end of the prefix. */
  lemma Resplit(id: Bytes, i: nat, e: nat)
    requires i < e < |id| && id[i] == PLUS && id[e] == EQUALS
    ensures IdOf(id[..i], map[id[i + 1..e] := id[e + 1..]]) == id
  {
    SingleId(id[..i], id[i + 1..e], id[e + 1..]);
    assert id == id[..i] + [PLUS] + (id[i + 1..e] + [EQUALS] + id[e + 1..]);
  }

  // ------------------------------------------------- what fails is not unique

  lemma NoTagsNotUnique(p: Bytes)
    requires !SelfDelimiting(p, map[])
    ensures !UniqueId(p, map[])
  {
    EmptyId(p);
    var id := p + [PLUS];
    var i :| 0 <= i < |p| && p[i] == PLUS && EQUALS in p[i + 1..];
    var j :| 0 <= j < |p[i + 1..]| && p[i + 1..][j] == EQUALS;
    var e := i + 1 + j;
    assert id[i] == PLUS && id[e] == EQUALS;
    Resplit(id, i, e);
    assert id[i + 1..e] in map[id[i + 1..e] := id[e + 1..]];
  }

  lemma BehindPlus(p: Bytes, body: Bytes, j: nat)
    requires j < |body|
    ensures var id := p + [PLUS] + body; id[|p|] == PLUS && id[|p| + 1 + j] == body[j]
  {
  }

  lemma EqualsAfterPrefix(p: Bytes, t: Tags) returns (e: nat)
    requires t != map[]
    ensures |p| < e < |IdOf(p, t)| && IdOf(p, t)[e] == EQUALS && IdOf(p, t)[|p|] == PLUS
  {
    var keys := SortedKeys(t.Keys);
    var body := Body(keys, t);
    NoKeys(t);
    BodyHasEquals(keys, t);
    var j :| 0 <= j < |body| && body[j] == EQUALS;
    e := |p| + 1 + j;
    BehindPlus(p, body, j);
  }

  lemma PlusInPrefixNotUnique(p: Bytes, t: Tags)
    requires t != map[] && PLUS in p
    ensures !UniqueId(p, t)
  {
    var id := IdOf(p, t);
    var e := EqualsAfterPrefix(p, t);
    var i :| 0 <= i < |p| && p[i] == PLUS;
    assert id[i] == PLUS;
    Resplit(id, i, e);
    assert |id[..i]| == i;
  }

  lemma ManyTagsNotUnique(p: Bytes, t: Tags)
    requires |t| > 1
    ensures !UniqueId(p, t)
  {
    var id := IdOf(p, t);
    var e := EqualsAfterPrefix(p, t);
    Resplit(id, |p|, e);
    assert |map[id[|p| + 1..e] := id[e + 1..]]| == 1;
  }

  lemma OnlyKey(t: Tags, k: Bytes)
    requires |t| == 1 && k in t
    ensures t == map[k := t[k]]
  {
    assert |t.Keys - {k}| == 0;
    assert t.Keys == {k} + (t.Keys - {k});
  }

  /** An equals sign at another place of a one-tag ID is another way to read it. */
  lemma OtherEquals(p: Bytes, k: Bytes, v: Bytes, e: nat)
    requires e < |Pair(k, v)| && Pair(k, v)[e] == EQUALS && e != |k|
    ensures !UniqueId(p, map[k := v])
  {
    SingleId(p, k, v);
    var id, n := p + [PLUS] + Pair(k, v), |p| + 1;
    assert id[n + e] == EQUALS && id[|p|] == PLUS;
    Resplit(id, |p|, n + e);
    var k' := id[n..n + e];
    assert |k'| == e;
    assert k' in map[k' := id[n + e + 1..]] && k' !in map[k := v];
  }

  lemma OtherPlus(p: Bytes, k: Bytes, v: Bytes, i: nat)
    requires i < |k| && k[i] == PLUS
    ensures !UniqueId(p, map[k := v])
  {
    SingleId(p, k, v);
    var id, n := p + [PLUS] + Pair(k, v), |p| + 1;
    assert id[n + i] == PLUS && id[n + |k|] == EQUALS;
    Resplit(id, n + i, n + |k|);
    assert |id[..n + i]| == n + i;
  }

  lemma LastPlus(p: Bytes, k: Bytes, v: Bytes)
    requires v != [] && v[|v| - 1] == PLUS
    ensures !UniqueId(p, map[k := v])
  {
    SingleId(p, k, v);
    var id := p + [PLUS] + Pair(k, v);
    var q := id[..|id| - 1];
    EmptyId(q);
    assert id == q + [PLUS];
    assert k in map[k := v];
  }

  lemma OneTagNotUnique(p: Bytes, t: Tags)
    requires !SelfDelimiting(p, t) && |t| == 1 && PLUS !in p
    ensures !UniqueId(p, t)
  {
    var k :| k in t && !(PLUS !in k && EQUALS !in k && EQUALS !in t[k] && (t[k] == [] || t[k][|t[k]| - 1] != PLUS));
    var v := t[k];
    OnlyKey(t, k);
    if PLUS in k {
      var i :| 0 <= i < |k| && k[i] == PLUS;
      OtherPlus(p, k, v, i);
    } else if EQUALS in k {
      var i :| 0 <= i < |k| && k[i] == EQUALS;
      OtherEquals(p, k, v, i);
    } else if EQUALS in v {
      var i :| 0 <= i < |v| && v[i] == EQUALS;
      OtherEquals(p, k, v, |k| + 1 + i);
    } else {
      LastPlus(p, k, v);
    }
  }

  // -------------------------------------------------- what is self-delimiting is

  /** The end of a prefix is a plus sign of the ID, and an equals sign follows it if there
      are tags. */
  lemma IdShape(id: Bytes, p: Bytes, t: Tags)
    requires id == IdOf(p, t)
    ensures |p| < |id| && id[..|p|] == p && id[|p|] == PLUS
    ensures t == map[] ==> |id| == |p| + 1
    ensures t != map[] ==> EQUALS in id[|p| + 1..]
  {
    var keys := SortedKeys(t.Keys);
    NoKeys(t);
    assert id[|p| + 1..] == Body(keys, t);
    if t != map[] { BodyHasEquals(keys, t); }
  }

  lemma NoTagsUnique(p: Bytes, p': Bytes, t': Tags)
    requires SelfDelimiting(p, map[]) && IdOf(p', t') == IdOf(p, map[])
    ensures p' == p && t' == map[]
  {
    var id := IdOf(p, map[]);
    IdShape(id, p, map[]);
    IdShape(id, p', t');
    forall i | 0 <= i < |p| && id[i] == PLUS ensures EQUALS !in id[i + 1..] {
      assert p[i] == PLUS;
      assert id[i + 1..] == p[i + 1..] + [PLUS];
    }
    assert EQUALS !in id[|p| + 1..];
    assert t' == map[];
    assert |p'| == |p|;
  }

  /** No plus sign inside a self-delimiting tag can end a prefix. */
  lemma PlusInsideTag(p: Bytes, k: Bytes, v: Bytes, id: Bytes, at: nat)
    requires PLUS !in k && EQUALS !in v && (v == [] || v[|v| - 1] != PLUS)
    requires id == p + [PLUS] + Pair(k, v) && |p| < at < |id| && id[at] == PLUS
    ensures |id| != at + 1 && EQUALS !in id[at + 1..]
  {
    var n := |p| + 1;
    assert forall i :: 0 <= i < |k| ==> id[n + i] == k[i];
    assert forall i :: 0 <= i < |k| ==> k[i] in k;
    assert id[n + |k|] == EQUALS;
    assert at > n + |k|;
    var i := at - n - |k| - 1;
    assert v[i] == PLUS;
    assert id[at + 1..] == v[i + 1..];
  }

  lemma SecondEquals(keys: seq<Bytes>, t: Tags)
    requires |keys| > 1 && forall x :: x in keys ==> x in t
    ensures exists j :: |keys[0]| < j < |Body(keys, t)| && Body(keys, t)[j] == EQUALS
  {
    var pair, more := Pair(keys[0], t[keys[0]]), Body(keys[1..], t);
    BodyHasEquals(keys[1..], t);
    var e :| 0 <= e < |more| && more[e] == EQUALS;
    assert Body(keys, t)[|pair| + 1 + e] == EQUALS;
  }

  /** A body with a single equals sign is a single tag. */
  lemma OneEqualsOneTag(keys: seq<Bytes>, t: Tags, k: Bytes, v: Bytes)
    requires Ordered(keys) && (forall x :: x in keys <==> x in t) && |keys| > 0
    requires EQUALS !in k && EQUALS !in v && Body(keys, t) == Pair(k, v)
    ensures t == map[k := v]
  {
    var first := keys[0];
    var pair, body := Pair(first, t[first]), Pair(k, v);
    assert body[|first|] == pair[|first|] == EQUALS;
    assert forall j :: 0 <= j < |k| ==> body[j] == k[j];
    assert forall j :: 0 <= j < |v| ==> body[|k| + 1 + j] == v[j];
    assert forall j :: |k| < j < |body| ==> body[j] == v[j - |k| - 1];
    assert forall j :: 0 <= j < |body| && body[j] == EQUALS ==> j == |k|;
    if |keys| > 1 { SecondEquals(keys, t); }
    assert |keys| == 1 && pair == body;
    assert first == pair[..|k|] == body[..|k|] == k;
    assert t[first] == pair[|k| + 1..] == body[|k| + 1..] == v;
    assert forall x :: x in t <==> x == k;
  }

  lemma OneTagUnique(p: Bytes, k: Bytes, v: Bytes, p': Bytes, t': Tags)
    requires PLUS !in p && PLUS !in k && EQUALS !in k && EQUALS !in v && (v == [] || v[|v| - 1] != PLUS)
    requires IdOf(p', t') == p + [PLUS] + Pair(k, v)
    ensures p' == p && t' == map[k := v]
  {
    var id := p + [PLUS] + Pair(k, v);
    IdShape(id, p', t');
    assert forall i :: 0 <= i < |p| ==> id[i] == p[i];
    assert |p'| >= |p|;
    forall at: nat | |p| < at < |id| && id[at] == PLUS ensures |id| != at + 1 && EQUALS !in id[at + 1..] {
      PlusInsideTag(p, k, v, id, at);
    }
    assert |p'| == |p|;
    assert p' == id[..|p|] == p;
    assert id[|p| + 1..] == Pair(k, v);
    NoKeys(t');
    OneEqualsOneTag(SortedKeys(t'.Keys), t', k, v);
  }

  // The tags a=1,b=2 and the one tag a with the value "1,b=2".
  const TWO_TAGS: Tags := map[[97] := [49], [98] := [50]]
  const ONE_TAG: Tags := map[[97] := [49, COMMA, 98, EQUALS, 50]]

  lemma TwoTagsPrintAsOne(p: Bytes)
    ensures IdOf(p, TWO_TAGS) == IdOf(p, ONE_TAG) && TWO_TAGS != ONE_TAG
  {
    var keys := [[97], [98]];
    assert Ordered(keys);
    OrderedIsCanonical(SortedKeys(TWO_TAGS.Keys), keys);
    assert keys[1..] == [[98]];
    assert Body(keys, TWO_TAGS) == Pair([97], [49]) + [COMMA] + Pair([98], [50]);
    assert Pair([97], [49]) + [COMMA] + Pair([98], [50]) == Pair([97], [49, COMMA, 98, EQUALS, 50]);
    SingleId(p, [97], [49, COMMA, 98, EQUALS, 50]);
    assert [97] in TWO_TAGS && TWO_TAGS[[97]] != ONE_TAG[[97]];
  }

  /** An ID belongs to one prefix and one set of tags exactly when it is self-delimiting. */
  lemma UniqueExactly(p: Bytes, t: Tags)
    ensures UniqueId(p, t) <==> SelfDelimiting(p, t)
  {
    if SelfDelimiting(p, t) {
      forall p', t' | IdOf(p', t') == IdOf(p, t) ensures p' == p && t' == t {
        if t == map[] {
          NoTagsUnique(p, p', t');
        } else {
          var k :| k in t;
          OnlyKey(t, k);
          SingleId(p, k, t[k]);
          OneTagUnique(p, k, t[k], p', t');
        }
      }
    } else if t == map[] {
      NoTagsNotUnique(p);
    } else if PLUS in p {
      PlusInPrefixNotUnique(p, t);
    } else if |t| == 1 {
      OneTagNotUnique(p, t);
    } else {
      ManyTagsNotUnique(p, t);
    }
  }
}
