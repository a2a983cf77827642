/** All the ways to read the tag part of a scope's ID: the inverse of its printer, which gives
    a set of tag maps because delimiters inside keys and values are printed as they are. */
module IdReadings {
  import opened Wrappers
  import opened ByteStrings
  import opened ScopeIds

  /** The tag part of an ID. */
  ghost function BodyOf(tags: Tags): Bytes {
    Body(SortedKeys(tags.Keys), tags)
  }

  predicate Above(low: Option<Bytes>, key: Bytes) {
    match low case None => true case Some(k) => StringLess(k, key)
  }

  ghost predicate AllAbove(low: Option<Bytes>, tags: Tags) {
    forall k :: k in tags ==> Above(low, k)
  }

  /** The equals sign at e can end a key. */
  predicate KeyEnds(w: Bytes, low: Option<Bytes>, e: nat) {
    e < |w| && w[e] == EQUALS && Above(low, w[..e])
  }

  /** The comma at `end` can end the value behind it. */
  predicate ValueEnds(w: Bytes, e: nat, end: nat) {
    e < end < |w| && w[end] == COMMA
  }

  function LastTag(w: Bytes, e: nat): Tags
    requires e < |w|
  {
    map[w[..e] := w[e + 1..]]
  }

  function MoreTags(w: Bytes, e: nat, end: nat, more: Tags): Tags
    requires e < end < |w|
  {
    more[w[..e] := w[e + 1..end]]
  }

  /** The maps with one tag or more, all keys above `low`, that print as `w`: any equals sign
      can end the first key, and any comma behind it, or none, its value. */
  function Readings(w: Bytes, low: Option<Bytes>): set<Tags>
    decreases |w|
  {
    (set e | 0 <= e < |w| && KeyEnds(w, low, e) :: LastTag(w, e))
    + (set e, end, more | 0 <= e < |w| && 0 <= end < |w| && KeyEnds(w, low, e) && ValueEnds(w, e, end)
                          && more in Readings(w[end + 1..], Some(w[..e])) :: MoreTags(w, e, end, more))
  }

  // -------------------------------------------------------------------- printing

  lemma {:induction false} BodyDependsOnKeys(keys: seq<Bytes>, a: Tags, b: Tags)
    requires forall k :: k in keys ==> k in a && k in b && a[k] == b[k]
    ensures Body(keys, a) == Body(keys, b)
  {
    if |keys| > 1 {
      BodyDependsOnKeys(keys[1..], a, b);
    }
  }

  lemma OrderedPrepend(key: Bytes, keys: seq<Bytes>)
    requires Ordered(keys) && forall k :: k in keys ==> StringLess(key, k)
    ensures Ordered([key] + keys)
  {
    var all := [key] + keys;
    forall i, j | 0 <= i < j < |all| ensures StringLess(all[i], all[j]) {
      assert all[j] == keys[j - 1];
      if i > 0 { assert all[i] == keys[i - 1]; }
    }
  }

  /** A tag whose key is below all others is printed first. */
  lemma BodyOfSmallest(key: Bytes, value: Bytes, more: Tags)
    requires AllAbove(Some(key), more)
    ensures key !in more && SortedKeys(more[key := value].Keys) == [key] + SortedKeys(more.Keys)
    ensures BodyOf(more[key := value]) ==
      if more == map[] then Pair(key, value) else Pair(key, value) + [COMMA] + BodyOf(more)
  {
    var all, keys := more[key := value], SortedKeys(more.Keys);
    StringLessIrreflexive(key);
    OrderedPrepend(key, keys);
    OrderedIsCanonical(SortedKeys(all.Keys), [key] + keys);
    assert ([key] + keys)[1..] == keys;
    NoKeys(more);
    BodyDependsOnKeys(keys, all, more);
  }

  /** Any non-empty map has a smallest key. */
  lemma SplitSmallest(tags: Tags) returns (key: Bytes, more: Tags)
    requires tags != map[]
    ensures key in tags && AllAbove(Some(key), more) && key !in more && tags == more[key := tags[key]]
    ensures |more| < |tags|
  {
    var keys := SortedKeys(tags.Keys);
    NoKeys(tags);
    key := keys[0];
    more := tags - {key};
    forall k | k in more ensures StringLess(key, k) {
      var j :| 0 <= j < |keys| && keys[j] == k;
    }
    assert tags == more[key := tags[key]];
    assert more.Keys == tags.Keys - {key};
  }

  // ------------------------------------------------------------------ the readings

  lemma LastTagPrints(w: Bytes, low: Option<Bytes>, e: nat)
    requires KeyEnds(w, low, e)
    ensures LastTag(w, e) != map[] && AllAbove(low, LastTag(w, e)) && BodyOf(LastTag(w, e)) == w
  {
    var none: Tags := map[];
    assert LastTag(w, e) == none[w[..e] := w[e + 1..]];
    BodyOfSmallest(w[..e], w[e + 1..], none);
    assert w[..e] in LastTag(w, e);
    assert w == Pair(w[..e], w[e + 1..]);
  }

  lemma PrependPrints(low: Option<Bytes>, key: Bytes, value: Bytes, more: Tags)
    requires Above(low, key) && more != map[] && AllAbove(Some(key), more)
    ensures var tags := more[key := value];
      tags != map[] && AllAbove(low, tags) && BodyOf(tags) == Pair(key, value) + [COMMA] + BodyOf(more)
  {
    BodyOfSmallest(key, value, more);
    assert key in more[key := value];
    AboveAll(low, key, more);
  }

  lemma CutAtComma(w: Bytes, e: nat, end: nat)
    requires e < |w| && w[e] == EQUALS && ValueEnds(w, e, end)
    ensures w == Pair(w[..e], w[e + 1..end]) + [COMMA] + w[end + 1..]
  {
  }

  ghost predicate ReadsMore(w: Bytes, low: Option<Bytes>, tags: Tags, e: nat, end: nat, more: Tags) {
    && KeyEnds(w, low, e) && ValueEnds(w, e, end)
    && more in Readings(w[end + 1..], Some(w[..e])) && tags == MoreTags(w, e, end, more)
  }

  lemma ReadingCases(w: Bytes, low: Option<Bytes>, tags: Tags)
    ensures tags in Readings(w, low) <==>
      || (exists e: nat :: KeyEnds(w, low, e) && tags == LastTag(w, e))
      || exists e: nat, end: nat, more :: ReadsMore(w, low, tags, e, end, more)
  {
    if e: nat, end: nat, more :| ReadsMore(w, low, tags, e, end, more) {
      assert KeyEnds(w, low, e) && ValueEnds(w, e, end) && more in Readings(w[end + 1..], Some(w[..e]));
    }
    if tags in Readings(w, low) && !exists e: nat :: KeyEnds(w, low, e) && tags == LastTag(w, e) {
      var e: nat, end: nat, more :| KeyEnds(w, low, e) && ValueEnds(w, e, end)
        && more in Readings(w[end + 1..], Some(w[..e])) && tags == MoreTags(w, e, end, more);
      assert ReadsMore(w, low, tags, e, end, more);
    }
  }

  lemma {:induction false} ReadingPrints(w: Bytes, low: Option<Bytes>, tags: Tags)
    requires tags in Readings(w, low)
    ensures tags != map[] && AllAbove(low, tags) && BodyOf(tags) == w
    decreases |w|
  {
    ReadingCases(w, low, tags);
    if e: nat :| KeyEnds(w, low, e) && tags == LastTag(w, e) {
      LastTagPrints(w, low, e);
    } else {
      var e: nat, end: nat, more :| ReadsMore(w, low, tags, e, end, more);
      ReadingPrints(w[end + 1..], Some(w[..e]), more);
      PrependPrints(low, w[..e], w[e + 1..end], more);
      CutAtComma(w, e, end);
    }
  }

  lemma AboveAll(low: Option<Bytes>, key: Bytes, more: Tags)
    requires Above(low, key) && AllAbove(Some(key), more)
    ensures AllAbove(low, more)
  {
    forall k | k in more ensures Above(low, k) {
      if low.Some? { StringLessTransitive(low.value, key, k); }
    }
  }

  lemma SplitPair(key: Bytes, value: Bytes, rest: Bytes)
    ensures var w := Pair(key, value) + rest; var e, end := |key|, |Pair(key, value)|;
      && w[e] == EQUALS && w[..e] == key && w[e + 1..end] == value && w[end..] == rest
  {
  }

  lemma OneTagIsRead(low: Option<Bytes>, key: Bytes, value: Bytes, tags: Tags)
    requires Above(low, key) && tags == map[key := value]
    ensures tags in Readings(Pair(key, value), low)
  {
    var w := Pair(key, value);
    SplitPair(key, value, []);
    assert w + [] == w && w[|key| + 1..] == value;
    assert KeyEnds(w, low, |key|) && tags == LastTag(w, |key|);
    ReadingCases(w, low, tags);
  }

  lemma MoreTagsAreRead(low: Option<Bytes>, key: Bytes, value: Bytes, rest: Bytes, more: Tags)
    requires Above(low, key) && more in Readings(rest, Some(key))
    ensures more[key := value] in Readings(Pair(key, value) + ([COMMA] + rest), low)
  {
    PairThenComma(key, value, rest);
    ReadAt(Pair(key, value) + ([COMMA] + rest), low, |key|, |Pair(key, value)|, key, value, rest, more);
  }

  lemma PairThenComma(key: Bytes, value: Bytes, rest: Bytes)
    ensures var w, e, end := Pair(key, value) + ([COMMA] + rest), |key|, |Pair(key, value)|;
      && e < end < |w| && w[e] == EQUALS && w[end] == COMMA
      && w[..e] == key && w[e + 1..end] == value && w[end + 1..] == rest
  {
    SplitPair(key, value, [COMMA] + rest);
    TailAfterComma(Pair(key, value), rest);
  }

  lemma Regroup(a: Bytes, b: Bytes, c: Bytes)
    ensures a + b + c == a + (b + c)
  {
  }

  lemma TailAfterComma(pair: Bytes, rest: Bytes)
    ensures var w := pair + ([COMMA] + rest); w[|pair|] == COMMA && w[|pair| + 1..] == rest
  {
  }

  lemma ReadAt(w: Bytes, low: Option<Bytes>, e: nat, end: nat, key: Bytes, value: Bytes, rest: Bytes, more: Tags)
    requires e < end < |w| && w[e] == EQUALS && w[end] == COMMA
    requires w[..e] == key && w[e + 1..end] == value && w[end + 1..] == rest
    requires Above(low, key) && more in Readings(rest, Some(key))
    ensures more[key := value] in Readings(w, low)
  {
    assert ReadsMore(w, low, more[key := value], e, end, more);
    ReadingCases(w, low, more[key := value]);
  }

  lemma {:induction false} PrintedIsRead(low: Option<Bytes>, tags: Tags)
    requires tags != map[] && AllAbove(low, tags)
    ensures tags in Readings(BodyOf(tags), low)
    decreases |tags|
  {
    var key, more := SplitSmallest(tags);
    BodyOfSmallest(key, tags[key], more);
    if more == map[] {
      OneTagIsRead(low, key, tags[key], tags);
    } else {
      PrintedIsRead(Some(key), more);
      MoreTagsAreRead(low, key, tags[key], BodyOf(more), more);
      Regroup(Pair(key, tags[key]), [COMMA], BodyOf(more));
    }
  }

  /** The readings are exactly the maps that print as the text. */
  lemma ReadingsExactly(w: Bytes, tags: Tags)
    ensures tags in Readings(w, None) <==> tags != map[] && BodyOf(tags) == w
  {
    if tags in Readings(w, None) {
      ReadingPrints(w, None, tags);
    } else if tags != map[] && BodyOf(tags) == w {
      PrintedIsRead(None, tags);
    }
  }
}
