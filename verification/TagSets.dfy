/** `MetricTag`, its hand-written `operator<`, and the `std::set<MetricTag>` that order
    induces: a strictly increasing sequence, where inserting a tag equivalent to a member
    changes nothing. */
module TagSets {
  import opened Wrappers
  import opened ByteStrings

  datatype MetricTag = MetricTag(tagName: Bytes, tagValue: Option<Bytes>) {
    /** The member `tagValue`, which is empty when it was never set. */
    function Text(): Bytes {
      tagValue.GetOr([])
    }
  }

  predicate TagLess(a: MetricTag, b: MetricTag) {
    if a.tagName == b.tagName then StringLess(a.Text(), b.Text())
    else StringLess(a.tagName, b.tagName)
  }

  predicate Equivalent(a: MetricTag, b: MetricTag) {
    a.tagName == b.tagName && a.Text() == b.Text()
  }

  /** The order is a strict total order up to equivalence, which is what `std::set`
      needs of it; names decide first, and then values. */
  lemma TagLessIsStrictWeakOrder(a: MetricTag, b: MetricTag, c: MetricTag)
    ensures !TagLess(a, a)
    ensures TagLess(a, b) ==> !TagLess(b, a)
    ensures TagLess(a, b) && TagLess(b, c) ==> TagLess(a, c)
    ensures !TagLess(a, b) && !TagLess(b, a) <==> Equivalent(a, b)
    ensures a.tagName != b.tagName ==> (TagLess(a, b) <==> StringLess(a.tagName, b.tagName))
    ensures a.tagName == b.tagName ==> (TagLess(a, b) <==> StringLess(a.tagValue.GetOr([]), b.tagValue.GetOr([])))
  {
    StringLessIrreflexive(a.tagName);
    StringLessIrreflexive(a.Text());
    if TagLess(a, b) && TagLess(b, a) {
      if a.tagName == b.tagName {
        StringLessTransitive(a.Text(), b.Text(), a.Text());
      } else {
        StringLessTransitive(a.tagName, b.tagName, a.tagName);
      }
    }
    if TagLess(a, b) && TagLess(b, c) {
      if a.tagName == b.tagName == c.tagName {
        StringLessTransitive(a.Text(), b.Text(), c.Text());
      } else if a.tagName != b.tagName && b.tagName != c.tagName {
        StringLessTransitive(a.tagName, b.tagName, c.tagName);
      }
    }
    StringLessTotal(a.tagName, b.tagName);
    StringLessTotal(a.Text(), b.Text());
  }

  ghost predicate Sorted(tags: seq<MetricTag>) {
    forall i, j :: 0 <= i < j < |tags| ==> TagLess(tags[i], tags[j])
  }

  /** `std::set::insert`. */
  function Insert(tags: seq<MetricTag>, t: MetricTag): seq<MetricTag> {
    if |tags| == 0 || TagLess(t, tags[0]) then [t] + tags
    else if TagLess(tags[0], t) then [tags[0]] + Insert(tags[1..], t)
    else tags
  }

  ghost predicate HasEquivalent(tags: seq<MetricTag>, t: MetricTag) {
    exists i :: 0 <= i < |tags| && Equivalent(tags[i], t)
  }

  lemma EquivalentInRest(tags: seq<MetricTag>, t: MetricTag)
    requires |tags| > 0 && !Equivalent(tags[0], t)
    ensures HasEquivalent(tags, t) <==> HasEquivalent(tags[1..], t)
  {
    if i :| 0 <= i < |tags| && Equivalent(tags[i], t) {
      assert Equivalent(tags[1..][i - 1], t);
    }
  }

  /** Inserting keeps the set a set: it adds exactly the new tag, or nothing when an
      equivalent one is present. */
  lemma {:induction false} InsertKeepsSet(tags: seq<MetricTag>, t: MetricTag)
    requires Sorted(tags)
    ensures Sorted(Insert(tags, t))
    ensures HasEquivalent(tags, t) ==> Insert(tags, t) == tags
    ensures !HasEquivalent(tags, t) ==> forall u :: u in Insert(tags, t) <==> u in tags || u == t
  {
    if |tags| == 0 {
    } else if TagLess(t, tags[0]) {
      forall i | 0 <= i < |tags| ensures TagLess(t, tags[i]) && !Equivalent(tags[i], t) {
        TagLessIsStrictWeakOrder(t, tags[0], tags[i]);
        TagLessIsStrictWeakOrder(t, tags[i], t);
      }
    } else {
      TagLessIsStrictWeakOrder(tags[0], t, t);
      if TagLess(tags[0], t) {
        var rest := tags[1..];
        InsertKeepsSet(rest, t);
        assert tags == [tags[0]] + rest;
        EquivalentInRest(tags, t);
        var r := Insert(rest, t);
        forall j | 0 <= j < |r| ensures TagLess(tags[0], r[j]) {
          assert r[j] in r;
        }
      }
    }
  }

  /** A tag above every member goes to the end. */
  lemma {:induction false} InsertLast(tags: seq<MetricTag>, t: MetricTag)
    requires Sorted(tags + [t])
    ensures Insert(tags, t) == tags + [t]
  {
    if |tags| > 0 {
      var all := tags + [t];
      assert TagLess(all[0], all[|tags|]);
      TagLessIsStrictWeakOrder(tags[0], t, t);
      assert all[1..] == tags[1..] + [t];
      InsertLast(tags[1..], t);
    }
  }

  /** A set is determined by its members: there is one way to write it in order. */
  lemma {:induction false} SortedIsCanonical(a: seq<MetricTag>, b: seq<MetricTag>)
    requires Sorted(a) && Sorted(b)
    requires forall t :: t in a <==> t in b
    ensures a == b
  {
    assert |a| > 0 ==> a[0] in b;
    assert |b| > 0 ==> b[0] in a;
    if |a| > 0 {
      SameFirst(a, b);
      FirstIsNotRepeated(a);
      FirstIsNotRepeated(b);
      assert forall t :: t in a <==> t == a[0] || t in a[1..] by { assert a == [a[0]] + a[1..]; }
      assert forall t :: t in b <==> t == b[0] || t in b[1..] by { assert b == [b[0]] + b[1..]; }
      SortedIsCanonical(a[1..], b[1..]);
      assert a == [a[0]] + a[1..] && b == [b[0]] + b[1..];
    }
  }

  lemma SameFirst(a: seq<MetricTag>, b: seq<MetricTag>)
    requires Sorted(a) && Sorted(b) && |a| > 0 && |b| > 0
    requires a[0] in b && b[0] in a
    ensures a[0] == b[0]
  {
    var i :| 0 <= i < |b| && b[i] == a[0];
    var j :| 0 <= j < |a| && a[j] == b[0];
    TagLessIsStrictWeakOrder(a[0], b[0], b[0]);
  }

  lemma FirstIsNotRepeated(a: seq<MetricTag>)
    requires Sorted(a) && |a| > 0
    ensures a[0] !in a[1..]
  {
    TagLessIsStrictWeakOrder(a[0], a[0], a[0]);
    assert forall i :: 1 <= i < |a| ==> TagLess(a[0], a[i]);
  }

  /** `ConvertTags`: the tag set of a map, whatever order the hash map is walked in.  By
      `SortedIsCanonical` the two promises leave one possible result. */
  method ConvertTags(tags: map<Bytes, Bytes>) returns (metricTags: seq<MetricTag>)
    ensures Sorted(metricTags)
    ensures forall t :: t in metricTags <==>
      t.tagValue.Some? && t.tagName in tags && tags[t.tagName] == t.tagValue.value
  {
    metricTags := [];
    var names := tags.Keys;
    while names != {}
      invariant names <= tags.Keys
      invariant Sorted(metricTags)
      invariant forall t :: t in metricTags <==>
        t.tagValue.Some? && t.tagName in tags.Keys - names && tags[t.tagName] == t.tagValue.value
    {
      var name :| name in names;
      var tag := MetricTag(name, Some(tags[name]));
      InsertKeepsSet(metricTags, tag);
      assert !HasEquivalent(metricTags, tag) by {
        forall i | 0 <= i < |metricTags| ensures !Equivalent(metricTags[i], tag) {
          assert metricTags[i] in metricTags;
        }
      }
      metricTags := Insert(metricTags, tag);
      names := names - {name};
    }
  }
}
