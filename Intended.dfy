/**
 * Two comparisons as the design describes them, next to the ones the code performs.
 *
 * Objects shared across positions. The matcher tests identity only between the
 * objects at one position on the two sides
 * (`Properties.SharingAcrossPositionsGoesUnseen`), while a deep copy is meant to
 * share no object anywhere. `IsIsolatedCopy` adds that: no object reached from
 * one side is the very object reached from the other.
 *
 * Maps.
 * Both matchers compare `get(key)` on the two maps. `get` returns null both for
 * a key mapped to null and for a missing key, so `{k=null}` matches `{}`
 * (`Behaviours.NullValuedEntryMatchesMissingKey`), although maps are meant to
 * match only when their key sets are identical. Here a key the other map lacks
 * is compared against the `<absent>` sentinel, as a missing array position is;
 * two maps then match exactly when their key sets are identical and every key
 * yields matching values.
 */
module Intended {
  import opened Values
  import opened Verdicts
  import opened Passes
  import opened Properties

  /** `containsKey`. */
  predicate HasKey(keys: seq<Key>, key: Key) {
    exists i :: 0 <= i < |keys| && KeyEquals(keys[i], key)
  }

  /** The first map's keys, then the second's, each checked for presence on the other side. */
  function KeyedMapVerdict(variant: Variant, vt: set<TypeName>, keys1: seq<Key>, values1: seq<Value>,
                           keys2: seq<Key>, values2: seq<Value>): Verdict
    requires BuiltinValueTypes <= vt
  {
    var first := KeyedMapPass(variant, vt, keys1, keys1, values1, keys2, values2, false, 0);
    if first.Same? then KeyedMapPass(variant, vt, keys2, keys1, values1, keys2, values2, true, 0) else first
  }

  /** What one entry of a pass decides; `flipped` when the entry belongs to the second map. */
  function KeyedEntry(variant: Variant, vt: set<TypeName>, key: Key, keys1: seq<Key>, values1: seq<Value>,
                      keys2: seq<Key>, values2: seq<Value>, flipped: bool): Verdict
    requires BuiltinValueTypes <= vt
  {
    if flipped && !HasKey(keys1, key) then Diverges([], Unequal(Render(Absent), Render(Get(keys2, values2, key))))
    else if !flipped && !HasKey(keys2, key) then Diverges([], Unequal(Render(Get(keys1, values1, key)), Render(Absent)))
    else Judge(variant, vt, Get(keys1, values1, key), Get(keys2, values2, key))
  }

  function KeyedMapPass(variant: Variant, vt: set<TypeName>, iterated: seq<Key>, keys1: seq<Key>, values1: seq<Value>,
                        keys2: seq<Key>, values2: seq<Value>, flipped: bool, k: nat): Verdict
    requires BuiltinValueTypes <= vt && k <= |iterated|
    decreases |iterated| - k
  {
    if k == |iterated| then Same
    else if iterated[k].NullKey? then Throws([], NullPointer)
    else
      var v := KeyedEntry(variant, vt, iterated[k], keys1, values1, keys2, values2, flipped);
      if v.Same? then KeyedMapPass(variant, vt, iterated, keys1, values1, keys2, values2, flipped, k + 1)
      else Under(KeySegment(iterated[k]), v)
  }

  lemma {:induction false} KeyedMapPassSame(variant: Variant, vt: set<TypeName>, iterated: seq<Key>, keys1: seq<Key>,
                                            values1: seq<Value>, keys2: seq<Key>, values2: seq<Value>, flipped: bool, k: nat)
    requires BuiltinValueTypes <= vt && k <= |iterated|
    ensures KeyedMapPass(variant, vt, iterated, keys1, values1, keys2, values2, flipped, k).Same? <==>
      forall j :: k <= j < |iterated| ==>
        !iterated[j].NullKey? && HasKey(if flipped then keys1 else keys2, iterated[j]) &&
        Judge(variant, vt, Get(keys1, values1, iterated[j]), Get(keys2, values2, iterated[j])).Same?
    decreases |iterated| - k
  {
    if k < |iterated| && !iterated[k].NullKey? {
      KeyedMapPassSame(variant, vt, iterated, keys1, values1, keys2, values2, flipped, k + 1);
    }
  }

  /** The intended rule: two maps match exactly when neither has a null key, each
      key of either map is a key of the other, and every key yields matching values. */
  lemma KeyedMapSame(variant: Variant, vt: set<TypeName>, keys1: seq<Key>, values1: seq<Value>,
                     keys2: seq<Key>, values2: seq<Value>)
    requires BuiltinValueTypes <= vt
    ensures KeyedMapVerdict(variant, vt, keys1, values1, keys2, values2).Same? <==>
      (forall j :: 0 <= j < |keys1| ==> !keys1[j].NullKey? && HasKey(keys2, keys1[j])) &&
      (forall j :: 0 <= j < |keys2| ==> !keys2[j].NullKey? && HasKey(keys1, keys2[j])) &&
      MapVerdict(variant, vt, keys1, values1, keys2, values2).Same?
  {
    KeyedMapPassSame(variant, vt, keys1, keys1, values1, keys2, values2, false, 0);
    KeyedMapPassSame(variant, vt, keys2, keys1, values1, keys2, values2, true, 0);
    MapSame(variant, vt, keys1, values1, keys2, values2);
  }

  /** Where the key sets agree, the intended comparison reports what the code reports. */
  lemma {:induction false} KeyedAgreesOnSharedKeys(variant: Variant, vt: set<TypeName>, iterated: seq<Key>, keys1: seq<Key>,
                                                   values1: seq<Value>, keys2: seq<Key>, values2: seq<Value>, flipped: bool, k: nat)
    requires BuiltinValueTypes <= vt && k <= |iterated|
    requires forall j :: k <= j < |iterated| ==> HasKey(if flipped then keys1 else keys2, iterated[j])
    ensures KeyedMapPass(variant, vt, iterated, keys1, values1, keys2, values2, flipped, k)
         == MapPass(variant, vt, iterated, keys1, values1, keys2, values2, k)
    decreases |iterated| - k
  {
    if k < |iterated| && !iterated[k].NullKey? {
      KeyedAgreesOnSharedKeys(variant, vt, iterated, keys1, values1, keys2, values2, flipped, k + 1);
    }
  }

  /** A key mapped to null no longer matches a missing key, in either order. */
  lemma KeyedRejectsNullForMissingKey(variant: Variant, vt: set<TypeName>, key: Key)
    requires BuiltinValueTypes <= vt && !key.NullKey?
    ensures KeyedMapVerdict(variant, vt, [key], [Null], [], []) == Diverges([KeySegment(key)], Unequal("null", "<absent>"))
    ensures KeyedMapVerdict(variant, vt, [], [], [key], [Null]) == Diverges([KeySegment(key)], Unequal("<absent>", "null"))
  {
    GetFindsFirst([key], [Null], key, 0);
    assert !HasKey([], key);
    assert Render(Absent) == "<absent>";
  }

  // ---------------------------------------------------------------- objects shared across positions

  /** The design's deep copy: what the matcher checks, and in addition no object
      reached from one side is the very object reached from the other, wherever
      the two are. */
  predicate IsIsolatedCopy(vt: set<TypeName>, a: Value, b: Value)
    requires BuiltinValueTypes <= vt
  {
    IsDeepCopy(vt, a, b) && Reached(vt, a) !! Reached(vt, b)
  }

  /** The stricter relation is the matcher's verdict plus disjointness, so it
      rejects the pair the matcher lets through with one object in two positions. */
  lemma IsolatedCopyRejectsSharing(vt: set<TypeName>, a: Value, b: Value, x: Value, x2: Value, w: Value)
    requires BuiltinValueTypes <= vt
    ensures IsIsolatedCopy(vt, a, b) <==> Judge(Current, vt, a, b).Same? && Reached(vt, a) !! Reached(vt, b)
    ensures x.Node? && x2.Node? && w.Node? && x.shape == x2.shape == w.shape == Plain &&
            x.fields == x2.fields == w.fields == [] && ClassOf(x) == ClassOf(x2) == ClassOf(w) && !IsValueType(vt, x) &&
            x.id != x2.id && x.id != w.id &&
            a.Node? && b.Node? && a.shape == b.shape == Plain && a.id != b.id && ClassOf(a) == ClassOf(b) && !IsValueType(vt, a) &&
            a.fields == [Field("p", x), Field("q", w)] && b.fields == [Field("p", x2), Field("q", x)]
            ==> Judge(Current, vt, a, b).Same? && !IsIsolatedCopy(vt, a, b)
  {
    SameIffDeepCopy(vt, a, b);
    if x.Node? && x2.Node? && w.Node? && x.shape == x2.shape == w.shape == Plain &&
       x.fields == x2.fields == w.fields == [] && ClassOf(x) == ClassOf(x2) == ClassOf(w) && !IsValueType(vt, x) &&
       x.id != x2.id && x.id != w.id &&
       a.Node? && b.Node? && a.shape == b.shape == Plain && a.id != b.id && ClassOf(a) == ClassOf(b) && !IsValueType(vt, a) &&
       a.fields == [Field("p", x), Field("q", w)] && b.fields == [Field("p", x2), Field("q", x)]
    {
      SharingAcrossPositionsGoesUnseen(vt, a, b, x, x2, w);
    }
  }

  /** `get` yields null or one of the map's values, so it reaches nothing the values do not. */
  lemma {:induction false} GetReachesNoMore(vt: set<TypeName>, keys: seq<Key>, values: seq<Value>, key: Key, bound: set<nat>)
    requires BuiltinValueTypes <= vt
    requires forall k :: 0 <= k < |values| ==> Reached(vt, values[k]) <= bound
    ensures Reached(vt, Get(keys, values, key)) <= bound
  {
    if keys != [] && values != [] && !KeyEquals(keys[0], key) {
      assert forall k :: 0 <= k < |values[1..]| ==> values[1..][k] == values[k + 1];
      GetReachesNoMore(vt, keys[1..], values[1..], key, bound);
    }
  }

  /** The stricter relation holds of every pair the walk compares next: aligned
      fields, aligned elements, and the values both maps give for a key. One walk
      over both trees that keeps the objects met on each side can check it. */
  lemma IsolatedCopyDescends(vt: set<TypeName>, a: Value, b: Value)
    requires BuiltinValueTypes <= vt && IsIsolatedCopy(vt, a, b) && a.Node? && !IsValueType(vt, a)
    ensures b.Node? && b.shape.Plain? == a.shape.Plain?
    ensures a.shape.Plain? ==>
      |a.fields| == |b.fields| && forall k :: 0 <= k < |a.fields| ==> IsIsolatedCopy(vt, a.fields[k].value, b.fields[k].value)
    ensures a.shape.ObjArray? ==>
      (b.shape.ObjArray? && |a.shape.elems| == |b.shape.elems| &&
       forall k :: 0 <= k < |a.shape.elems| ==> IsIsolatedCopy(vt, a.shape.elems[k], b.shape.elems[k]))
    ensures a.shape.Coll? ==>
      (b.shape.Coll? && |a.shape.members| == |b.shape.members| &&
       forall k :: 0 <= k < |a.shape.members| ==> IsIsolatedCopy(vt, a.shape.members[k], b.shape.members[k]))
    ensures a.shape.MapS? ==>
      (b.shape.MapS? &&
       forall key: Key :: IsDeepCopy(vt, Get(a.shape.keys, a.shape.values, key), Get(b.shape.keys, b.shape.values, key))
         ==> IsIsolatedCopy(vt, Get(a.shape.keys, a.shape.values, key), Get(b.shape.keys, b.shape.values, key)))
  {
    match a.shape
    case Plain => IsolatedFieldsDescend(vt, a, b);
    case PrimArray(_, _) =>
    case ObjArray(es) => IsolatedElementsDescend(vt, a, b, es, b.shape.elems);
    case Coll(_, ms) => IsolatedElementsDescend(vt, a, b, ms, b.shape.members);
    case MapS(ks, vs) => IsolatedMapValuesDescend(vt, a, b);
  }

  lemma IsolatedFieldsDescend(vt: set<TypeName>, a: Value, b: Value)
    requires BuiltinValueTypes <= vt && IsIsolatedCopy(vt, a, b) && a.Node? && !IsValueType(vt, a) && a.shape.Plain?
    ensures b.Node? && b.shape.Plain? && |a.fields| == |b.fields|
    ensures forall k :: 0 <= k < |a.fields| ==> IsIsolatedCopy(vt, a.fields[k].value, b.fields[k].value)
  {
    assert b.Node? && b.shape.Plain? && |a.fields| == |b.fields|;
    forall k | 0 <= k < |a.fields|
      ensures IsIsolatedCopy(vt, a.fields[k].value, b.fields[k].value)
    {
      assert Reached(vt, a.fields[k].value) <= Reached(vt, a);
      assert Reached(vt, b.fields[k].value) <= Reached(vt, b);
    }
  }

  lemma IsolatedElementsDescend(vt: set<TypeName>, a: Value, b: Value, s1: seq<Value>, s2: seq<Value>)
    requires BuiltinValueTypes <= vt && IsIsolatedCopy(vt, a, b) && a.Node? && !IsValueType(vt, a)
    requires (a.shape.ObjArray? && s1 == a.shape.elems) || (a.shape.Coll? && s1 == a.shape.members)
    requires b.Node? && ((b.shape.ObjArray? && s2 == b.shape.elems) || (b.shape.Coll? && s2 == b.shape.members))
    ensures b.shape.ObjArray? == a.shape.ObjArray? && |s1| == |s2|
    ensures forall k :: 0 <= k < |s1| ==> IsIsolatedCopy(vt, s1[k], s2[k])
  {
    assert b.shape.ObjArray? == a.shape.ObjArray? && ElementsAreCopies(vt, s1, s2);
    forall k | 0 <= k < |s1|
      ensures IsIsolatedCopy(vt, s1[k], s2[k])
    {
      assert Reached(vt, s1[k]) <= Reached(vt, a);
      assert Reached(vt, s2[k]) <= Reached(vt, b);
    }
  }

  lemma IsolatedMapValuesDescend(vt: set<TypeName>, a: Value, b: Value)
    requires BuiltinValueTypes <= vt && IsIsolatedCopy(vt, a, b) && a.Node? && !IsValueType(vt, a) && a.shape.MapS?
    ensures b.Node? && b.shape.MapS?
    ensures forall key: Key ::
      (IsDeepCopy(vt, Get(a.shape.keys, a.shape.values, key), Get(b.shape.keys, b.shape.values, key))
       ==> IsIsolatedCopy(vt, Get(a.shape.keys, a.shape.values, key), Get(b.shape.keys, b.shape.values, key)))
  {
    assert b.Node? && b.shape.MapS?;
    MapValuesReached(vt, a);
    MapValuesReached(vt, b);
    forall key: Key | IsDeepCopy(vt, Get(a.shape.keys, a.shape.values, key), Get(b.shape.keys, b.shape.values, key))
      ensures IsIsolatedCopy(vt, Get(a.shape.keys, a.shape.values, key), Get(b.shape.keys, b.shape.values, key))
    {
      GetReachesNoMore(vt, a.shape.keys, a.shape.values, key, Reached(vt, a));
      GetReachesNoMore(vt, b.shape.keys, b.shape.values, key, Reached(vt, b));
    }
  }

  /** A map reaches everything its values reach. */
  lemma MapValuesReached(vt: set<TypeName>, m: Value)
    requires BuiltinValueTypes <= vt && m.Node? && !IsValueType(vt, m) && m.shape.MapS?
    ensures forall k :: 0 <= k < |m.shape.values| ==> Reached(vt, m.shape.values[k]) <= Reached(vt, m)
  {
    forall k | 0 <= k < |m.shape.values|
      ensures Reached(vt, m.shape.values[k]) <= Reached(vt, m)
    {
    }
  }
}
