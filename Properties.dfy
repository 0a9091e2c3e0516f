/**
 * What a deep copy is, defined declaratively (no paths, no passes, no
 * first-failure order), and the theorem that the Current matcher reports
 * success exactly for deep copies. Further properties of both variants
 * follow: symmetry, self-comparison, fail-fast reporting, how a length
 * mismatch is reported, and how maps are compared.
 */
module Properties {
  import opened Values
  import opened MatchResults
  import opened Verdicts
  import opened Passes

  /** `b` is a deep copy of `a`: the two trees have the same classes throughout,
      value-typed leaves are `equals`, constants of enum classes are the same
      constant, and every other object reached through a field, an element or a
      map value is not the same instance as the object at the same position on
      the other side (an object shared between different positions goes unseen,
      see `SharingAcrossPositionsGoesUnseen`). Arrays and collections have equal length, primitive arrays
      (of a kind the matcher supports) equal contents, and every key of either map
      is non-null and yields copies from both maps. Map keys are looked up, never
      walked: a key compared by identity must be the very same object in both maps. */
  predicate IsDeepCopy(vt: set<TypeName>, a: Value, b: Value)
    requires BuiltinValueTypes <= vt
    decreases Size(a) + Size(b)
  {
    if a.Null? || b.Null? then a.Null? && b.Null?
    else if ClassOf(a) != ClassOf(b) then false
    else if IsValueType(vt, a) then Equals(a, b)
    else if a.EnumConst? then SameInstance(a, b)
    else if SameInstance(a, b) || !a.Node? || !b.Node? then false
    else
      assert ShapeSize(a.shape) < Size(a) && ShapeSize(b.shape) < Size(b);
      match a.shape
      case Plain =>
        |a.fields| == |b.fields| &&
        forall k :: 0 <= k < |a.fields| ==> IsDeepCopy(vt, a.fields[k].value, b.fields[k].value)
      case PrimArray(kind, items) =>
        b.shape.PrimArray? && Supported(kind) && items == b.shape.items
      case ObjArray(es) =>
        b.shape.ObjArray? && ElementsAreCopies(vt, es, b.shape.elems)
      case Coll(_, ms) =>
        b.shape.Coll? && ElementsAreCopies(vt, ms, b.shape.members)
      case MapS(ks, vs) =>
        b.shape.MapS? &&
        (forall k :: 0 <= k < |ks| ==>
           !ks[k].NullKey? && IsDeepCopy(vt, Get(ks, vs, ks[k]), Get(b.shape.keys, b.shape.values, ks[k]))) &&
        (forall k :: 0 <= k < |b.shape.keys| ==>
           !b.shape.keys[k].NullKey? &&
           IsDeepCopy(vt, Get(ks, vs, b.shape.keys[k]), Get(b.shape.keys, b.shape.values, b.shape.keys[k])))
  }

  predicate ElementsAreCopies(vt: set<TypeName>, s1: seq<Value>, s2: seq<Value>)
    requires BuiltinValueTypes <= vt
    decreases ElemsSize(s1) + ElemsSize(s2) + 1
  {
    |s1| == |s2| && forall j :: 0 <= j < |s1| ==> IsDeepCopy(vt, s1[j], s2[j])
  }

  /** The identities of the objects in `v` that are compared by identity: `v`
      itself and everything reached through its fields, elements and map values,
      leaving out nulls, values, enum constants and map keys. */
  function Reached(vt: set<TypeName>, v: Value): (r: set<nat>)
    requires BuiltinValueTypes <= vt
    ensures v.Node? && !IsValueType(vt, v) ==> v.id in r
    ensures v.Null? || v.Scalar? || v.EnumConst? ==> r == {}
    decreases Size(v)
  {
    if !v.Node? || IsValueType(vt, v) then {}
    else
      assert FieldsSize(v.fields) < Size(v) && ShapeSize(v.shape) < Size(v);
      {v.id} +
      match v.shape
      case Plain => set k, x | 0 <= k < |v.fields| && x in Reached(vt, v.fields[k].value) :: x
      case PrimArray(_, _) => {}
      case ObjArray(es) => set k, x | 0 <= k < |es| && x in Reached(vt, es[k]) :: x
      case MapS(_, vs) => set k, x | 0 <= k < |vs| && x in Reached(vt, vs[k]) :: x
      case Coll(_, ms) => set k, x | 0 <= k < |ms| && x in Reached(vt, ms[k]) :: x
  }

  // ---------------------------------------------------------------- the main theorem

  /** The Current matcher returns a successful result exactly for deep copies. */
  lemma {:induction false} SameIffDeepCopy(vt: set<TypeName>, a: Value, b: Value)
    requires BuiltinValueTypes <= vt
    ensures Judge(Current, vt, a, b).Same? <==> IsDeepCopy(vt, a, b)
    decreases Size(a) + Size(b), 1
  {
    JudgeCases(Current, vt, a, b);
    if a.Null? || b.Null? || ClassOf(a) != ClassOf(b) || IsValueType(vt, a) {
      return;
    }
    JudgeDescends(Current, vt, a, b);
    if a.EnumConst? || SameInstance(a, b) {
      return;
    }
    if a.Scalar? {
      BoxedValuesAreValueTypes(vt, a);
      return;
    }
    assert ShapeSize(a.shape) < Size(a) && ShapeSize(b.shape) < Size(b);
    match a.shape
    case Plain =>
      FieldsPassSame(Current, vt, a.fields, b.fields, 0);
      forall k | 0 <= k < |a.fields|
        ensures Judge(Current, vt, a.fields[k].value, b.fields[k].value).Same? <==> IsDeepCopy(vt, a.fields[k].value, b.fields[k].value)
      {
        SameIffDeepCopy(vt, a.fields[k].value, b.fields[k].value);
      }
    case PrimArray(kind, items) =>
      if Supported(kind) {
        BoxedSame(Current, vt, items, b.shape.items);
      }
    case ObjArray(es) =>
      PositionalSame(Current, vt, Brackets, es, b.shape.elems);
      ElementsSameIffCopies(vt, es, b.shape.elems);
    case Coll(_, ms) =>
      PositionalSame(Current, vt, AtCalls, ms, b.shape.members);
      ElementsSameIffCopies(vt, ms, b.shape.members);
    case MapS(ks, vs) =>
      MapSame(Current, vt, ks, vs, b.shape.keys, b.shape.values);
      MapValuesSameIffCopies(vt, ks, vs, b.shape.keys, b.shape.values, ks);
      MapValuesSameIffCopies(vt, ks, vs, b.shape.keys, b.shape.values, b.shape.keys);
  }

  lemma {:induction false} ElementsSameIffCopies(vt: set<TypeName>, s1: seq<Value>, s2: seq<Value>)
    requires BuiltinValueTypes <= vt
    ensures (|s1| == |s2| && forall j :: 0 <= j < |s1| ==> Judge(Current, vt, s1[j], s2[j]).Same?)
        <==> ElementsAreCopies(vt, s1, s2)
    decreases ElemsSize(s1) + ElemsSize(s2) + 1, 0
  {
    if |s1| == |s2| {
      forall j | 0 <= j < |s1|
        ensures Judge(Current, vt, s1[j], s2[j]).Same? <==> IsDeepCopy(vt, s1[j], s2[j])
      {
        SameIffDeepCopy(vt, s1[j], s2[j]);
      }
    }
  }

  lemma {:induction false} MapValuesSameIffCopies(vt: set<TypeName>, keys1: seq<Key>, values1: seq<Value>,
                                                  keys2: seq<Key>, values2: seq<Value>, iterated: seq<Key>)
    requires BuiltinValueTypes <= vt
    ensures forall j :: 0 <= j < |iterated| ==>
      (Judge(Current, vt, Get(keys1, values1, iterated[j]), Get(keys2, values2, iterated[j])).Same?
       <==> IsDeepCopy(vt, Get(keys1, values1, iterated[j]), Get(keys2, values2, iterated[j])))
    decreases ElemsSize(values1) + ElemsSize(values2) + 1, 0
  {
    forall j | 0 <= j < |iterated|
      ensures Judge(Current, vt, Get(keys1, values1, iterated[j]), Get(keys2, values2, iterated[j])).Same?
          <==> IsDeepCopy(vt, Get(keys1, values1, iterated[j]), Get(keys2, values2, iterated[j]))
    {
      SameIffDeepCopy(vt, Get(keys1, values1, iterated[j]), Get(keys2, values2, iterated[j]));
    }
  }

  /** Identity is checked only between the objects at one position on the two
      sides: `b` holding, in its field `q`, the very object `a` holds in its
      field `p` still passes as a deep copy. */
  lemma SharingAcrossPositionsGoesUnseen(vt: set<TypeName>, a: Value, b: Value, x: Value, x2: Value, w: Value)
    requires BuiltinValueTypes <= vt
    requires x.Node? && x2.Node? && w.Node? && x.shape == x2.shape == w.shape == Plain
    requires x.fields == x2.fields == w.fields == [] && ClassOf(x) == ClassOf(x2) == ClassOf(w) && !IsValueType(vt, x)
    requires x.id != x2.id && x.id != w.id
    requires a.Node? && b.Node? && a.shape == b.shape == Plain && a.id != b.id && ClassOf(a) == ClassOf(b) && !IsValueType(vt, a)
    requires a.fields == [Field("p", x), Field("q", w)] && b.fields == [Field("p", x2), Field("q", x)]
    ensures IsDeepCopy(vt, a, b) && Judge(Current, vt, a, b).Same?
    ensures x.id in Reached(vt, a) && x.id in Reached(vt, b)
  {
    assert IsDeepCopy(vt, x, x2) && IsDeepCopy(vt, w, x);
    assert IsDeepCopy(vt, a.fields[0].value, b.fields[0].value) && IsDeepCopy(vt, a.fields[1].value, b.fields[1].value);
    SameIffDeepCopy(vt, a, b);
    assert x.id in Reached(vt, a.fields[0].value) && x.id in Reached(vt, b.fields[1].value);
  }

  // ---------------------------------------------------------------- symmetry

  /** Being a deep copy is symmetric. */
  lemma {:induction false} DeepCopySymmetric(vt: set<TypeName>, a: Value, b: Value)
    requires BuiltinValueTypes <= vt
    ensures IsDeepCopy(vt, a, b) <==> IsDeepCopy(vt, b, a)
    decreases Size(a) + Size(b)
  {
    if a.Null? || b.Null? || ClassOf(a) != ClassOf(b) {
      return;
    }
    EqualsIsAnEquivalence(a, b, a);
    if IsValueType(vt, a) || a.EnumConst? || SameInstance(a, b) || !a.Node? || !b.Node? {
      return;
    }
    assert ShapeSize(a.shape) < Size(a) && ShapeSize(b.shape) < Size(b);
    match a.shape
    case Plain =>
      forall k | 0 <= k < |a.fields| && k < |b.fields|
        ensures IsDeepCopy(vt, a.fields[k].value, b.fields[k].value) <==> IsDeepCopy(vt, b.fields[k].value, a.fields[k].value)
      {
        DeepCopySymmetric(vt, a.fields[k].value, b.fields[k].value);
      }
    case PrimArray(_, _) =>
    case ObjArray(es) =>
      ElementsSymmetric(vt, es, b.shape.elems);
    case Coll(_, ms) =>
      ElementsSymmetric(vt, ms, b.shape.members);
    case MapS(ks, vs) =>
      MapValuesSymmetric(vt, ks, vs, b.shape.keys, b.shape.values, ks);
      MapValuesSymmetric(vt, ks, vs, b.shape.keys, b.shape.values, b.shape.keys);
  }

  lemma {:induction false} ElementsSymmetric(vt: set<TypeName>, s1: seq<Value>, s2: seq<Value>)
    requires BuiltinValueTypes <= vt
    ensures ElementsAreCopies(vt, s1, s2) <==> ElementsAreCopies(vt, s2, s1)
    decreases ElemsSize(s1) + ElemsSize(s2) + 1, 0
  {
    if |s1| == |s2| {
      forall j | 0 <= j < |s1|
        ensures IsDeepCopy(vt, s1[j], s2[j]) <==> IsDeepCopy(vt, s2[j], s1[j])
      {
        DeepCopySymmetric(vt, s1[j], s2[j]);
      }
    }
  }

  lemma {:induction false} MapValuesSymmetric(vt: set<TypeName>, keys1: seq<Key>, values1: seq<Value>,
                                              keys2: seq<Key>, values2: seq<Value>, iterated: seq<Key>)
    requires BuiltinValueTypes <= vt
    ensures forall j :: 0 <= j < |iterated| ==>
      (IsDeepCopy(vt, Get(keys1, values1, iterated[j]), Get(keys2, values2, iterated[j]))
       <==> IsDeepCopy(vt, Get(keys2, values2, iterated[j]), Get(keys1, values1, iterated[j])))
    decreases ElemsSize(values1) + ElemsSize(values2) + 1, 0
  {
    forall j | 0 <= j < |iterated|
      ensures IsDeepCopy(vt, Get(keys1, values1, iterated[j]), Get(keys2, values2, iterated[j]))
          <==> IsDeepCopy(vt, Get(keys2, values2, iterated[j]), Get(keys1, values1, iterated[j]))
    {
      DeepCopySymmetric(vt, Get(keys1, values1, iterated[j]), Get(keys2, values2, iterated[j]));
    }
  }

  /** Whether `matches` succeeds does not depend on the order of its arguments
      (the failure message does). */
  lemma SuccessIsSymmetric(vt: set<TypeName>, a: Value, b: Value)
    requires BuiltinValueTypes <= vt
    ensures Judge(Current, vt, a, b).Same? <==> Judge(Current, vt, b, a).Same?
  {
    SameIffDeepCopy(vt, a, b);
    SameIffDeepCopy(vt, b, a);
    DeepCopySymmetric(vt, a, b);
  }
}
