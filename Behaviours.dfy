/**
 * Individual behaviours of the matcher, each stated for the verdict of one
 * `matches` call: self-comparison, value types, enum constants, fail-fast
 * field order, how a length mismatch is reported (`<absent>` for object
 * arrays and collections, null for primitive arrays), unsupported primitive
 * component types, maps, and where the Early variant differs.
 */
module Behaviours {
  import opened Values
  import opened MatchResults
  import opened Verdicts
  import opened Passes

  /** Two distinct objects of one class that is not a value type: the case in
      which `matches` descends into the objects. */
  predicate DistinctOfOneClass(vt: set<TypeName>, a: Value, b: Value) {
    !a.Null? && !b.Null? && ClassOf(a) == ClassOf(b) && !IsValueType(vt, a) && !SameInstance(a, b)
  }

  // ---------------------------------------------------------------- identity

  /** Any object other than a value or (in the Current variant) an enum constant
      fails against itself, at the path where it was met. */
  lemma NoObjectIsACopyOfItself(variant: Variant, vt: set<TypeName>, a: Value)
    requires BuiltinValueTypes <= vt && !a.Null? && !IsValueType(vt, a) && !(variant == Current && a.EnumConst?)
    ensures Judge(variant, vt, a, a) == Diverges([], SameInstanceReason)
    ensures Report(["root"], Judge(variant, vt, a, a))
         == Returned(Failure("root: " + "The same instance cannot be a deep copy of itself"))
  {
    if a.Scalar? {
      BoxedValuesAreValueTypes(vt, a);
    }
    JudgeCases(variant, vt, a, a);
    JudgeDescends(variant, vt, a, a);
    assert ["root"] + [] == ["root"];
    assert JoinPath(["root"]) == "root" && "root" + ": " == "root: ";
  }

  /** Value types compare with `equals`, whether or not they are the same instance. */
  lemma ValueTypesCompareByEquals(variant: Variant, vt: set<TypeName>, a: Value, b: Value)
    requires BuiltinValueTypes <= vt && !a.Null? && !b.Null? && ClassOf(a) == ClassOf(b) && IsValueType(vt, a)
    ensures Judge(variant, vt, a, b).Same? <==> Equals(a, b)
    ensures Judge(variant, vt, a, a) == Same
  {
    JudgeCases(variant, vt, a, b);
    JudgeCases(variant, vt, a, a);
    EqualsIsAnEquivalence(a, b, a);
  }

  /** As written in the Early variant, which has no enum branch: two different
      constants of a field-less enum pass field by field, and a constant fails
      against itself. */
  lemma EarlyEnumsCompareByFields(vt: set<TypeName>, ty: TypeName, name1: string, name2: string)
    requires BuiltinValueTypes <= vt && ty !in vt && name1 != name2
    ensures Judge(Early, vt, EnumConst(ty, name1, []), EnumConst(ty, name2, [])) == Same
    ensures Judge(Early, vt, EnumConst(ty, name1, []), EnumConst(ty, name1, [])) == Diverges([], SameInstanceReason)
  {
    var e1, e2 := EnumConst(ty, name1, []), EnumConst(ty, name2, []);
    JudgeCases(Early, vt, e1, e2);
    JudgeDescends(Early, vt, e1, e2);
    JudgeDescends(Early, vt, e1, e1);
  }

  /** The Current variant compares two constants of one enum class by identity:
      a constant matches itself only, and two different constants fail with their names. */
  lemma CurrentEnumsCompareByIdentity(vt: set<TypeName>, a: Value, b: Value)
    requires BuiltinValueTypes <= vt && a.EnumConst? && b.EnumConst? && ClassOf(a) == ClassOf(b) && !IsValueType(vt, a)
    ensures Judge(Current, vt, a, b).Same? <==> a.name == b.name
    ensures a.name != b.name ==> Judge(Current, vt, a, b) == Diverges([], Unequal(a.name, b.name))
  {
    JudgeDescends(Current, vt, a, b);
  }

  // ---------------------------------------------------------------- fields

  /** Fields are visited in declared order and the first one that fails decides the
      result, under its name; later fields are not looked at. */
  lemma FirstFailingFieldDecides(variant: Variant, vt: set<TypeName>, a: Value, b: Value, stop: nat)
    requires BuiltinValueTypes <= vt && DistinctOfOneClass(vt, a, b) && a.Node? && a.shape.Plain?
    requires |a.fields| == |b.fields| && stop < |a.fields|
    requires forall j :: 0 <= j < stop ==> Judge(variant, vt, a.fields[j].value, b.fields[j].value).Same?
    requires !Judge(variant, vt, a.fields[stop].value, b.fields[stop].value).Same?
    ensures Judge(variant, vt, a, b) == Under(a.fields[stop].name, Judge(variant, vt, a.fields[stop].value, b.fields[stop].value))
  {
    JudgeDescends(variant, vt, a, b);
    FieldsPassFirstFailure(variant, vt, a.fields, b.fields, 0, stop);
  }

  // ---------------------------------------------------------------- lengths

  /** With the `<absent>` sentinel, the first position one side lacks fails against
      `<absent>`, on whichever side is shorter. */
  lemma MissingPositionIsAbsent(variant: Variant, vt: set<TypeName>, style: Style, s1: seq<Value>, s2: seq<Value>)
    requires BuiltinValueTypes <= vt
    requires forall j :: 0 <= j < |s1| && j < |s2| ==> Judge(variant, vt, s1[j], s2[j]).Same?
    ensures |s1| > |s2| ==>
      PositionalVerdict(variant, vt, style, s1, s2) == Diverges([Segment(style, |s2|)], Unequal(Render(s1[|s2|]), "<absent>"))
    ensures |s1| < |s2| ==>
      PositionalVerdict(variant, vt, style, s1, s2) == Diverges([Segment(style, |s1|)], Unequal("<absent>", Render(s2[|s1|])))
  {
    if |s1| > |s2| {
      AbsentPassReachesEnd(variant, vt, style, s1, s2, false, 0);
    } else if |s1| < |s2| {
      AbsentPassSame(variant, vt, style, s1, s2, false, 0);
      AbsentPassReachesEnd(variant, vt, style, s2, s1, true, 0);
    }
  }

  /** Primitive arrays pad the shorter side with null: an array that extends the
      other fails at the first extra position against null. */
  lemma PrimitiveArraysPadWithNull(variant: Variant, vt: set<TypeName>, kind: PrimKind, items1: seq<Payload>, items2: seq<Payload>)
    requires BuiltinValueTypes <= vt && Supported(kind)
    ensures |items1| > |items2| && items2 == items1[..|items2|] ==>
      PrimitiveVerdict(variant, vt, kind, items1, items2)
        == Diverges([Segment(Brackets, |items2|)], Unequal(RenderPayload(items1[|items2|]), "null"))
    ensures |items1| < |items2| && items1 == items2[..|items1|] ==>
      PrimitiveVerdict(variant, vt, kind, items1, items2)
        == Diverges([Segment(Brackets, |items1|)], Unequal("null", RenderPayload(items2[|items1|])))
  {
    var b1, b2 := Boxed(items1), Boxed(items2);
    if |items1| > |items2| && items2 == items1[..|items2|] {
      forall j | 0 <= j < |items2|
        ensures Judge(variant, vt, b1[j], PadAt(b2, j)).Same?
      {
        ScalarSame(variant, vt, items1[j], PadAt(b2, j));
      }
      PaddedPassReaches(variant, vt, Brackets, b1, b2, false, 0, |items2|);
      JudgeCases(variant, vt, b1[|items2|], Null);
    } else if |items1| < |items2| && items1 == items2[..|items1|] {
      forall j | 0 <= j < |items1|
        ensures Judge(variant, vt, b1[j], PadAt(b2, j)).Same? && Judge(variant, vt, PadAt(b1, j), b2[j]).Same?
      {
        ScalarSame(variant, vt, items1[j], PadAt(b2, j));
        ScalarSame(variant, vt, items2[j], PadAt(b1, j));
      }
      PaddedPassSame(variant, vt, Brackets, b1, b2, false, 0);
      PaddedPassReaches(variant, vt, Brackets, b2, b1, true, 0, |items1|);
      JudgeCases(variant, vt, Null, b2[|items1|]);
    }
  }

  /** Equal-length primitive arrays fail at the first position whose elements differ. */
  lemma PrimitiveArraysFailAtFirstDifference(variant: Variant, vt: set<TypeName>, kind: PrimKind,
                                             items1: seq<Payload>, items2: seq<Payload>, stop: nat)
    requires BuiltinValueTypes <= vt && Supported(kind) && |items1| == |items2| && stop < |items1|
    requires items1[..stop] == items2[..stop] && items1[stop] != items2[stop]
    requires BoxName(items1[stop]) == BoxName(items2[stop])
    ensures PrimitiveVerdict(variant, vt, kind, items1, items2)
         == Diverges([Segment(Brackets, stop)], Unequal(RenderPayload(items1[stop]), RenderPayload(items2[stop])))
  {
    var b1, b2 := Boxed(items1), Boxed(items2);
    forall j | 0 <= j < stop
      ensures Judge(variant, vt, b1[j], PadAt(b2, j)).Same?
    {
      assert items1[j] == items1[..stop][j];
      ScalarSame(variant, vt, items1[j], PadAt(b2, j));
    }
    PaddedPassReaches(variant, vt, Brackets, b1, b2, false, 0, stop);
    BoxedValuesAreValueTypes(vt, b1[stop]);
    JudgeCases(variant, vt, b1[stop], b2[stop]);
  }

  /** Short and char arrays have no matcher: comparing two of them throws instead of
      returning a result. */
  lemma UnsupportedArraysThrow(variant: Variant, vt: set<TypeName>, a: Value, b: Value)
    requires BuiltinValueTypes <= vt && DistinctOfOneClass(vt, a, b) && a.Node? && a.shape.PrimArray?
    requires a.shape.kind == ShortKind || a.shape.kind == CharKind
    ensures Judge(variant, vt, a, b) == Throws([], Unsupported("I have no idea what " + KindName(a.shape.kind) + " is."))
    ensures Report(["root"], Judge(variant, vt, a, b)).Threw?
  {
    JudgeDescends(variant, vt, a, b);
  }

  // ---------------------------------------------------------------- maps

  /** Once the entries before it have matched, an entry of the first map whose key
      the second map lacks compares its value with null, under `get(key)`. */
  lemma MissingKeyComparesWithNull(variant: Variant, vt: set<TypeName>, keys1: seq<Key>, values1: seq<Value>,
                                   keys2: seq<Key>, values2: seq<Value>, k: nat)
    requires BuiltinValueTypes <= vt && |keys1| == |values1| && DistinctKeys(keys1) && k < |keys1|
    requires !keys1[k].NullKey? && !values1[k].Null?
    requires forall j :: 0 <= j < |keys2| ==> !KeyEquals(keys2[j], keys1[k])
    requires forall j :: 0 <= j < k ==>
      !keys1[j].NullKey? && Judge(variant, vt, Get(keys1, values1, keys1[j]), Get(keys2, values2, keys1[j])).Same?
    ensures MapVerdict(variant, vt, keys1, values1, keys2, values2)
         == Diverges([KeySegment(keys1[k])], Unequal(Render(values1[k]), "null"))
  {
    MapPassReaches(variant, vt, keys1, keys1, values1, keys2, values2, 0, k);
    GetFindsFirst(keys1, values1, keys1[k], k);
    GetMissing(keys2, values2, keys1[k]);
    JudgeCases(variant, vt, values1[k], Null);
  }

  /** Once every entry of the first map and the entries of the second before it have
      matched, an entry whose key only the second map has compares null with its
      value, under `get(key)`. */
  lemma ExtraKeyComparesWithNull(variant: Variant, vt: set<TypeName>, keys1: seq<Key>, values1: seq<Value>,
                                 keys2: seq<Key>, values2: seq<Value>, k: nat)
    requires BuiltinValueTypes <= vt && |keys2| == |values2| && DistinctKeys(keys2) && k < |keys2|
    requires !keys2[k].NullKey? && !values2[k].Null?
    requires forall j :: 0 <= j < |keys1| ==> !KeyEquals(keys1[j], keys2[k])
    requires forall j :: 0 <= j < |keys1| ==>
      !keys1[j].NullKey? && Judge(variant, vt, Get(keys1, values1, keys1[j]), Get(keys2, values2, keys1[j])).Same?
    requires forall j :: 0 <= j < k ==>
      !keys2[j].NullKey? && Judge(variant, vt, Get(keys1, values1, keys2[j]), Get(keys2, values2, keys2[j])).Same?
    ensures MapVerdict(variant, vt, keys1, values1, keys2, values2)
         == Diverges([KeySegment(keys2[k])], Unequal("null", Render(values2[k])))
  {
    MapPassSame(variant, vt, keys1, keys1, values1, keys2, values2, 0);
    MapPassReaches(variant, vt, keys2, keys1, values1, keys2, values2, 0, k);
    GetFindsFirst(keys2, values2, keys2[k], k);
    GetMissing(keys1, values1, keys2[k]);
    JudgeCases(variant, vt, Null, values2[k]);
  }

  /** `get` cannot tell a key mapped to null from a missing key, so such an entry
      matches an empty map, in either order. */
  lemma NullValuedEntryMatchesMissingKey(variant: Variant, vt: set<TypeName>, key: Key)
    requires BuiltinValueTypes <= vt && !key.NullKey?
    ensures MapVerdict(variant, vt, [key], [Null], [], []) == Same
    ensures MapVerdict(variant, vt, [], [], [key], [Null]) == Same
  {
    GetFindsFirst([key], [Null], key, 0);
    GetMissing([], [], key);
    JudgeCases(variant, vt, Null, Null);
  }

  /** A null key of the first map throws (from `key.toString()`) once the entries
      before it have matched. */
  lemma NullKeyThrows(variant: Variant, vt: set<TypeName>, keys1: seq<Key>, values1: seq<Value>,
                      keys2: seq<Key>, values2: seq<Value>, k: nat)
    requires BuiltinValueTypes <= vt && k < |keys1| && keys1[k].NullKey?
    requires forall j :: 0 <= j < k ==>
      !keys1[j].NullKey? && Judge(variant, vt, Get(keys1, values1, keys1[j]), Get(keys2, values2, keys1[j])).Same?
    ensures MapVerdict(variant, vt, keys1, values1, keys2, values2) == Throws([], NullPointer)
  {
    MapPassReaches(variant, vt, keys1, keys1, values1, keys2, values2, 0, k);
  }

  /** A null key of the second map throws once the first map and the entries of
      the second before it have matched. */
  lemma SecondMapNullKeyThrows(variant: Variant, vt: set<TypeName>, keys1: seq<Key>, values1: seq<Value>,
                               keys2: seq<Key>, values2: seq<Value>, k: nat)
    requires BuiltinValueTypes <= vt && k < |keys2| && keys2[k].NullKey?
    requires forall j :: 0 <= j < |keys1| ==>
      !keys1[j].NullKey? && Judge(variant, vt, Get(keys1, values1, keys1[j]), Get(keys2, values2, keys1[j])).Same?
    requires forall j :: 0 <= j < k ==>
      !keys2[j].NullKey? && Judge(variant, vt, Get(keys1, values1, keys2[j]), Get(keys2, values2, keys2[j])).Same?
    ensures MapVerdict(variant, vt, keys1, values1, keys2, values2) == Throws([], NullPointer)
  {
    MapPassSame(variant, vt, keys1, keys1, values1, keys2, values2, 0);
    MapPassReaches(variant, vt, keys2, keys1, values1, keys2, values2, 0, k);
  }

  // ---------------------------------------------------------------- the Early variant's null padding

  /** As written in the Early variant: an object array or list holding one null
      matches an empty one, because the missing position is padded with null. */
  lemma EarlyPaddingAcceptsMissingNull(vt: set<TypeName>, a: Value, b: Value)
    requires BuiltinValueTypes <= vt && DistinctOfOneClass(vt, a, b) && a.Node? && b.Node?
    requires (a.shape == ObjArray([Null]) && b.shape == ObjArray([])) ||
             (a.shape == Coll(true, [Null]) && b.shape == Coll(true, []))
    ensures Judge(Early, vt, a, b) == Same
  {
    JudgeDescends(Early, vt, a, b);
    JudgeCases(Early, vt, Null, Null);
  }

  /** The Current variant compares the missing position with `<absent>` and fails. */
  lemma CurrentRejectsMissingNull(vt: set<TypeName>, a: Value, b: Value)
    requires BuiltinValueTypes <= vt && DistinctOfOneClass(vt, a, b) && a.Node? && b.Node?
    requires (a.shape == ObjArray([Null]) && b.shape == ObjArray([])) ||
             (a.shape == Coll(true, [Null]) && b.shape == Coll(true, []))
    ensures a.shape.ObjArray? ==> Judge(Current, vt, a, b) == Diverges(["[0]"], Unequal("null", "<absent>"))
    ensures a.shape.Coll? ==> Judge(Current, vt, a, b) == Diverges(["at(0)"], Unequal("null", "<absent>"))
  {
    JudgeDescends(Current, vt, a, b);
    assert NatToString(0) == "0";
    assert Segment(Brackets, 0) == "[0]" && Segment(AtCalls, 0) == "at(0)";
    if a.shape.ObjArray? {
      MissingPositionIsAbsent(Current, vt, Brackets, [Null], []);
    } else {
      MissingPositionIsAbsent(Current, vt, AtCalls, [Null], []);
    }
  }
}
