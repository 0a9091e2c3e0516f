/**
 * What the loops of the matcher decide, stated without the loops: a pass
 * reports success exactly when every comparison it would make succeeds, and
 * when a prefix of comparisons succeeds the pass reports what the first later
 * position reports. These hold for both variants of the algorithm.
 */
module Passes {
  import opened Values
  import opened Verdicts

  /** The element a null-padding pass pairs with position `j`. */
  function PadAt(s: seq<Value>, j: nat): (v: Value)
    ensures j < |s| ==> v == s[j]
    ensures j >= |s| ==> v.Null?
  {
    if j < |s| then s[j] else Null
  }

  // ---------------------------------------------------------------- success of a whole pass

  lemma {:induction false} FieldsPassSame(variant: Variant, vt: set<TypeName>, fs1: seq<Field>, fs2: seq<Field>, k: nat)
    requires BuiltinValueTypes <= vt && |fs1| == |fs2| && k <= |fs1|
    ensures FieldsPass(variant, vt, fs1, fs2, k).Same? <==>
      forall j :: k <= j < |fs1| ==> Judge(variant, vt, fs1[j].value, fs2[j].value).Same?
    decreases |fs1| - k
  {
    if k < |fs1| {
      FieldsPassSame(variant, vt, fs1, fs2, k + 1);
    }
  }

  lemma {:induction false} AbsentPassSame(variant: Variant, vt: set<TypeName>, style: Style, primary: seq<Value>,
                                          secondary: seq<Value>, flipped: bool, k: nat)
    requires BuiltinValueTypes <= vt && k <= |primary|
    ensures AbsentPass(variant, vt, style, primary, secondary, flipped, k).Same? <==>
      (k == |primary| || |primary| <= |secondary|) &&
      forall j :: k <= j < |primary| && j < |secondary| ==>
        (if flipped then Judge(variant, vt, secondary[j], primary[j]) else Judge(variant, vt, primary[j], secondary[j])).Same?
    decreases |primary| - k
  {
    if k < |primary| && k < |secondary| {
      var x, y := if flipped then secondary[k] else primary[k], if flipped then primary[k] else secondary[k];
      AbsentPassStep(variant, vt, style, primary, secondary, flipped, k, x, y);
      AbsentPassSame(variant, vt, style, primary, secondary, flipped, k + 1);
      if !Judge(variant, vt, x, y).Same? {
        assert !AbsentPass(variant, vt, style, primary, secondary, flipped, k).Same?;
      }
    }
  }

  lemma {:induction false} PaddedPassSame(variant: Variant, vt: set<TypeName>, style: Style, primary: seq<Value>,
                                          secondary: seq<Value>, flipped: bool, k: nat)
    requires BuiltinValueTypes <= vt && k <= |primary|
    ensures PaddedPass(variant, vt, style, primary, secondary, flipped, k).Same? <==>
      forall j :: k <= j < |primary| ==>
        (if flipped then Judge(variant, vt, PadAt(secondary, j), primary[j])
         else Judge(variant, vt, primary[j], PadAt(secondary, j))).Same?
    decreases |primary| - k
  {
    if k < |primary| {
      PaddedPassSame(variant, vt, style, primary, secondary, flipped, k + 1);
    }
  }

  lemma {:induction false} MapPassSame(variant: Variant, vt: set<TypeName>, iterated: seq<Key>, keys1: seq<Key>,
                                       values1: seq<Value>, keys2: seq<Key>, values2: seq<Value>, k: nat)
    requires BuiltinValueTypes <= vt && k <= |iterated|
    ensures MapPass(variant, vt, iterated, keys1, values1, keys2, values2, k).Same? <==>
      forall j :: k <= j < |iterated| ==>
        !iterated[j].NullKey? && Judge(variant, vt, Get(keys1, values1, iterated[j]), Get(keys2, values2, iterated[j])).Same?
    decreases |iterated| - k
  {
    if k < |iterated| && !iterated[k].NullKey? {
      MapPassSame(variant, vt, iterated, keys1, values1, keys2, values2, k + 1);
    }
  }

  // ---------------------------------------------------------------- success of the two-pass verdicts

  /** Object arrays and collections (Current): equal lengths and every aligned pair matches. */
  lemma PositionalSame(variant: Variant, vt: set<TypeName>, style: Style, s1: seq<Value>, s2: seq<Value>)
    requires BuiltinValueTypes <= vt
    ensures PositionalVerdict(variant, vt, style, s1, s2).Same? <==>
      |s1| == |s2| && forall j :: 0 <= j < |s1| ==> Judge(variant, vt, s1[j], s2[j]).Same?
  {
    AbsentPassSame(variant, vt, style, s1, s2, false, 0);
    AbsentPassSame(variant, vt, style, s2, s1, true, 0);
  }

  /** Null padding: every position of either side matches its partner or null. */
  lemma PaddedSame(variant: Variant, vt: set<TypeName>, style: Style, s1: seq<Value>, s2: seq<Value>)
    requires BuiltinValueTypes <= vt
    ensures PaddedVerdict(variant, vt, style, s1, s2).Same? <==>
      (forall j :: 0 <= j < |s1| ==> Judge(variant, vt, s1[j], PadAt(s2, j)).Same?) &&
      (forall j :: 0 <= j < |s2| ==> Judge(variant, vt, PadAt(s1, j), s2[j]).Same?)
  {
    PaddedPassSame(variant, vt, style, s1, s2, false, 0);
    PaddedPassSame(variant, vt, style, s2, s1, true, 0);
  }

  /** Maps: no null key on either side, and every key of either map yields matching values from both. */
  lemma MapSame(variant: Variant, vt: set<TypeName>, keys1: seq<Key>, values1: seq<Value>, keys2: seq<Key>, values2: seq<Value>)
    requires BuiltinValueTypes <= vt
    ensures MapVerdict(variant, vt, keys1, values1, keys2, values2).Same? <==>
      (forall j :: 0 <= j < |keys1| ==>
         !keys1[j].NullKey? && Judge(variant, vt, Get(keys1, values1, keys1[j]), Get(keys2, values2, keys1[j])).Same?) &&
      (forall j :: 0 <= j < |keys2| ==>
         !keys2[j].NullKey? && Judge(variant, vt, Get(keys1, values1, keys2[j]), Get(keys2, values2, keys2[j])).Same?)
  {
    MapPassSame(variant, vt, keys1, keys1, values1, keys2, values2, 0);
    MapPassSame(variant, vt, keys2, keys1, values1, keys2, values2, 0);
  }

  /** A boxed element matches exactly an equal boxed element. */
  lemma ScalarSame(variant: Variant, vt: set<TypeName>, p: Payload, y: Value)
    requires BuiltinValueTypes <= vt
    ensures Judge(variant, vt, Scalar(p), y).Same? <==> y == Scalar(p)
    ensures Judge(variant, vt, y, Scalar(p)).Same? <==> y == Scalar(p)
  {
    JudgeCases(variant, vt, Scalar(p), y);
    JudgeCases(variant, vt, y, Scalar(p));
    BoxedValuesAreValueTypes(vt, Scalar(p));
    if y.Scalar? {
      BoxedValuesAreValueTypes(vt, y);
    }
  }

  /** Primitive arrays of a supported kind match exactly when their contents are equal. */
  lemma BoxedSame(variant: Variant, vt: set<TypeName>, items1: seq<Payload>, items2: seq<Payload>)
    requires BuiltinValueTypes <= vt
    ensures PaddedVerdict(variant, vt, Brackets, Boxed(items1), Boxed(items2)).Same? <==> items1 == items2
  {
    var b1, b2 := Boxed(items1), Boxed(items2);
    PaddedSame(variant, vt, Brackets, b1, b2);
    forall j | 0 <= j < |b1|
      ensures Judge(variant, vt, b1[j], PadAt(b2, j)).Same? <==> j < |items2| && items1[j] == items2[j]
    {
      ScalarSame(variant, vt, items1[j], PadAt(b2, j));
    }
    forall j | 0 <= j < |b2|
      ensures Judge(variant, vt, PadAt(b1, j), b2[j]).Same? <==> j < |items1| && items1[j] == items2[j]
    {
      ScalarSame(variant, vt, items2[j], PadAt(b1, j));
    }
    if |items1| < |items2| {
      assert !Judge(variant, vt, PadAt(b1, |items1|), b2[|items1|]).Same?;
    } else if |items1| > |items2| {
      assert !Judge(variant, vt, b1[|items2|], PadAt(b2, |items2|)).Same?;
    } else if items1 != items2 {
      var j :| 0 <= j < |items1| && items1[j] != items2[j];
      assert !Judge(variant, vt, b1[j], PadAt(b2, j)).Same?;
    }
  }

  // ---------------------------------------------------------------- where a pass stops

  /** The first field that does not match decides the outcome, under its name. */
  lemma {:induction false} FieldsPassFirstFailure(variant: Variant, vt: set<TypeName>, fs1: seq<Field>, fs2: seq<Field>,
                                                  k: nat, stop: nat)
    requires BuiltinValueTypes <= vt && |fs1| == |fs2| && k <= stop < |fs1|
    requires forall j :: k <= j < stop ==> Judge(variant, vt, fs1[j].value, fs2[j].value).Same?
    requires !Judge(variant, vt, fs1[stop].value, fs2[stop].value).Same?
    ensures FieldsPass(variant, vt, fs1, fs2, k) == Under(fs1[stop].name, Judge(variant, vt, fs1[stop].value, fs2[stop].value))
    decreases stop - k
  {
    if k < stop {
      FieldsPassFirstFailure(variant, vt, fs1, fs2, k + 1, stop);
    }
  }

  /** A pass with the `<absent>` sentinel whose aligned pairs all match reaches the first
      missing position. */
  lemma {:induction false} AbsentPassReachesEnd(variant: Variant, vt: set<TypeName>, style: Style, primary: seq<Value>,
                                                secondary: seq<Value>, flipped: bool, k: nat)
    requires BuiltinValueTypes <= vt && k <= |secondary| < |primary|
    requires forall j :: k <= j < |secondary| ==>
      (if flipped then Judge(variant, vt, secondary[j], primary[j]) else Judge(variant, vt, primary[j], secondary[j])).Same?
    ensures AbsentPass(variant, vt, style, primary, secondary, flipped, k)
         == AbsentPass(variant, vt, style, primary, secondary, flipped, |secondary|)
    decreases |secondary| - k
  {
    if k < |secondary| {
      AbsentPassReachesEnd(variant, vt, style, primary, secondary, flipped, k + 1);
    }
  }

  /** A null-padding pass whose first positions all match reaches position `stop`. */
  lemma {:induction false} PaddedPassReaches(variant: Variant, vt: set<TypeName>, style: Style, primary: seq<Value>,
                                             secondary: seq<Value>, flipped: bool, k: nat, stop: nat)
    requires BuiltinValueTypes <= vt && k <= stop <= |primary|
    requires forall j :: k <= j < stop ==>
      (if flipped then Judge(variant, vt, PadAt(secondary, j), primary[j])
       else Judge(variant, vt, primary[j], PadAt(secondary, j))).Same?
    ensures PaddedPass(variant, vt, style, primary, secondary, flipped, k)
         == PaddedPass(variant, vt, style, primary, secondary, flipped, stop)
    decreases stop - k
  {
    if k < stop {
      PaddedPassReaches(variant, vt, style, primary, secondary, flipped, k + 1, stop);
    }
  }

  /** An entry pass whose first entries all have non-null keys and matching values
      reaches entry `stop`. */
  lemma {:induction false} MapPassReaches(variant: Variant, vt: set<TypeName>, iterated: seq<Key>, keys1: seq<Key>,
                                          values1: seq<Value>, keys2: seq<Key>, values2: seq<Value>, k: nat, stop: nat)
    requires BuiltinValueTypes <= vt && k <= stop <= |iterated|
    requires forall j :: k <= j < stop ==>
      !iterated[j].NullKey? && Judge(variant, vt, Get(keys1, values1, iterated[j]), Get(keys2, values2, iterated[j])).Same?
    ensures MapPass(variant, vt, iterated, keys1, values1, keys2, values2, k)
         == MapPass(variant, vt, iterated, keys1, values1, keys2, values2, stop)
    decreases stop - k
  {
    if k < stop {
      MapPassReaches(variant, vt, iterated, keys1, values1, keys2, values2, k + 1, stop);
    }
  }

  /** The half of "identical key sets" that `get` can see: when neither map holds a
      null value, two matching maps have the same keys. */
  lemma MapSameKeySets(variant: Variant, vt: set<TypeName>, keys1: seq<Key>, values1: seq<Value>,
                       keys2: seq<Key>, values2: seq<Value>)
    requires BuiltinValueTypes <= vt && |keys1| == |values1| && |keys2| == |values2|
    requires forall j :: 0 <= j < |values1| ==> !values1[j].Null?
    requires forall j :: 0 <= j < |values2| ==> !values2[j].Null?
    requires MapVerdict(variant, vt, keys1, values1, keys2, values2).Same?
    ensures forall j :: 0 <= j < |keys1| ==> exists i :: 0 <= i < |keys2| && KeyEquals(keys2[i], keys1[j])
    ensures forall j :: 0 <= j < |keys2| ==> exists i :: 0 <= i < |keys1| && KeyEquals(keys1[i], keys2[j])
  {
    MapSame(variant, vt, keys1, values1, keys2, values2);
    forall j | 0 <= j < |keys1|
      ensures exists i :: 0 <= i < |keys2| && KeyEquals(keys2[i], keys1[j])
    {
      if forall i :: 0 <= i < |keys2| ==> !KeyEquals(keys2[i], keys1[j]) {
        GetPresent(keys1, values1, keys1[j], j);
        GetMissing(keys2, values2, keys1[j]);
        assert false;
      }
    }
    forall j | 0 <= j < |keys2|
      ensures exists i :: 0 <= i < |keys1| && KeyEquals(keys1[i], keys2[j])
    {
      if forall i :: 0 <= i < |keys1| ==> !KeyEquals(keys1[i], keys2[j]) {
        GetPresent(keys2, values2, keys2[j], j);
        GetMissing(keys1, values1, keys2[j]);
        assert false;
      }
    }
  }
}
