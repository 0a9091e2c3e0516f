/**
 * The private DeepCopyAssertion inside ReflectiveDeepCopyTest.java: the older
 * copy of the matcher that the test methods call. It has no constructor
 * argument (only the seven built-in value types), no enum branch, pads a
 * missing array or list position with null, dispatches on List rather than
 * Collection, and walks fields inside `matches` itself.
 *
 * Every method is proved to return `Report(<stack on entry>, <verdict>)` and to
 * leave the stack at `<stack on entry> + StackAt(<verdict>)`, where the
 * verdict is the `Early` variant of `Verdicts.Judge` or of the pass it models.
 */
module EarlyMatcher {
  import opened Values
  import opened MatchResults
  import opened Verdicts

  class DeepCopyAssertion {
    const valueTypes: set<TypeName>
    var fieldPath: seq<string>

    predicate Valid()
      reads this
    {
      BuiltinValueTypes <= valueTypes && |fieldPath| >= 1
    }

    constructor ()
      ensures Valid()
      ensures valueTypes == BuiltinValueTypes
      ensures fieldPath == ["root"]
    {
      valueTypes := BuiltinValueTypes;
      fieldPath := ["root"];
    }

    method Matches(one: Value, two: Value) returns (r: Outcome)
      requires Valid()
      modifies this
      ensures r == Report(old(fieldPath), Judge(Early, valueTypes, one, two))
      ensures fieldPath == old(fieldPath) + StackAt(Judge(Early, valueTypes, one, two))
      decreases Size(one) + Size(two), 3, 0
    {
      assert fieldPath + [] == fieldPath;
      JudgeCases(Early, valueTypes, one, two);
      if one.Null? && two.Null? {
        return Returned(Success());
      }
      if one.Null? || two.Null? {
        var m := Fail(ReasonText(Unequal(Render(one), Render(two))));
        return Returned(m);
      }
      if ClassOf(one) != ClassOf(two) {
        var m := Fail(ReasonText(NotSameType(ClassName(one), ClassName(two))));
        return Returned(m);
      }
      if IsValueType(valueTypes, one) {
        var m := PerformValueTypeMatch(one, two);
        return Returned(m);
      }
      JudgeDescends(Early, valueTypes, one, two);
      if SameInstance(one, two) {
        var m := Fail(ReasonText(SameInstanceReason));
        return Returned(m);
      }
      if one.Node? {
        assert ShapeSize(one.shape) < Size(one) && ShapeSize(two.shape) < Size(two);
        if one.shape.PrimArray? || one.shape.ObjArray? {
          r := PerformArrayMatch(one.shape, two.shape);
          return;
        } else if one.shape.MapS? {
          r := PerformMapTypeMatch(one.shape.keys, one.shape.values, two.shape.keys, two.shape.values);
          return;
        } else if one.shape.Coll? && one.shape.isList {
          r := PerformListTypeMatch(one.shape.members, two.shape.members);
          return;
        }
      }
      // every other object, enum constants included, field by field
      r := MatchFields(one.fields, two.fields);
    }

    /** The field loop that `matches` runs inline, as a method of its own. */
    method MatchFields(fields1: seq<Field>, fields2: seq<Field>) returns (r: Outcome)
      requires Valid() && |fields1| == |fields2|
      modifies this
      ensures r == Report(old(fieldPath), FieldsVerdict(Early, valueTypes, fields1, fields2))
      ensures fieldPath == old(fieldPath) + StackAt(FieldsVerdict(Early, valueTypes, fields1, fields2))
      decreases FieldsSize(fields1) + FieldsSize(fields2) + 1, 1, 0
    {
      var i := 0;
      while i < |fields1|
        invariant 0 <= i <= |fields1|
        invariant fieldPath == old(fieldPath)
        invariant FieldsPass(Early, valueTypes, fields1, fields2, 0) == FieldsPass(Early, valueTypes, fields1, fields2, i)
      {
        fieldPath := fieldPath + [fields1[i].name];
        r := Matches(fields1[i].value, fields2[i].value);
        if !r.Returned? || !r.result.isDeepCopy {
          StopsUnder(old(fieldPath), fields1[i].name, Judge(Early, valueTypes, fields1[i].value, fields2[i].value), r);
          return;
        }
        Continues(old(fieldPath) + [fields1[i].name], Judge(Early, valueTypes, fields1[i].value, fields2[i].value), r);
        fieldPath := fieldPath[..|fieldPath| - 1];
        i := i + 1;
      }
      r := Returned(Success());
    }

    /** Primitive arrays by component type; object arrays in two null-padded passes. */
    method PerformArrayMatch(one: Shape, two: Shape) returns (r: Outcome)
      requires Valid() && (one.PrimArray? || one.ObjArray?) && KindOf(one) == KindOf(two)
      modifies this
      ensures one.PrimArray? ==>
        r == Report(old(fieldPath), PrimitiveVerdict(Early, valueTypes, one.kind, one.items, two.items)) &&
        fieldPath == old(fieldPath) + StackAt(PrimitiveVerdict(Early, valueTypes, one.kind, one.items, two.items))
      ensures one.ObjArray? ==>
        r == Report(old(fieldPath), PaddedVerdict(Early, valueTypes, Brackets, one.elems, two.elems)) &&
        fieldPath == old(fieldPath) + StackAt(PaddedVerdict(Early, valueTypes, Brackets, one.elems, two.elems))
      decreases ShapeSize(one) + ShapeSize(two) + 1, 2, 0
    {
      if one.PrimArray? {
        if Supported(one.kind) {
          r := RunPrimitiveArrayCheck(one.items, two.items);
          return;
        }
        return Threw(Unsupported("I have no idea what " + KindName(one.kind) + " is."));
      }
      var arrayOne, arrayTwo := one.elems, two.elems;
      r := PaddedLoop(Brackets, arrayOne, arrayTwo, false);
      ReportSucceedsIffSame(old(fieldPath), PaddedPass(Early, valueTypes, Brackets, arrayOne, arrayTwo, false, 0));
      if !r.Returned? || !r.result.isDeepCopy {
        return;
      }
      assert old(fieldPath) + [] == old(fieldPath);
      r := PaddedLoop(Brackets, arrayTwo, arrayOne, true);
    }

    /** The six `run*ArrayCheck` methods (long, int, byte, float, double, boolean) share
        one body: each element is boxed, and the shorter array is padded with null. */
    method RunPrimitiveArrayCheck(one: seq<Payload>, two: seq<Payload>) returns (r: Outcome)
      requires Valid()
      modifies this
      ensures r == Report(old(fieldPath), PaddedVerdict(Early, valueTypes, Brackets, Boxed(one), Boxed(two)))
      ensures fieldPath == old(fieldPath) + StackAt(PaddedVerdict(Early, valueTypes, Brackets, Boxed(one), Boxed(two)))
      decreases |one| + |two| + 1, 1, 0
    {
      BoxedSize(one);
      BoxedSize(two);
      var boxedOne, boxedTwo := Boxed(one), Boxed(two);
      r := PaddedLoop(Brackets, boxedOne, boxedTwo, false);
      ReportSucceedsIffSame(old(fieldPath), PaddedPass(Early, valueTypes, Brackets, boxedOne, boxedTwo, false, 0));
      if !r.Returned? || !r.result.isDeepCopy {
        return;
      }
      assert old(fieldPath) + [] == old(fieldPath);
      r := PaddedLoop(Brackets, boxedTwo, boxedOne, true);
    }

    /** Two passes over the lists, each with an iterator over the other list that
        yields null once it is exhausted. */
    method PerformListTypeMatch(one: seq<Value>, two: seq<Value>) returns (r: Outcome)
      requires Valid()
      modifies this
      ensures r == Report(old(fieldPath), PaddedVerdict(Early, valueTypes, AtCalls, one, two))
      ensures fieldPath == old(fieldPath) + StackAt(PaddedVerdict(Early, valueTypes, AtCalls, one, two))
      decreases ElemsSize(one) + ElemsSize(two) + 1, 1, 0
    {
      r := PaddedLoop(AtCalls, one, two, false);
      ReportSucceedsIffSame(old(fieldPath), PaddedPass(Early, valueTypes, AtCalls, one, two, false, 0));
      if !r.Returned? || !r.result.isDeepCopy {
        return;
      }
      assert old(fieldPath) + [] == old(fieldPath);
      r := PaddedLoop(AtCalls, two, one, true);
    }

    /** One of the two loops that every array and list comparison makes: over
        `primary` by position, pairing each element with the element of `secondary`
        at the same position, or with null once `secondary` has run out. In the
        second loop `primary` is the second operand (`flipped`). */
    method PaddedLoop(style: Style, primary: seq<Value>, secondary: seq<Value>, flipped: bool) returns (r: Outcome)
      requires Valid()
      modifies this
      ensures r == Report(old(fieldPath), PaddedPass(Early, valueTypes, style, primary, secondary, flipped, 0))
      ensures fieldPath == old(fieldPath) + StackAt(PaddedPass(Early, valueTypes, style, primary, secondary, flipped, 0))
      decreases ElemsSize(primary) + ElemsSize(secondary) + 1, 0, 0
    {
      var index := 0;
      while index < |primary|
        invariant 0 <= index <= |primary|
        invariant fieldPath == old(fieldPath)
        invariant PaddedPass(Early, valueTypes, style, primary, secondary, flipped, 0)
               == PaddedPass(Early, valueTypes, style, primary, secondary, flipped, index)
      {
        fieldPath := fieldPath + [Segment(style, index)];
        var x, y := primary[index], if index < |secondary| then secondary[index] else Null;
        if flipped {
          x, y := y, x;
        }
        PaddedPassStep(Early, valueTypes, style, primary, secondary, flipped, index, x, y);
        r := Matches(x, y);
        if !r.Returned? || !r.result.isDeepCopy {
          StopsUnder(old(fieldPath), Segment(style, index), Judge(Early, valueTypes, x, y), r);
          return;
        }
        Continues(old(fieldPath) + [Segment(style, index)], Judge(Early, valueTypes, x, y), r);
        fieldPath := fieldPath[..|fieldPath| - 1];
        index := index + 1;
      }
      r := Returned(Success());
    }

    /** Every entry of the first map, then every entry of the second, compared through
        `get` on both maps; `key.toString()` on a null key throws before the push. */
    method PerformMapTypeMatch(keys1: seq<Key>, values1: seq<Value>, keys2: seq<Key>, values2: seq<Value>) returns (r: Outcome)
      requires Valid()
      modifies this
      ensures r == Report(old(fieldPath), MapVerdict(Early, valueTypes, keys1, values1, keys2, values2))
      ensures fieldPath == old(fieldPath) + StackAt(MapVerdict(Early, valueTypes, keys1, values1, keys2, values2))
      decreases ElemsSize(values1) + ElemsSize(values2) + 1, 1, 0
    {
      var i := 0;
      while i < |keys1|
        invariant 0 <= i <= |keys1|
        invariant fieldPath == old(fieldPath)
        invariant MapPass(Early, valueTypes, keys1, keys1, values1, keys2, values2, 0)
               == MapPass(Early, valueTypes, keys1, keys1, values1, keys2, values2, i)
      {
        var key := keys1[i];
        if key.NullKey? {
          return Threw(NullPointer);
        }
        fieldPath := fieldPath + [KeySegment(key)];
        r := Matches(Get(keys1, values1, key), Get(keys2, values2, key));
        if !r.Returned? || !r.result.isDeepCopy {
          StopsUnder(old(fieldPath), KeySegment(key), Judge(Early, valueTypes, Get(keys1, values1, key), Get(keys2, values2, key)), r);
          return;
        }
        Continues(old(fieldPath) + [KeySegment(key)], Judge(Early, valueTypes, Get(keys1, values1, key), Get(keys2, values2, key)), r);
        fieldPath := fieldPath[..|fieldPath| - 1];
        i := i + 1;
      }
      i := 0;
      while i < |keys2|
        invariant 0 <= i <= |keys2|
        invariant fieldPath == old(fieldPath)
        invariant MapPass(Early, valueTypes, keys2, keys1, values1, keys2, values2, 0)
               == MapPass(Early, valueTypes, keys2, keys1, values1, keys2, values2, i)
      {
        var key := keys2[i];
        if key.NullKey? {
          return Threw(NullPointer);
        }
        fieldPath := fieldPath + [KeySegment(key)];
        r := Matches(Get(keys1, values1, key), Get(keys2, values2, key));
        if !r.Returned? || !r.result.isDeepCopy {
          StopsUnder(old(fieldPath), KeySegment(key), Judge(Early, valueTypes, Get(keys1, values1, key), Get(keys2, values2, key)), r);
          return;
        }
        Continues(old(fieldPath) + [KeySegment(key)], Judge(Early, valueTypes, Get(keys1, values1, key), Get(keys2, values2, key)), r);
        fieldPath := fieldPath[..|fieldPath| - 1];
        i := i + 1;
      }
      r := Returned(Success());
    }

    /** `equals` decides; a failure reports both values. */
    method PerformValueTypeMatch(one: Value, two: Value) returns (r: DeepCopyMatchResult)
      requires Valid()
      ensures r.isDeepCopy <==> Equals(one, two)
      ensures Returned(r) == Report(fieldPath, if Equals(one, two) then Same else Diverges([], Unequal(Render(one), Render(two))))
    {
      if !Equals(one, two) {
        r := UnequalField(one, two);
      } else {
        r := Success();
      }
    }

    method UnequalField(first: Value, second: Value) returns (r: DeepCopyMatchResult)
      requires Valid()
      ensures Returned(r) == Report(fieldPath, Diverges([], Unequal(Render(first), Render(second))))
    {
      r := Fail(Render(first) + " != " + Render(second));
      assert fieldPath + [] == fieldPath;
    }

    /** The stack from bottom to top, each segment followed by `->`, with the last
        `->` deleted, then `: ` and the message. */
    method Fail(message: string) returns (r: DeepCopyMatchResult)
      requires Valid()
      ensures r == Failure(JoinPath(fieldPath) + ": " + message)
    {
      var builder := "";
      var i := 0;
      while i < |fieldPath|
        invariant 0 <= i <= |fieldPath|
        invariant i == 0 ==> builder == ""
        invariant i > 0 ==> builder == JoinPath(fieldPath[..i]) + "->"
      {
        assert fieldPath[..i + 1][..i] == fieldPath[..i];
        builder := builder + fieldPath[i] + "->";
        i := i + 1;
      }
      assert fieldPath[..i] == fieldPath;
      builder := builder[..|builder| - 2];
      var path := builder;
      r := Failure(path + ": " + message);
    }
  }
}
