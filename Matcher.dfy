/**
 * DeepCopyAssertion: the matcher as the library ships it. An instance holds
 * its value-type set (fixed at construction) and a path stack that every
 * container walk pushes a segment onto before it descends and pops after a
 * match; a failure leaves the stack as it was at the failure point, and the
 * failure description is built from it.
 *
 * Every method is proved to return `Report(<stack on entry>, <verdict>)` and to
 * leave the stack at `<stack on entry> + StackAt(<verdict>)`, where the
 * verdict is the `Current` variant of `Verdicts.Judge` or of the pass it models.
 */
module Matcher {
  import opened Values
  import opened MatchResults
  import opened Verdicts

  class DeepCopyAssertion {
    const valueTypes: set<TypeName>
    var fieldPath: seq<string>

    predicate Valid()
      reads this
    {
      BuiltinValueTypes <= valueTypes && |fieldPath| >= 1
    }

    /** The built-in value types plus the caller's, and a stack holding `root`. */
    constructor (additionalImmutableTypes: seq<TypeName>)
      ensures Valid()
      ensures valueTypes == BuiltinValueTypes + (set t | t in additionalImmutableTypes)
      ensures fieldPath == ["root"]
    {
      valueTypes := BuiltinValueTypes + (set t | t in additionalImmutableTypes);
      fieldPath := ["root"];
    }

    method Matches(one: Value, two: Value) returns (r: Outcome)
      requires Valid()
      modifies this
      ensures r == Report(old(fieldPath), Judge(Current, valueTypes, one, two))
      ensures fieldPath == old(fieldPath) + StackAt(Judge(Current, valueTypes, one, two))
      decreases Size(one) + Size(two), 3, 0
    {
      JudgeCases(Current, valueTypes, one, two);
      if one.Null? && two.Null? {
        return Returned(Success());
      }
      if one.Null? || two.Null? {
        var m := ValueNotEqual(one, two);
        return Returned(m);
      }
      if ClassOf(one) != ClassOf(two) {
        assert fieldPath + [] == fieldPath;
        var m := Fail(ReasonText(NotSameType(ClassName(one), ClassName(two))));
        return Returned(m);
      }
      if IsValueType(valueTypes, one) {
        var m := PerformValueTypeMatch(one, two);
        return Returned(m);
      }
      if one.EnumConst? {
        if SameInstance(one, two) {
          return Returned(Success());
        }
        var m := ValueNotEqual(one, two);
        return Returned(m);
      }
      JudgeDescends(Current, valueTypes, one, two);
      if SameInstance(one, two) {
        assert fieldPath + [] == fieldPath;
        var m := Fail(ReasonText(SameInstanceReason));
        return Returned(m);
      }
      assert ShapeSize(one.shape) < Size(one) && ShapeSize(two.shape) < Size(two);
      if one.shape.PrimArray? || one.shape.ObjArray? {
        r := ArrayMatch(one.shape, two.shape);
      } else if one.shape.MapS? {
        r := MapTypeMatch(one.shape.keys, one.shape.values, two.shape.keys, two.shape.values);
      } else if one.shape.Coll? {
        r := CollectionTypeMatch(one.shape.members, two.shape.members);
      } else {
        r := FieldByFieldMatch(one.fields, two.fields);
      }
    }

    /** The declared fields in order, each under its own name; the first failure is returned as is. */
    method FieldByFieldMatch(fields1: seq<Field>, fields2: seq<Field>) returns (r: Outcome)
      requires Valid() && |fields1| == |fields2|
      modifies this
      ensures r == Report(old(fieldPath), FieldsVerdict(Current, valueTypes, fields1, fields2))
      ensures fieldPath == old(fieldPath) + StackAt(FieldsVerdict(Current, valueTypes, fields1, fields2))
      decreases FieldsSize(fields1) + FieldsSize(fields2) + 1, 1, 0
    {
      var i := 0;
      while i < |fields1|
        invariant 0 <= i <= |fields1|
        invariant fieldPath == old(fieldPath)
        invariant FieldsPass(Current, valueTypes, fields1, fields2, 0) == FieldsPass(Current, valueTypes, fields1, fields2, i)
      {
        fieldPath := fieldPath + [fields1[i].name];
        r := Matches(fields1[i].value, fields2[i].value);
        if !r.Returned? || !r.result.isDeepCopy {
          StopsUnder(old(fieldPath), fields1[i].name, Judge(Current, valueTypes, fields1[i].value, fields2[i].value), r);
          return;
        }
        Continues(old(fieldPath) + [fields1[i].name], Judge(Current, valueTypes, fields1[i].value, fields2[i].value), r);
        fieldPath := fieldPath[..|fieldPath| - 1];
        i := i + 1;
      }
      r := Returned(Success());
    }

    /** Primitive arrays by component type, object arrays by position. */
    method ArrayMatch(one: Shape, two: Shape) returns (r: Outcome)
      requires Valid() && (one.PrimArray? || one.ObjArray?) && KindOf(one) == KindOf(two)
      modifies this
      ensures one.PrimArray? ==>
        r == Report(old(fieldPath), PrimitiveVerdict(Current, valueTypes, one.kind, one.items, two.items)) &&
        fieldPath == old(fieldPath) + StackAt(PrimitiveVerdict(Current, valueTypes, one.kind, one.items, two.items))
      ensures one.ObjArray? ==>
        r == Report(old(fieldPath), PositionalVerdict(Current, valueTypes, Brackets, one.elems, two.elems)) &&
        fieldPath == old(fieldPath) + StackAt(PositionalVerdict(Current, valueTypes, Brackets, one.elems, two.elems))
      decreases ShapeSize(one) + ShapeSize(two) + 1, 2, 0
    {
      if one.PrimArray? {
        if Supported(one.kind) {
          r := PrimitiveArrayMatch(one.items, two.items);
        } else {
          r := Threw(Unsupported("I have no idea what " + KindName(one.kind) + " is."));
        }
      } else {
        r := ObjectArrayMatch(one.elems, two.elems);
      }
    }

    /** Two passes by position; a position missing on one side is compared with `<absent>`. */
    method ObjectArrayMatch(one: seq<Value>, two: seq<Value>) returns (r: Outcome)
      requires Valid()
      modifies this
      ensures r == Report(old(fieldPath), PositionalVerdict(Current, valueTypes, Brackets, one, two))
      ensures fieldPath == old(fieldPath) + StackAt(PositionalVerdict(Current, valueTypes, Brackets, one, two))
      decreases ElemsSize(one) + ElemsSize(two) + 1, 1, 0
    {
      r := PositionalLoop(Brackets, one, two, false);
      ReportSucceedsIffSame(old(fieldPath), AbsentPass(Current, valueTypes, Brackets, one, two, false, 0));
      if !r.Returned? || !r.result.isDeepCopy {
        return;
      }
      assert old(fieldPath) + [] == old(fieldPath);
      r := PositionalLoop(Brackets, two, one, true);
    }

    /** One of the two loops of `objectArrayMatch` and `collectionTypeMatch`: over
        `primary` by position, comparing with `<absent>` once `secondary` has run out.
        In the second loop `primary` is the second operand (`flipped`); the
        arguments of `matches` keep their order. */
    method PositionalLoop(style: Style, primary: seq<Value>, secondary: seq<Value>, flipped: bool) returns (r: Outcome)
      requires Valid()
      modifies this
      ensures r == Report(old(fieldPath), AbsentPass(Current, valueTypes, style, primary, secondary, flipped, 0))
      ensures fieldPath == old(fieldPath) + StackAt(AbsentPass(Current, valueTypes, style, primary, secondary, flipped, 0))
      decreases ElemsSize(primary) + ElemsSize(secondary) + 1, 0, 0
    {
      var i := 0;
      while i < |primary|
        invariant 0 <= i <= |primary|
        invariant fieldPath == old(fieldPath)
        invariant AbsentPass(Current, valueTypes, style, primary, secondary, flipped, 0)
               == AbsentPass(Current, valueTypes, style, primary, secondary, flipped, i)
      {
        fieldPath := fieldPath + [Segment(style, i)];
        if i >= |secondary| {
          var reason := if flipped then Unequal(Render(Absent), Render(primary[i])) else Unequal(Render(primary[i]), Render(Absent));
          var m;
          if flipped {
            m := ValueNotEqual(Absent, primary[i]);
          } else {
            m := ValueNotEqual(primary[i], Absent);
          }
          r := Returned(m);
          StopsUnder(old(fieldPath), Segment(style, i), Diverges([], reason), r);
          return;
        }
        var x, y := primary[i], secondary[i];
        if flipped {
          x, y := y, x;
        }
        AbsentPassStep(Current, valueTypes, style, primary, secondary, flipped, i, x, y);
        r := Matches(x, y);
        if !r.Returned? || !r.result.isDeepCopy {
          StopsUnder(old(fieldPath), Segment(style, i), Judge(Current, valueTypes, x, y), r);
          return;
        }
        Continues(old(fieldPath) + [Segment(style, i)], Judge(Current, valueTypes, x, y), r);
        fieldPath := fieldPath[..|fieldPath| - 1];
        i := i + 1;
      }
      r := Returned(Success());
    }

    /** The six primitive-array matchers (long, int, byte, float, double, boolean) share
        one body: each element is boxed, and the shorter array is padded with null. */
    method PrimitiveArrayMatch(one: seq<Payload>, two: seq<Payload>) returns (r: Outcome)
      requires Valid()
      modifies this
      ensures r == Report(old(fieldPath), PaddedVerdict(Current, valueTypes, Brackets, Boxed(one), Boxed(two)))
      ensures fieldPath == old(fieldPath) + StackAt(PaddedVerdict(Current, valueTypes, Brackets, Boxed(one), Boxed(two)))
      decreases |one| + |two| + 1, 1, 0
    {
      BoxedSize(one);
      BoxedSize(two);
      var boxedOne, boxedTwo := Boxed(one), Boxed(two);
      r := PaddedLoop(boxedOne, boxedTwo, false);
      ReportSucceedsIffSame(old(fieldPath), PaddedPass(Current, valueTypes, Brackets, boxedOne, boxedTwo, false, 0));
      if !r.Returned? || !r.result.isDeepCopy {
        return;
      }
      assert old(fieldPath) + [] == old(fieldPath);
      r := PaddedLoop(boxedTwo, boxedOne, true);
    }

    /** One of the two loops of a primitive-array matcher: over `primary`, with null
        where `secondary` has run out. */
    method PaddedLoop(primary: seq<Value>, secondary: seq<Value>, flipped: bool) returns (r: Outcome)
      requires Valid()
      modifies this
      ensures r == Report(old(fieldPath), PaddedPass(Current, valueTypes, Brackets, primary, secondary, flipped, 0))
      ensures fieldPath == old(fieldPath) + StackAt(PaddedPass(Current, valueTypes, Brackets, primary, secondary, flipped, 0))
      decreases ElemsSize(primary) + ElemsSize(secondary) + 1, 0, 0
    {
      var i := 0;
      while i < |primary|
        invariant 0 <= i <= |primary|
        invariant fieldPath == old(fieldPath)
        invariant PaddedPass(Current, valueTypes, Brackets, primary, secondary, flipped, 0)
               == PaddedPass(Current, valueTypes, Brackets, primary, secondary, flipped, i)
      {
        fieldPath := fieldPath + [Segment(Brackets, i)];
        var x, y := primary[i], if i < |secondary| then secondary[i] else Null;
        if flipped {
          x, y := y, x;
        }
        PaddedPassStep(Current, valueTypes, Brackets, primary, secondary, flipped, i, x, y);
        r := Matches(x, y);
        if !r.Returned? || !r.result.isDeepCopy {
          StopsUnder(old(fieldPath), Segment(Brackets, i), Judge(Current, valueTypes, x, y), r);
          return;
        }
        Continues(old(fieldPath) + [Segment(Brackets, i)], Judge(Current, valueTypes, x, y), r);
        fieldPath := fieldPath[..|fieldPath| - 1];
        i := i + 1;
      }
      r := Returned(Success());
    }

    /** Two iterator passes over the collections in their iteration order; a
        missing element is compared with `<absent>`. */
    method CollectionTypeMatch(one: seq<Value>, two: seq<Value>) returns (r: Outcome)
      requires Valid()
      modifies this
      ensures r == Report(old(fieldPath), PositionalVerdict(Current, valueTypes, AtCalls, one, two))
      ensures fieldPath == old(fieldPath) + StackAt(PositionalVerdict(Current, valueTypes, AtCalls, one, two))
      decreases ElemsSize(one) + ElemsSize(two) + 1, 1, 0
    {
      r := PositionalLoop(AtCalls, one, two, false);
      ReportSucceedsIffSame(old(fieldPath), AbsentPass(Current, valueTypes, AtCalls, one, two, false, 0));
      if !r.Returned? || !r.result.isDeepCopy {
        return;
      }
      assert old(fieldPath) + [] == old(fieldPath);
      r := PositionalLoop(AtCalls, two, one, true);
    }

    /** Every entry of the first map, then every entry of the second, compared through
        `get` on both maps; `key.toString()` on a null key throws before the push. */
    method MapTypeMatch(keys1: seq<Key>, values1: seq<Value>, keys2: seq<Key>, values2: seq<Value>) returns (r: Outcome)
      requires Valid()
      modifies this
      ensures r == Report(old(fieldPath), MapVerdict(Current, valueTypes, keys1, values1, keys2, values2))
      ensures fieldPath == old(fieldPath) + StackAt(MapVerdict(Current, valueTypes, keys1, values1, keys2, values2))
      decreases ElemsSize(values1) + ElemsSize(values2) + 1, 1, 0
    {
      var i := 0;
      while i < |keys1|
        invariant 0 <= i <= |keys1|
        invariant fieldPath == old(fieldPath)
        invariant MapPass(Current, valueTypes, keys1, keys1, values1, keys2, values2, 0)
               == MapPass(Current, valueTypes, keys1, keys1, values1, keys2, values2, i)
      {
        var key := keys1[i];
        if key.NullKey? {
          return Threw(NullPointer);
        }
        fieldPath := fieldPath + [KeySegment(key)];
        r := Matches(Get(keys1, values1, key), Get(keys2, values2, key));
        if !r.Returned? || !r.result.isDeepCopy {
          StopsUnder(old(fieldPath), KeySegment(key), Judge(Current, valueTypes, Get(keys1, values1, key), Get(keys2, values2, key)), r);
          return;
        }
        Continues(old(fieldPath) + [KeySegment(key)], Judge(Current, valueTypes, Get(keys1, values1, key), Get(keys2, values2, key)), r);
        fieldPath := fieldPath[..|fieldPath| - 1];
        i := i + 1;
      }
      i := 0;
      while i < |keys2|
        invariant 0 <= i <= |keys2|
        invariant fieldPath == old(fieldPath)
        invariant MapPass(Current, valueTypes, keys2, keys1, values1, keys2, values2, 0)
               == MapPass(Current, valueTypes, keys2, keys1, values1, keys2, values2, i)
      {
        var key := keys2[i];
        if key.NullKey? {
          return Threw(NullPointer);
        }
        fieldPath := fieldPath + [KeySegment(key)];
        r := Matches(Get(keys1, values1, key), Get(keys2, values2, key));
        if !r.Returned? || !r.result.isDeepCopy {
          StopsUnder(old(fieldPath), KeySegment(key), Judge(Current, valueTypes, Get(keys1, values1, key), Get(keys2, values2, key)), r);
          return;
        }
        Continues(old(fieldPath) + [KeySegment(key)], Judge(Current, valueTypes, Get(keys1, values1, key), Get(keys2, values2, key)), r);
        fieldPath := fieldPath[..|fieldPath| - 1];
        i := i + 1;
      }
      r := Returned(Success());
    }

    /** `equals` decides; a failure reports both values. */
    method PerformValueTypeMatch(one: Value, two: Value) returns (r: DeepCopyMatchResult)
      requires Valid()
      ensures r.isDeepCopy <==> Equals(one, two)
      ensures Returned(r) == Report(fieldPath, if Equals(one, two) then Same else Diverges([], Unequal(Render(one), Render(two))))
    {
      if !Equals(one, two) {
        r := ValueNotEqual(one, two);
      } else {
        r := Success();
      }
    }

    method ValueNotEqual(first: Value, second: Value) returns (r: DeepCopyMatchResult)
      requires Valid()
      ensures Returned(r) == Report(fieldPath, Diverges([], Unequal(Render(first), Render(second))))
    {
      r := Fail(Render(first) + " != " + Render(second));
      assert fieldPath + [] == fieldPath;
    }

    /** The stack from bottom to top, each segment followed by `->`, with the last
        `->` deleted, then `: ` and the message. */
    method Fail(message: string) returns (r: DeepCopyMatchResult)
      requires Valid()
      ensures r == Failure(JoinPath(fieldPath) + ": " + message)
    {
      var builder := "";
      var i := 0;
      while i < |fieldPath|
        invariant 0 <= i <= |fieldPath|
        invariant i == 0 ==> builder == ""
        invariant i > 0 ==> builder == JoinPath(fieldPath[..i]) + "->"
      {
        assert fieldPath[..i + 1][..i] == fieldPath[..i];
        builder := builder + fieldPath[i] + "->";
        i := i + 1;
      }
      assert fieldPath[..i] == fieldPath;
      builder := builder[..|builder| - 2];
      var path := builder;
      r := Failure(path + ": " + message);
    }
  }
}
