/**
 * What one `matches(one, two)` call decides, as a pure function of the two
 * values (`Judge`), independent of the path stack. The imperative matchers
 * push and pop path segments while they walk; `Report` renders a verdict
 * under the path the stack held on entry, and the matchers are proved to
 * return exactly `Report(entry path, Judge(...))`.
 *
 * Two variants of the algorithm exist: `Current` (DeepCopyAssertion.java)
 * and `Early`, the older private copy inside ReflectiveDeepCopyTest.java,
 * which pads missing positions with null, dispatches only on List (not on
 * Collection) and has no enum branch.
 */
module Verdicts {
  import opened Values
  import opened MatchResults

  datatype Variant = Current | Early

  /** The text after `<path>: ` in a failure description. */
  datatype Reason =
    | Unequal(left: string, right: string)
    | NotSameType(left: TypeName, right: TypeName)
    | SameInstanceReason

  /** Exceptions that escape `matches` instead of becoming a result. */
  datatype Fault = Unsupported(message: string) | NullPointer

  /** `at` is the path below the entry point: the segments the stack holds
      beyond its entry contents when the walk stops. */
  datatype Verdict =
    | Same
    | Diverges(at: seq<string>, reason: Reason)
    | Throws(at: seq<string>, fault: Fault)

  /** What a `matches` call produces: a result, or an exception. */
  datatype Outcome = Returned(result: DeepCopyMatchResult) | Threw(fault: Fault)

  function ReasonText(r: Reason): string {
    match r
    case Unequal(left, right) => left + " != " + right
    case NotSameType(left, right) => "objects are not the same type (" + left + " versus " + right + ")"
    case SameInstanceReason => "The same instance cannot be a deep copy of itself"
  }

  /** The stack's segments joined with `->`. */
  function JoinPath(segments: seq<string>): string
    requires |segments| >= 1
  {
    if |segments| == 1 then segments[0]
    else JoinPath(segments[..|segments| - 1]) + "->" + segments[|segments| - 1]
  }

  /** The outcome of a verdict reached with `path` on the stack. */
  function Report(path: seq<string>, v: Verdict): Outcome
    requires |path| >= 1
  {
    match v
    case Same => Returned(Success())
    case Diverges(at, reason) => Returned(Failure(JoinPath(path + at) + ": " + ReasonText(reason)))
    case Throws(_, fault) => Threw(fault)
  }

  /** The segments left on the stack beyond its entry contents. */
  function StackAt(v: Verdict): seq<string> {
    match v
    case Same => []
    case Diverges(at, _) => at
    case Throws(at, _) => at
  }

  /** A verdict reached one segment further down. */
  function Under(segment: string, v: Verdict): Verdict {
    match v
    case Same => Same
    case Diverges(at, reason) => Diverges([segment] + at, reason)
    case Throws(at, fault) => Throws([segment] + at, fault)
  }

  /** A walk that returned "deep copy" had verdict `Same`. */
  lemma Continues(path: seq<string>, v: Verdict, r: Outcome)
    requires |path| >= 1 && r == Report(path, v) && r.Returned? && r.result.isDeepCopy
    ensures v.Same?
  {
  }

  /** A walk that failed after a push reports the same outcome as its verdict placed
      under the pushed segment, and leaves that segment on the stack. */
  lemma StopsUnder(path: seq<string>, segment: string, v: Verdict, r: Outcome)
    requires |path| >= 1 && r == Report(path + [segment], v) && !(r.Returned? && r.result.isDeepCopy)
    ensures !v.Same? && r == Report(path, Under(segment, v))
    ensures (path + [segment]) + StackAt(v) == path + StackAt(Under(segment, v))
  {
    assert (path + [segment]) + StackAt(v) == path + ([segment] + StackAt(v));
  }

  /** A result says "deep copy" exactly when the verdict is `Same`. */
  lemma ReportSucceedsIffSame(path: seq<string>, v: Verdict)
    requires |path| >= 1
    ensures (Report(path, v).Returned? && Report(path, v).result.isDeepCopy) <==> v.Same?
    ensures Report(path, v).Returned? ==> FactoryMade(Report(path, v).result)
  {
  }

  /** The string the Current variant compares a missing position against. */
  const Absent: Value := Scalar(Str("<absent>"))

  /** Arrays use `[i]`, collections `at(i)`. */
  datatype Style = Brackets | AtCalls

  function Segment(style: Style, k: nat): string {
    match style
    case Brackets => "[" + NatToString(k) + "]"
    case AtCalls => "at(" + NatToString(k) + ")"
  }

  function KeySegment(key: Key): string
    requires !key.NullKey?
  {
    "get(" + RenderKey(key) + ")"
  }

  /** The primitive component types with a matcher of their own. */
  predicate Supported(kind: PrimKind) {
    kind in {LongKind, IntKind, DoubleKind, FloatKind, BooleanKind, ByteKind}
  }

  /** `Class.toString()` of a primitive class. */
  function KindName(kind: PrimKind): string {
    match kind
    case LongKind => "long"
    case IntKind => "int"
    case DoubleKind => "double"
    case FloatKind => "float"
    case BooleanKind => "boolean"
    case ByteKind => "byte"
    case ShortKind => "short"
    case CharKind => "char"
  }

  // ---------------------------------------------------------------- the matcher

  /** `matches(a, b)`, in its dispatch order. */
  function Judge(variant: Variant, vt: set<TypeName>, a: Value, b: Value): Verdict
    requires BuiltinValueTypes <= vt
    decreases Size(a) + Size(b), 3, 0
  {
    if a.Null? && b.Null? then Same
    else if a.Null? || b.Null? then Diverges([], Unequal(Render(a), Render(b)))
    else if ClassOf(a) != ClassOf(b) then Diverges([], NotSameType(ClassName(a), ClassName(b)))
    else if IsValueType(vt, a) then
      if Equals(a, b) then Same else Diverges([], Unequal(Render(a), Render(b)))
    else if variant == Current && a.EnumConst? then
      if SameInstance(a, b) then Same else Diverges([], Unequal(Render(a), Render(b)))
    else if SameInstance(a, b) then Diverges([], SameInstanceReason)
    else if a.Node? then
      assert ShapeSize(a.shape) < Size(a) && ShapeSize(b.shape) < Size(b);
      match a.shape
      case PrimArray(kind, items) => PrimitiveVerdict(variant, vt, kind, items, b.shape.items)
      case ObjArray(es) =>
        if variant == Current then PositionalVerdict(variant, vt, Brackets, es, b.shape.elems)
        else PaddedVerdict(variant, vt, Brackets, es, b.shape.elems)
      case MapS(ks, vs) => MapVerdict(variant, vt, ks, vs, b.shape.keys, b.shape.values)
      case Coll(isList, ms) =>
        if variant == Current then PositionalVerdict(variant, vt, AtCalls, ms, b.shape.members)
        else if isList then PaddedVerdict(variant, vt, AtCalls, ms, b.shape.members)
        else FieldsVerdict(variant, vt, a.fields, b.fields)
      case Plain => FieldsVerdict(variant, vt, a.fields, b.fields)
    else
      // an enum constant in the Early variant, which has no enum branch
      FieldsVerdict(variant, vt, a.fields, b.fields)
  }

  lemma JudgeCases(variant: Variant, vt: set<TypeName>, a: Value, b: Value)
    requires BuiltinValueTypes <= vt
    ensures a.Null? && b.Null? ==> Judge(variant, vt, a, b) == Same
    ensures a.Null? != b.Null? ==> Judge(variant, vt, a, b) == Diverges([], Unequal(Render(a), Render(b)))
    ensures !a.Null? && !b.Null? && ClassOf(a) != ClassOf(b) ==>
      Judge(variant, vt, a, b) == Diverges([], NotSameType(ClassName(a), ClassName(b)))
    ensures !a.Null? && !b.Null? && ClassOf(a) == ClassOf(b) && IsValueType(vt, a) ==>
      Judge(variant, vt, a, b) == if Equals(a, b) then Same else Diverges([], Unequal(Render(a), Render(b)))
  {
  }

  lemma JudgeDescends(variant: Variant, vt: set<TypeName>, a: Value, b: Value)
    requires BuiltinValueTypes <= vt
    requires !a.Null? && !b.Null? && ClassOf(a) == ClassOf(b) && !IsValueType(vt, a)
    ensures variant == Current && a.EnumConst? ==>
      Judge(variant, vt, a, b) == if SameInstance(a, b) then Same else Diverges([], Unequal(Render(a), Render(b)))
    ensures !(variant == Current && a.EnumConst?) && SameInstance(a, b) ==> Judge(variant, vt, a, b) == Diverges([], SameInstanceReason)
    ensures !(variant == Current && a.EnumConst?) && !SameInstance(a, b) && a.Node? ==>
      b.Node? && KindOf(a.shape) == KindOf(b.shape) && |a.fields| == |b.fields|
    ensures !SameInstance(a, b) && a.Node? && a.shape.PrimArray? ==>
      Judge(variant, vt, a, b) == PrimitiveVerdict(variant, vt, a.shape.kind, a.shape.items, b.shape.items)
    ensures !SameInstance(a, b) && a.Node? && a.shape.ObjArray? ==>
      Judge(variant, vt, a, b) == if variant == Current then PositionalVerdict(variant, vt, Brackets, a.shape.elems, b.shape.elems)
                                  else PaddedVerdict(variant, vt, Brackets, a.shape.elems, b.shape.elems)
    ensures !SameInstance(a, b) && a.Node? && a.shape.MapS? ==>
      Judge(variant, vt, a, b) == MapVerdict(variant, vt, a.shape.keys, a.shape.values, b.shape.keys, b.shape.values)
    ensures !SameInstance(a, b) && a.Node? && a.shape.Coll? && (variant == Current || a.shape.isList) ==>
      Judge(variant, vt, a, b) == if variant == Current then PositionalVerdict(variant, vt, AtCalls, a.shape.members, b.shape.members)
                                  else PaddedVerdict(variant, vt, AtCalls, a.shape.members, b.shape.members)
    ensures !(variant == Current && a.EnumConst?) && !SameInstance(a, b) &&
            (a.EnumConst? || a.shape.Plain? || (a.shape.Coll? && variant == Early && !a.shape.isList)) ==>
      Judge(variant, vt, a, b) == FieldsVerdict(variant, vt, a.fields, b.fields)
  {
  }

  /** Field-by-field: declared order, first divergence wins. */
  function FieldsVerdict(variant: Variant, vt: set<TypeName>, fs1: seq<Field>, fs2: seq<Field>): Verdict
    requires BuiltinValueTypes <= vt && |fs1| == |fs2|
    decreases FieldsSize(fs1) + FieldsSize(fs2) + 1, 1, 0
  {
    FieldsPass(variant, vt, fs1, fs2, 0)
  }

  /** The field loop from field `k` on. */
  function FieldsPass(variant: Variant, vt: set<TypeName>, fs1: seq<Field>, fs2: seq<Field>, k: nat): Verdict
    requires BuiltinValueTypes <= vt && |fs1| == |fs2| && k <= |fs1|
    decreases FieldsSize(fs1) + FieldsSize(fs2) + 1, 0, |fs1| - k
  {
    if k == |fs1| then Same
    else
      var v := Judge(variant, vt, fs1[k].value, fs2[k].value);
      if v.Same? then FieldsPass(variant, vt, fs1, fs2, k + 1) else Under(fs1[k].name, v)
  }

  /** Two passes with the `<absent>` sentinel: object arrays and collections (Current). */
  function PositionalVerdict(variant: Variant, vt: set<TypeName>, style: Style, s1: seq<Value>, s2: seq<Value>): Verdict
    requires BuiltinValueTypes <= vt
    decreases ElemsSize(s1) + ElemsSize(s2) + 1, 1, 0
  {
    var first := AbsentPass(variant, vt, style, s1, s2, false, 0);
    if first.Same? then AbsentPass(variant, vt, style, s2, s1, true, 0) else first
  }

  /** One pass from position `k` over `primary`; `flipped` when `primary` is the second operand. */
  function AbsentPass(variant: Variant, vt: set<TypeName>, style: Style, primary: seq<Value>, secondary: seq<Value>,
                      flipped: bool, k: nat): Verdict
    requires BuiltinValueTypes <= vt && k <= |primary|
    decreases ElemsSize(primary) + ElemsSize(secondary) + 1, 0, |primary| - k
  {
    if k == |primary| then Same
    else if k >= |secondary| then
      Under(Segment(style, k), Diverges([],
        if flipped then Unequal(Render(Absent), Render(primary[k])) else Unequal(Render(primary[k]), Render(Absent))))
    else
      var v := if flipped then Judge(variant, vt, secondary[k], primary[k]) else Judge(variant, vt, primary[k], secondary[k]);
      if v.Same? then AbsentPass(variant, vt, style, primary, secondary, flipped, k + 1)
      else Under(Segment(style, k), v)
  }

  /** Two passes that pad the shorter side with null: primitive arrays, and the
      Early variant's object arrays and lists. */
  function PaddedVerdict(variant: Variant, vt: set<TypeName>, style: Style, s1: seq<Value>, s2: seq<Value>): Verdict
    requires BuiltinValueTypes <= vt
    decreases ElemsSize(s1) + ElemsSize(s2) + 1, 1, 0
  {
    var first := PaddedPass(variant, vt, style, s1, s2, false, 0);
    if first.Same? then PaddedPass(variant, vt, style, s2, s1, true, 0) else first
  }

  function PaddedPass(variant: Variant, vt: set<TypeName>, style: Style, primary: seq<Value>, secondary: seq<Value>,
                      flipped: bool, k: nat): Verdict
    requires BuiltinValueTypes <= vt && k <= |primary|
    decreases ElemsSize(primary) + ElemsSize(secondary) + 1, 0, |primary| - k
  {
    if k == |primary| then Same
    else
      var other := if k < |secondary| then secondary[k] else Null;
      var v := if flipped then Judge(variant, vt, other, primary[k]) else Judge(variant, vt, primary[k], other);
      if v.Same? then PaddedPass(variant, vt, style, primary, secondary, flipped, k + 1)
      else Under(Segment(style, k), v)
  }

  /** One position of a padding pass: its comparison, then the rest of the pass. */
  lemma PaddedPassStep(variant: Variant, vt: set<TypeName>, style: Style, primary: seq<Value>, secondary: seq<Value>,
                       flipped: bool, k: nat, x: Value, y: Value)
    requires BuiltinValueTypes <= vt && k < |primary|
    requires var other := if k < |secondary| then secondary[k] else Null;
      (x, y) == (if flipped then (other, primary[k]) else (primary[k], other))
    ensures PaddedPass(variant, vt, style, primary, secondary, flipped, k)
         == if Judge(variant, vt, x, y).Same? then PaddedPass(variant, vt, style, primary, secondary, flipped, k + 1)
            else Under(Segment(style, k), Judge(variant, vt, x, y))
  {
  }

  /** One position of a positional pass that both operands have: its comparison, then the rest of the pass. */
  lemma AbsentPassStep(variant: Variant, vt: set<TypeName>, style: Style, primary: seq<Value>, secondary: seq<Value>,
                       flipped: bool, k: nat, x: Value, y: Value)
    requires BuiltinValueTypes <= vt && k < |primary| && k < |secondary|
    requires (x, y) == (if flipped then (secondary[k], primary[k]) else (primary[k], secondary[k]))
    ensures AbsentPass(variant, vt, style, primary, secondary, flipped, k)
         == if Judge(variant, vt, x, y).Same? then AbsentPass(variant, vt, style, primary, secondary, flipped, k + 1)
            else Under(Segment(style, k), Judge(variant, vt, x, y))
  {
  }

  /** `arrayMatch` for a primitive component type. */
  function PrimitiveVerdict(variant: Variant, vt: set<TypeName>, kind: PrimKind, items1: seq<Payload>, items2: seq<Payload>): Verdict
    requires BuiltinValueTypes <= vt
    decreases |items1| + |items2| + 1, 2, 0
  {
    if Supported(kind) then BoxedSize(items1); BoxedSize(items2); PaddedVerdict(variant, vt, Brackets, Boxed(items1), Boxed(items2))
    else Throws([], Unsupported("I have no idea what " + KindName(kind) + " is."))
  }

  /** `mapTypeMatch`: A's keys, then B's keys, each compared through `get`. */
  function MapVerdict(variant: Variant, vt: set<TypeName>, keys1: seq<Key>, values1: seq<Value>,
                      keys2: seq<Key>, values2: seq<Value>): Verdict
    requires BuiltinValueTypes <= vt
    decreases ElemsSize(values1) + ElemsSize(values2) + 1, 1, 0
  {
    var first := MapPass(variant, vt, keys1, keys1, values1, keys2, values2, 0);
    if first.Same? then MapPass(variant, vt, keys2, keys1, values1, keys2, values2, 0) else first
  }

  /** The loop over the entries whose keys are `iterated`, from entry `k` on. */
  function MapPass(variant: Variant, vt: set<TypeName>, iterated: seq<Key>, keys1: seq<Key>, values1: seq<Value>,
                   keys2: seq<Key>, values2: seq<Value>, k: nat): Verdict
    requires BuiltinValueTypes <= vt && k <= |iterated|
    decreases ElemsSize(values1) + ElemsSize(values2) + 1, 0, |iterated| - k
  {
    if k == |iterated| then Same
    else if iterated[k].NullKey? then Throws([], NullPointer)
    else
      var key := iterated[k];
      var v := Judge(variant, vt, Get(keys1, values1, key), Get(keys2, values2, key));
      if v.Same? then MapPass(variant, vt, iterated, keys1, values1, keys2, values2, k + 1)
      else Under(KeySegment(key), v)
  }
}
