/**
 * The test methods of ReflectiveDeepCopyTest.java as lemmas. Each test calls
 * `new DeepCopyAssertion().matches(one, two)` on the file's own inner copy
 * of the matcher (the Early variant, with only the built-in value types) and
 * checks the flag and the failure description. The lemmas state each test
 * for every choice of object identities and, where the test's literals are
 * incidental, for every choice of field values; the literals of the test
 * are one instance.
 */
module Scenarios {
  import opened Values
  import opened MatchResults
  import opened Verdicts
  import opened Passes
  import opened Behaviours
  import EarlyMatcher

  /** `new DeepCopyAssertion().matches(one, two)`, as the two assertion helpers call it. */
  method MatchFresh(one: Value, two: Value) returns (r: Outcome)
    ensures r == Run(one, two)
  {
    var assertion := new EarlyMatcher.DeepCopyAssertion();
    r := assertion.Matches(one, two);
  }

  /** What a fresh matcher returns: the verdict reported under `root`. */
  function Run(one: Value, two: Value): Outcome {
    Report(["root"], Judge(Early, BuiltinValueTypes, one, two))
  }

  // ---------------------------------------------------------------- the test file's classes

  const ExampleOneClass := "net.digihippo.reflect.ReflectiveDeepCopyTest$ExampleOne"
  const ExampleTwoClass := "net.digihippo.reflect.ReflectiveDeepCopyTest$ExampleTwo"
  const ExampleThreeClass := "net.digihippo.reflect.ReflectiveDeepCopyTest$ExampleThree"
  const ExampleFourClass := "net.digihippo.reflect.ReflectiveDeepCopyTest$ExampleFour"

  /** An `ExampleOne` instance; its `toString()` is `ExampleOne(<firstField>)`. */
  function ExampleOne(id: nat, firstField: int): Value {
    Node(id, id, ExampleOneClass, "ExampleOne(" + IntToString(firstField) + ")",
         [Field("firstField", Scalar(Long(firstField)))], Plain)
  }

  /** The other classes keep `Object.toString()`, which no scenario renders. */
  function ExampleTwo(id: nat, firstField: int, secondField: int): Value {
    Node(id, id, ExampleTwoClass, ExampleTwoClass + "@" + NatToString(id),
         [Field("firstField", Scalar(Long(firstField))), Field("secondField", Scalar(Long(secondField)))], Plain)
  }

  function ExampleThree(id: nat, firstField: string): Value {
    Node(id, id, ExampleThreeClass, ExampleThreeClass + "@" + NatToString(id), [Field("firstField", Scalar(Str(firstField)))], Plain)
  }

  function ExampleFour(id: nat, exampleOne: Value): Value {
    Node(id, id, ExampleFourClass, ExampleFourClass + "@" + NatToString(id), [Field("exampleOne", exampleOne)], Plain)
  }

  /** A `HashMap<String, ExampleOne>` with the given entries in iteration order. */
  function StringMap(id: nat, keys: seq<string>, values: seq<Value>): Value {
    Node(id, id, "java.util.HashMap", "java.util.HashMap@" + NatToString(id), [], MapS(StringKeys(keys), values))
  }

  function StringKeys(keys: seq<string>): seq<Key> {
    seq(|keys|, k requires 0 <= k < |keys| => BoxedKey(Str(keys[k])))
  }

  function ArrayList(id: nat, members: seq<Value>): Value {
    Node(id, id, "java.util.ArrayList", "java.util.ArrayList@" + NatToString(id), [], Coll(true, members))
  }

  /** `getClass().getName()` of a primitive array. */
  function ArrayClassName(kind: PrimKind): TypeName {
    match kind
    case LongKind => "[J"
    case IntKind => "[I"
    case DoubleKind => "[D"
    case FloatKind => "[F"
    case BooleanKind => "[Z"
    case ByteKind => "[B"
    case ShortKind => "[S"
    case CharKind => "[C"
  }

  function PrimitiveArray(id: nat, kind: PrimKind, items: seq<Payload>): Value {
    Node(id, id, ArrayClassName(kind), ArrayClassName(kind) + "@" + NatToString(id), [], PrimArray(kind, items))
  }

  // ---------------------------------------------------------------- how verdicts are described

  lemma AtRoot(reason: Reason)
    ensures Report(["root"], Diverges([], reason)) == Returned(Failure("root: " + ReasonText(reason)))
  {
    assert ["root"] + [] == ["root"];
    assert JoinPath(["root"]) + ": " == "root: ";
  }

  lemma NotSameTypeAtRoot(left: TypeName, right: TypeName)
    ensures Report(["root"], Diverges([], NotSameType(left, right)))
         == Returned(Failure("root: " + "objects are not the same type (" + left + " versus " + right + ")"))
  {
    AtRoot(NotSameType(left, right));
    assert "root: " + ("objects are not the same type (" + left + " versus " + right + ")")
        == "root: " + "objects are not the same type (" + left + " versus " + right + ")";
  }

  lemma OneDown(segment: string, reason: Reason)
    ensures Report(["root"], Diverges([segment], reason))
         == Returned(Failure("root->" + segment + ": " + ReasonText(reason)))
  {
    assert ["root"] + [segment] == ["root", segment];
    assert ["root", segment][..1] == ["root"];
    assert JoinPath(["root", segment]) == "root->" + segment;
  }

  lemma UnequalOneDown(segment: string, left: string, right: string)
    ensures Report(["root"], Diverges([segment], Unequal(left, right)))
         == Returned(Failure("root->" + segment + ": " + left + " != " + right))
  {
    OneDown(segment, Unequal(left, right));
    assert "root->" + segment + ": " + (left + " != " + right) == "root->" + segment + ": " + left + " != " + right;
  }

  lemma TwoDown(first: string, second: string, reason: Reason)
    ensures Report(["root"], Diverges([first, second], reason))
         == Returned(Failure("root->" + first + "->" + second + ": " + ReasonText(reason)))
  {
    assert ["root"] + [first, second] == ["root", first, second];
    assert ["root", first, second][..2] == ["root", first];
    assert ["root", first][..1] == ["root"];
    assert JoinPath(["root", first]) == "root->" + first;
    assert JoinPath(["root", first, second]) == "root->" + first + "->" + second;
  }

  lemma UnequalTwoDown(first: string, second: string, left: string, right: string)
    ensures Report(["root"], Diverges([first, second], Unequal(left, right)))
         == Returned(Failure("root->" + first + "->" + second + ": " + left + " != " + right))
  {
    TwoDown(first, second, Unequal(left, right));
    assert "root->" + first + "->" + second + ": " + (left + " != " + right)
        == "root->" + first + "->" + second + ": " + left + " != " + right;
  }

  // ---------------------------------------------------------------- steps shared by the scenarios

  /** Two boxed values of one class compare by `equals` and render with `toString`. */
  lemma LeafVerdict(p: Payload, q: Payload)
    requires BoxName(p) == BoxName(q)
    ensures Judge(Early, BuiltinValueTypes, Scalar(p), Scalar(q))
         == if p == q then Same else Diverges([], Unequal(RenderPayload(p), RenderPayload(q)))
  {
    BoxedValuesAreValueTypes(BuiltinValueTypes, Scalar(p));
    JudgeCases(Early, BuiltinValueTypes, Scalar(p), Scalar(q));
  }

  /** Two distinct objects with one field: the outcome is the field's, under its name. */
  lemma OneFieldVerdict(a: Value, b: Value)
    requires DistinctOfOneClass(BuiltinValueTypes, a, b) && a.Node? && a.shape.Plain? && |a.fields| == 1
    ensures |b.fields| == 1
    ensures Judge(Early, BuiltinValueTypes, a, b)
         == Under(a.fields[0].name, Judge(Early, BuiltinValueTypes, a.fields[0].value, b.fields[0].value))
  {
    JudgeDescends(Early, BuiltinValueTypes, a, b);
    var v := Judge(Early, BuiltinValueTypes, a.fields[0].value, b.fields[0].value);
    assert FieldsPass(Early, BuiltinValueTypes, a.fields, b.fields, 0)
        == if v.Same? then FieldsPass(Early, BuiltinValueTypes, a.fields, b.fields, 1) else Under(a.fields[0].name, v);
  }

  /** Two distinct `ExampleOne` instances compare their one field. */
  lemma ExampleOnePair(i: nat, j: nat, x: int, y: int)
    requires i != j
    ensures Judge(Early, BuiltinValueTypes, ExampleOne(i, x), ExampleOne(j, y))
         == if x == y then Same else Diverges(["firstField"], Unequal(IntToString(x), IntToString(y)))
  {
    assert ExampleOneClass !in BuiltinValueTypes;
    OneFieldVerdict(ExampleOne(i, x), ExampleOne(j, y));
    LeafVerdict(Long(x), Long(y));
  }

  // ---------------------------------------------------------------- plain objects

  lemma IdenticalObjectsAreDeepCopies(i: nat, j: nat, x: int)
    requires i != j
    ensures Run(ExampleOne(i, x), ExampleOne(j, x)) == Returned(Success())
  {
    ExampleOnePair(i, j, x, x);
  }

  lemma ObjectIsNotACopyOfItself(i: nat, x: int)
    ensures Run(ExampleOne(i, x), ExampleOne(i, x))
         == Returned(Failure("root: " + "The same instance cannot be a deep copy of itself"))
  {
    assert ExampleOneClass !in BuiltinValueTypes;
    NoObjectIsACopyOfItself(Early, BuiltinValueTypes, ExampleOne(i, x));
  }

  lemma DifferingFieldFails(i: nat, j: nat, x: int, y: int)
    requires i != j && x != y
    ensures Run(ExampleOne(i, x), ExampleOne(j, y))
         == Returned(Failure("root->" + "firstField" + ": " + IntToString(x) + " != " + IntToString(y)))
  {
    ExampleOnePair(i, j, x, y);
    UnequalOneDown("firstField", IntToString(x), IntToString(y));
  }

  /** `ExampleTwo`: the first field decides when it differs, whatever the second holds. */
  lemma FirstNonMatchingFieldStops(i: nat, j: nat, a1: int, a2: int, b1: int, b2: int)
    requires i != j && a1 != b1
    ensures Run(ExampleTwo(i, a1, a2), ExampleTwo(j, b1, b2))
         == Returned(Failure("root->" + "firstField" + ": " + IntToString(a1) + " != " + IntToString(b1)))
  {
    var one, two := ExampleTwo(i, a1, a2), ExampleTwo(j, b1, b2);
    assert ExampleTwoClass !in BuiltinValueTypes;
    LeafVerdict(Long(a1), Long(b1));
    FirstFailingFieldDecides(Early, BuiltinValueTypes, one, two, 0);
    UnequalOneDown("firstField", IntToString(a1), IntToString(b1));
  }

  /** `ExampleTwo`: with the first fields equal, the second decides. */
  lemma SecondFieldDecidesAfterFirstMatches(i: nat, j: nat, a1: int, a2: int, b2: int)
    requires i != j && a2 != b2
    ensures Run(ExampleTwo(i, a1, a2), ExampleTwo(j, a1, b2))
         == Returned(Failure("root->" + "secondField" + ": " + IntToString(a2) + " != " + IntToString(b2)))
  {
    assert ExampleTwoClass !in BuiltinValueTypes;
    LeafVerdict(Long(a1), Long(a1));
    LeafVerdict(Long(a2), Long(b2));
    FirstFailingFieldDecides(Early, BuiltinValueTypes, ExampleTwo(i, a1, a2), ExampleTwo(j, a1, b2), 1);
    UnequalOneDown("secondField", IntToString(a2), IntToString(b2));
  }

  lemma TwoMatchingFieldsSucceed(i: nat, j: nat, a1: int, a2: int)
    requires i != j
    ensures Run(ExampleTwo(i, a1, a2), ExampleTwo(j, a1, a2)) == Returned(Success())
  {
    var one, two := ExampleTwo(i, a1, a2), ExampleTwo(j, a1, a2);
    assert ExampleTwoClass !in BuiltinValueTypes;
    LeafVerdict(Long(a1), Long(a1));
    LeafVerdict(Long(a2), Long(a2));
    JudgeDescends(Early, BuiltinValueTypes, one, two);
    FieldsPassSame(Early, BuiltinValueTypes, one.fields, two.fields, 0);
  }

  /** `ExampleThree`: a string field compares by `equals`, shared instance or not. */
  lemma StringFieldsCompareByEquals(i: nat, j: nat, s: string, t: string)
    requires i != j
    ensures s == t ==> Run(ExampleThree(i, s), ExampleThree(j, t)) == Returned(Success())
    ensures s != t ==>
      Run(ExampleThree(i, s), ExampleThree(j, t)) == Returned(Failure("root->" + "firstField" + ": " + s + " != " + t))
  {
    assert ExampleThreeClass !in BuiltinValueTypes;
    OneFieldVerdict(ExampleThree(i, s), ExampleThree(j, t));
    LeafVerdict(Str(s), Str(t));
    UnequalOneDown("firstField", s, t);
  }

  /** `ExampleFour`: a shared nested instance fails under the field's name. */
  lemma SharedNestedInstanceFails(i: nat, j: nat, k: nat, x: int)
    requires i != j
    ensures Run(ExampleFour(i, ExampleOne(k, x)), ExampleFour(j, ExampleOne(k, x)))
         == Returned(Failure("root->" + "exampleOne" + ": " + "The same instance cannot be a deep copy of itself"))
  {
    assert ExampleFourClass !in BuiltinValueTypes && ExampleOneClass !in BuiltinValueTypes;
    OneFieldVerdict(ExampleFour(i, ExampleOne(k, x)), ExampleFour(j, ExampleOne(k, x)));
    NoObjectIsACopyOfItself(Early, BuiltinValueTypes, ExampleOne(k, x));
    OneDown("exampleOne", SameInstanceReason);
  }

  lemma NestedDeepCopySucceeds(i: nat, j: nat, k: nat, l: nat, x: int)
    requires i != j && k != l
    ensures Run(ExampleFour(i, ExampleOne(k, x)), ExampleFour(j, ExampleOne(l, x))) == Returned(Success())
  {
    assert ExampleFourClass !in BuiltinValueTypes;
    OneFieldVerdict(ExampleFour(i, ExampleOne(k, x)), ExampleFour(j, ExampleOne(l, x)));
    ExampleOnePair(k, l, x, x);
  }

  lemma DifferentClassesFail(s: string, i: nat, x: int)
    ensures Run(Scalar(Str(s)), ExampleOne(i, x))
         == Returned(Failure("root: " + "objects are not the same type (" + "java.lang.String" + " versus " + ExampleOneClass + ")"))
  {
    JudgeCases(Early, BuiltinValueTypes, Scalar(Str(s)), ExampleOne(i, x));
    NotSameTypeAtRoot("java.lang.String", ExampleOneClass);
  }

  // ---------------------------------------------------------------- maps

  lemma StringMapKeys(keys: seq<string>)
    ensures |keys| == 1 ==> StringKeys(keys) == [BoxedKey(Str(keys[0]))]
    ensures |keys| == 2 ==> StringKeys(keys) == [BoxedKey(Str(keys[0])), BoxedKey(Str(keys[1]))]
  {
  }

  /** Two distinct maps compare entry by entry. */
  lemma StringMapsDescend(i: nat, j: nat, keys1: seq<string>, values1: seq<Value>, keys2: seq<string>, values2: seq<Value>)
    requires i != j
    ensures Judge(Early, BuiltinValueTypes, StringMap(i, keys1, values1), StringMap(j, keys2, values2))
         == MapVerdict(Early, BuiltinValueTypes, StringKeys(keys1), values1, StringKeys(keys2), values2)
  {
    assert "java.util.HashMap" !in BuiltinValueTypes;
    JudgeDescends(Early, BuiltinValueTypes, StringMap(i, keys1, values1), StringMap(j, keys2, values2));
  }

  /** Two maps with the one key "one": the values under it decide. */
  lemma SameKeyVerdict(i: nat, j: nat, v1: Value, v2: Value)
    requires i != j
    ensures Judge(Early, BuiltinValueTypes, StringMap(i, ["one"], [v1]), StringMap(j, ["one"], [v2]))
         == Under("get(one)", Judge(Early, BuiltinValueTypes, v1, v2))
  {
    var key := BoxedKey(Str("one"));
    StringMapKeys(["one"]);
    StringMapsDescend(i, j, ["one"], [v1], ["one"], [v2]);
    assert Get([key], [v1], key) == v1 && Get([key], [v2], key) == v2;
    assert KeySegment(key) == "get(one)";
    var v := Judge(Early, BuiltinValueTypes, v1, v2);
    assert MapPass(Early, BuiltinValueTypes, [key], [key], [v1], [key], [v2], 0)
        == if v.Same? then Same else Under("get(one)", v);
  }

  lemma SharedMapValueFails(i: nat, j: nat, k: nat, x: int)
    requires i != j
    ensures Run(StringMap(i, ["one"], [ExampleOne(k, x)]), StringMap(j, ["one"], [ExampleOne(k, x)]))
         == Returned(Failure("root->" + "get(one)" + ": " + "The same instance cannot be a deep copy of itself"))
  {
    assert ExampleOneClass !in BuiltinValueTypes;
    SameKeyVerdict(i, j, ExampleOne(k, x), ExampleOne(k, x));
    NoObjectIsACopyOfItself(Early, BuiltinValueTypes, ExampleOne(k, x));
    OneDown("get(one)", SameInstanceReason);
  }

  lemma MapOfCopiesSucceeds(i: nat, j: nat, k: nat, l: nat, x: int)
    requires i != j && k != l
    ensures Run(StringMap(i, ["one"], [ExampleOne(k, x)]), StringMap(j, ["one"], [ExampleOne(l, x)])) == Returned(Success())
  {
    SameKeyVerdict(i, j, ExampleOne(k, x), ExampleOne(l, x));
    ExampleOnePair(k, l, x, x);
  }

  lemma DifferentValueAtSameKeyFails(i: nat, j: nat, k: nat, l: nat, x: int, y: int)
    requires i != j && k != l && x != y
    ensures Run(StringMap(i, ["one"], [ExampleOne(k, x)]), StringMap(j, ["one"], [ExampleOne(l, y)]))
         == Returned(Failure("root->" + "get(one)" + "->" + "firstField" + ": " + IntToString(x) + " != " + IntToString(y)))
  {
    SameKeyVerdict(i, j, ExampleOne(k, x), ExampleOne(l, y));
    ExampleOnePair(k, l, x, y);
    assert ["get(one)"] + ["firstField"] == ["get(one)", "firstField"];
    UnequalTwoDown("get(one)", "firstField", IntToString(x), IntToString(y));
  }

  lemma DifferentKeysFail(i: nat, j: nat, k: nat, l: nat, x: int)
    requires i != j
    ensures Run(StringMap(i, ["one"], [ExampleOne(k, x)]), StringMap(j, ["two"], [ExampleOne(l, x)]))
         == Returned(Failure("root->" + "get(one)" + ": " + Render(ExampleOne(k, x)) + " != " + "null"))
  {
    var one, two := BoxedKey(Str("one")), BoxedKey(Str("two"));
    StringMapKeys(["one"]);
    StringMapKeys(["two"]);
    StringMapsDescend(i, j, ["one"], [ExampleOne(k, x)], ["two"], [ExampleOne(l, x)]);
    MissingKeyComparesWithNull(Early, BuiltinValueTypes, [one], [ExampleOne(k, x)], [two], [ExampleOne(l, x)], 0);
    assert KeySegment(one) == "get(one)";
    UnequalOneDown("get(one)", Render(ExampleOne(k, x)), "null");
  }

  /** Map `{one=v1}` against `{one=v2, two=v3}` in that iteration order, when `v1` and `v2` match. */
  lemma ExtraEntryVerdict(v1: Value, v2: Value, v3: Value)
    requires Judge(Early, BuiltinValueTypes, v1, v2).Same? && !v3.Null?
    ensures MapVerdict(Early, BuiltinValueTypes, [BoxedKey(Str("one"))], [v1],
                       [BoxedKey(Str("one")), BoxedKey(Str("two"))], [v2, v3])
         == Diverges(["get(two)"], Unequal("null", Render(v3)))
  {
    var one, two := BoxedKey(Str("one")), BoxedKey(Str("two"));
    var keys1, values1, keys2, values2 := [one], [v1], [one, two], [v2, v3];
    assert Get(keys1, values1, one) == v1 && Get(keys2, values2, one) == v2;
    ExtraKeyComparesWithNull(Early, BuiltinValueTypes, keys1, values1, keys2, values2, 1);
    assert KeySegment(two) == "get(two)";
  }

  lemma ExtraEntryFails(i: nat, j: nat, k: nat, l: nat, m: nat, x: int, y: int)
    requires i != j && k != l
    ensures Run(StringMap(i, ["one"], [ExampleOne(k, x)]), StringMap(j, ["one", "two"], [ExampleOne(l, x), ExampleOne(m, y)]))
         == Returned(Failure("root->" + "get(two)" + ": " + "null" + " != " + Render(ExampleOne(m, y))))
  {
    StringMapKeys(["one"]);
    StringMapKeys(["one", "two"]);
    StringMapsDescend(i, j, ["one"], [ExampleOne(k, x)], ["one", "two"], [ExampleOne(l, x), ExampleOne(m, y)]);
    ExampleOnePair(k, l, x, x);
    ExtraEntryVerdict(ExampleOne(k, x), ExampleOne(l, x), ExampleOne(m, y));
    UnequalOneDown("get(two)", "null", Render(ExampleOne(m, y)));
  }

  // ---------------------------------------------------------------- lists

  /** Two distinct lists are compared position by position, padded with null. */
  lemma ListsDescend(i: nat, j: nat, members1: seq<Value>, members2: seq<Value>)
    requires i != j
    ensures Judge(Early, BuiltinValueTypes, ArrayList(i, members1), ArrayList(j, members2))
         == PaddedVerdict(Early, BuiltinValueTypes, AtCalls, members1, members2)
  {
    assert "java.util.ArrayList" !in BuiltinValueTypes;
    JudgeDescends(Early, BuiltinValueTypes, ArrayList(i, members1), ArrayList(j, members2));
  }

  /** Two one-element lists: the elements decide, under `at(0)`. */
  lemma SingletonListsVerdict(v1: Value, v2: Value)
    ensures !Judge(Early, BuiltinValueTypes, v1, v2).Same? ==>
      PaddedVerdict(Early, BuiltinValueTypes, AtCalls, [v1], [v2]) == Under("at(0)", Judge(Early, BuiltinValueTypes, v1, v2))
    ensures Judge(Early, BuiltinValueTypes, v1, v2).Same? && Judge(Early, BuiltinValueTypes, v2, v1).Same? ==>
      PaddedVerdict(Early, BuiltinValueTypes, AtCalls, [v1], [v2]) == Same
  {
    assert Segment(AtCalls, 0) == "at(0)";
    PaddedSame(Early, BuiltinValueTypes, AtCalls, [v1], [v2]);
  }

  lemma SharedListElementFails(i: nat, j: nat, k: nat, x: int)
    requires i != j
    ensures Run(ArrayList(i, [ExampleOne(k, x)]), ArrayList(j, [ExampleOne(k, x)]))
         == Returned(Failure("root->" + "at(0)" + ": " + "The same instance cannot be a deep copy of itself"))
  {
    assert ExampleOneClass !in BuiltinValueTypes;
    ListsDescend(i, j, [ExampleOne(k, x)], [ExampleOne(k, x)]);
    NoObjectIsACopyOfItself(Early, BuiltinValueTypes, ExampleOne(k, x));
    SingletonListsVerdict(ExampleOne(k, x), ExampleOne(k, x));
    OneDown("at(0)", SameInstanceReason);
  }

  lemma ListOfCopiesSucceeds(i: nat, j: nat, k: nat, l: nat, x: int)
    requires i != j && k != l
    ensures Run(ArrayList(i, [ExampleOne(k, x)]), ArrayList(j, [ExampleOne(l, x)])) == Returned(Success())
  {
    ListsDescend(i, j, [ExampleOne(k, x)], [ExampleOne(l, x)]);
    ExampleOnePair(k, l, x, x);
    ExampleOnePair(l, k, x, x);
    SingletonListsVerdict(ExampleOne(k, x), ExampleOne(l, x));
  }

  lemma DifferentListElementFails(i: nat, j: nat, k: nat, l: nat, x: int, y: int)
    requires i != j && k != l && x != y
    ensures Run(ArrayList(i, [ExampleOne(k, x)]), ArrayList(j, [ExampleOne(l, y)]))
         == Returned(Failure("root->" + "at(0)" + "->" + "firstField" + ": " + IntToString(x) + " != " + IntToString(y)))
  {
    ListsDescend(i, j, [ExampleOne(k, x)], [ExampleOne(l, y)]);
    ExampleOnePair(k, l, x, y);
    SingletonListsVerdict(ExampleOne(k, x), ExampleOne(l, y));
    assert ["at(0)"] + ["firstField"] == ["at(0)", "firstField"];
    UnequalTwoDown("at(0)", "firstField", IntToString(x), IntToString(y));
  }

  /** A list one element longer than another, whose first elements match either way round. */
  lemma LongerListVerdict(v1: Value, v2: Value, v3: Value)
    requires Judge(Early, BuiltinValueTypes, v1, v2).Same? && Judge(Early, BuiltinValueTypes, v2, v1).Same? && !v3.Null?
    ensures PaddedVerdict(Early, BuiltinValueTypes, AtCalls, [v1], [v2, v3]) == Diverges(["at(1)"], Unequal("null", Render(v3)))
    ensures PaddedVerdict(Early, BuiltinValueTypes, AtCalls, [v2, v3], [v1]) == Diverges(["at(1)"], Unequal(Render(v3), "null"))
  {
    assert Segment(AtCalls, 1) == "at(1)";
    JudgeCases(Early, BuiltinValueTypes, Null, v3);
    JudgeCases(Early, BuiltinValueTypes, v3, Null);
    assert PaddedPass(Early, BuiltinValueTypes, AtCalls, [v1], [v2, v3], false, 0) == Same;
    assert PaddedPass(Early, BuiltinValueTypes, AtCalls, [v2, v3], [v1], true, 1)
        == Under("at(1)", Diverges([], Unequal("null", Render(v3))));
    assert PaddedPass(Early, BuiltinValueTypes, AtCalls, [v2, v3], [v1], false, 1)
        == Under("at(1)", Diverges([], Unequal(Render(v3), "null")));
  }

  lemma ListsOfDifferentSizesFail(i: nat, j: nat, k: nat, l: nat, m: nat, x: int, y: int)
    requires i != j && k != l
    ensures Run(ArrayList(i, [ExampleOne(k, x)]), ArrayList(j, [ExampleOne(l, x), ExampleOne(m, y)]))
         == Returned(Failure("root->" + "at(1)" + ": " + "null" + " != " + Render(ExampleOne(m, y))))
    ensures Run(ArrayList(j, [ExampleOne(l, x), ExampleOne(m, y)]), ArrayList(i, [ExampleOne(k, x)]))
         == Returned(Failure("root->" + "at(1)" + ": " + Render(ExampleOne(m, y)) + " != " + "null"))
  {
    var shorter, longer := [ExampleOne(k, x)], [ExampleOne(l, x), ExampleOne(m, y)];
    ListsDescend(i, j, shorter, longer);
    ListsDescend(j, i, longer, shorter);
    ExampleOnePair(k, l, x, x);
    ExampleOnePair(l, k, x, x);
    LongerListVerdict(ExampleOne(k, x), ExampleOne(l, x), ExampleOne(m, y));
    UnequalOneDown("at(1)", "null", Render(ExampleOne(m, y)));
    UnequalOneDown("at(1)", Render(ExampleOne(m, y)), "null");
  }

  // ---------------------------------------------------------------- primitives and primitive arrays

  lemma EqualBoxedValuesAreCopies(p: Payload)
    ensures Run(Scalar(p), Scalar(p)) == Returned(Success())
  {
    LeafVerdict(p, p);
  }

  lemma ArrayClassesAreNotValueTypes(kind: PrimKind)
    ensures ArrayClassName(kind) !in BuiltinValueTypes
  {
  }

  /** Two distinct primitive arrays of one component type are compared element by element. */
  lemma ArraysDescend(i: nat, j: nat, kind: PrimKind, items1: seq<Payload>, items2: seq<Payload>)
    requires i != j
    ensures Judge(Early, BuiltinValueTypes, PrimitiveArray(i, kind, items1), PrimitiveArray(j, kind, items2))
         == PrimitiveVerdict(Early, BuiltinValueTypes, kind, items1, items2)
  {
    ArrayClassesAreNotValueTypes(kind);
    JudgeDescends(Early, BuiltinValueTypes, PrimitiveArray(i, kind, items1), PrimitiveArray(j, kind, items2));
  }

  lemma SameArrayFails(i: nat, kind: PrimKind, items: seq<Payload>)
    ensures Run(PrimitiveArray(i, kind, items), PrimitiveArray(i, kind, items))
         == Returned(Failure("root: " + "The same instance cannot be a deep copy of itself"))
  {
    ArrayClassesAreNotValueTypes(kind);
    NoObjectIsACopyOfItself(Early, BuiltinValueTypes, PrimitiveArray(i, kind, items));
  }

  lemma EqualArraysSucceed(i: nat, j: nat, kind: PrimKind, items: seq<Payload>)
    requires i != j && Supported(kind)
    ensures Run(PrimitiveArray(i, kind, items), PrimitiveArray(j, kind, items)) == Returned(Success())
  {
    ArraysDescend(i, j, kind, items, items);
    BoxedSame(Early, BuiltinValueTypes, items, items);
  }

  lemma ArraysDifferingAtSecondFail(i: nat, j: nat, kind: PrimKind, p: Payload, q: Payload, r: Payload)
    requires i != j && Supported(kind) && q != r && BoxName(q) == BoxName(r)
    ensures Run(PrimitiveArray(i, kind, [p, q]), PrimitiveArray(j, kind, [p, r]))
         == Returned(Failure("root->" + "[1]" + ": " + RenderPayload(q) + " != " + RenderPayload(r)))
  {
    ArraysDescend(i, j, kind, [p, q], [p, r]);
    assert [p, q][..1] == [p, r][..1];
    PrimitiveArraysFailAtFirstDifference(Early, BuiltinValueTypes, kind, [p, q], [p, r], 1);
    assert Segment(Brackets, 1) == "[1]";
    UnequalOneDown("[1]", RenderPayload(q), RenderPayload(r));
  }

  lemma LongerArrayMeetsNull(i: nat, j: nat, kind: PrimKind, p: Payload, q: Payload)
    requires i != j && Supported(kind)
    ensures Run(PrimitiveArray(i, kind, [p, q]), PrimitiveArray(j, kind, [p]))
         == Returned(Failure("root->" + "[1]" + ": " + RenderPayload(q) + " != " + "null"))
    ensures Run(PrimitiveArray(i, kind, [p]), PrimitiveArray(j, kind, [p, q]))
         == Returned(Failure("root->" + "[1]" + ": " + "null" + " != " + RenderPayload(q)))
  {
    ArraysDescend(i, j, kind, [p, q], [p]);
    ArraysDescend(i, j, kind, [p], [p, q]);
    assert [p, q][..1] == [p];
    PrimitiveArraysPadWithNull(Early, BuiltinValueTypes, kind, [p, q], [p]);
    PrimitiveArraysPadWithNull(Early, BuiltinValueTypes, kind, [p], [p, q]);
    assert Segment(Brackets, 1) == "[1]";
    UnequalOneDown("[1]", RenderPayload(q), "null");
    UnequalOneDown("[1]", "null", RenderPayload(q));
  }
}
