# Deep-copy matcher (reflective-assert), modelled in Dafny

`DeepCopyAssertion.matches(one, two)` decides whether `two` is a deep copy of
`one`. A deep copy has the same classes throughout. Its value-typed leaves are
`equals`: strings, the boxed Long, Integer, Byte, Float, Double and Boolean,
and any extra immutable classes given to the constructor. Constants of an enum
class are the same constant. Any other object reached through a field, an
array or collection element or a map value is not the same instance as the
object at the same position in the original.

Not everything is compared:
- Map keys are looked up, never walked. A key compared by identity must be
  the very same object in both maps.
- Only the fields the object's own class declares are compared; inherited
  fields are not.
- A constant with a class body belongs to an anonymous subclass that is not
  an enum class, so it is walked field by field like any other object.
- Boxed Short and Character are not value types and are walked as objects.
- Identity is tested only between the two objects at one position. An object
  of the original that the copy holds at a different position goes unseen
  (see Findings).

The walk is depth-first. It keeps a stack of path segments (`fieldPath`) that
starts as `root`:
- a field pushes its name;
- an array position pushes `[i]`;
- a collection position pushes `at(i)`;
- a map entry pushes `get(key)`.

The first divergence becomes a failed `DeepCopyMatchResult` whose description
is the stack joined with `->`, then `: `, then a reason. The reasons are
`left != right`, `objects are not the same type (A versus B)` and
`The same instance cannot be a deep copy of itself`.

Two versions of the matcher are modelled:
- **Current** is `src/net/digihippo/reflect/DeepCopyAssertion.java`.
- **Early** is the private copy inside `ReflectiveDeepCopyTest.java`. It pads a
  shorter list or object array with `null`, dispatches only on `List`, has no
  enum branch, and has no constructor-supplied value types.

The modules are:
- `MatchResults`: the result record and its two factories.
- `Values`: the object graph as a finite tree.
  - Null, boxed scalars, enum constants, and objects with an identity tag,
    an equality tag (what their `equals` compares), a class name, a `toString` text, declared fields and a shape (plain,
    primitive array, object array, map, collection).
  - Identity, `equals`, `HashMap.get`, and the text that string
    concatenation writes.
- `Verdicts`: `Judge`, a pure function giving what one `matches` call decides
  as a verdict relative to the path on entry, and `Report`, which renders that
  verdict as a result or an exception.
- `Passes`: what each loop of the matcher decides, stated without the loop.
- `Properties`: a declarative definition of a deep copy, and the theorem that
  the Current matcher succeeds exactly on deep copies.
- `Behaviours`: individual promises of the algorithm, and where the two
  versions differ.
- `Matcher` and `EarlyMatcher`: the two matchers as classes.
  - Each has the mutable `fieldPath` stack as a `seq<string>` field.
  - Their methods push and pop inside `while` loops.
  - Each method is proved to return `Report(entry path, Judge(...))`.
  - Each method leaves the stack at the entry path when it succeeds. When it
    fails, it leaves the segments down to the divergence, which the source
    never pops.
- `Intended`: two comparisons as the design describes them (see Findings):
  - a deep copy that shares no object with the original at any position;
  - a map comparison that tells a missing key from a key mapped to null.
- `Scenarios`: every test method of `ReflectiveDeepCopyTest.java` as a lemma
  about a fresh Early matcher. Each is stated for all object identities and,
  where the test's literals are incidental, for all field values.

## Model

| member | source | states |
|---|---|---|
| MatchResults.Success | src/net/digihippo/reflect/DeepCopyMatchResult.java:19-22 | `success()` is a deep copy with no description |
| MatchResults.Failure | src/net/digihippo/reflect/DeepCopyMatchResult.java:14-17 | `failure(m)` is not a deep copy and carries exactly `m` |
| MatchResults.ConstructorBypassesInvariant | src/net/digihippo/reflect/DeepCopyMatchResult.java:8-22 | "description present iff failure" holds of a constructed result exactly when it is one the `success()` or `failure(m)` factory builds; the public constructor stores its arguments verbatim, so it can also build a failure without a description or a success with one |
| Values.ClassOf | src/net/digihippo/reflect/DeepCopyAssertion.java:42-47 | `getClass()` determines the class name, the kind (boxed, enum, object) and the declared field names and shape |
| Values.EqualsIsAnEquivalence | src/net/digihippo/reflect/DeepCopyAssertion.java:471-481 | the `equals` used on value types is reflexive, symmetric and transitive |
| Values.GetFindsFirst | src/net/digihippo/reflect/DeepCopyAssertion.java:445 | `get` on a map returns the value stored under an equal key |
| Values.GetPresent | src/net/digihippo/reflect/DeepCopyAssertion.java:445 | `get` of a key some entry holds returns one of the map's values |
| Values.GetMissing | src/net/digihippo/reflect/DeepCopyAssertion.java:445 | `get` of a key the map lacks returns null |
| Values.BoxedValuesAreValueTypes | src/net/digihippo/reflect/DeepCopyAssertion.java:9-18 | strings and boxed primitives are always value types |
| Verdicts.Continues | src/net/digihippo/reflect/DeepCopyAssertion.java:108-114 | a call that returned "deep copy" had verdict Same, so the caller's loop continues |
| Verdicts.StopsUnder | src/net/digihippo/reflect/DeepCopyAssertion.java:108-113 | a failure after a push is the inner verdict under that segment, and the segment stays on the stack |
| Verdicts.ReportSucceedsIffSame | src/net/digihippo/reflect/DeepCopyAssertion.java:493-508 | a returned result says "deep copy" exactly for verdict Same, and always comes from a factory |
| Verdicts.JudgeCases | src/net/digihippo/reflect/DeepCopyAssertion.java:32-52 | null pairs, class mismatch and value types are decided at the current path by `equals`, with the source's messages |
| Verdicts.JudgeDescends | src/net/digihippo/reflect/DeepCopyAssertion.java:54-86 | enum constants compare by identity (Current), a shared instance fails, and otherwise the dispatch goes to arrays, maps, collections or fields |
| Passes.FieldsPassSame | src/net/digihippo/reflect/DeepCopyAssertion.java:94-118 | the field loop succeeds exactly when every field pair matches |
| Passes.AbsentPassSame | src/net/digihippo/reflect/DeepCopyAssertion.java:157-192 | one `<absent>` pass succeeds exactly when the other side is long enough and every aligned pair matches |
| Passes.PaddedPassSame | src/net/digihippo/reflect/DeepCopyAssertion.java:194-223 | one null-padding pass succeeds exactly when every position matches its partner or null |
| Passes.MapPassSame | src/net/digihippo/reflect/DeepCopyAssertion.java:440-452 | one entry pass succeeds exactly when no key is null and every key yields matching values from both maps |
| Passes.PositionalSame | src/net/digihippo/reflect/DeepCopyAssertion.java:157-192 | object arrays and collections match exactly when they have equal length and every aligned pair matches |
| Passes.PaddedSame | src/net/digihippo/reflect/DeepCopyAssertion.java:194-223 | both padding passes succeed exactly when every position of either side matches its partner or null |
| Passes.MapSame | src/net/digihippo/reflect/DeepCopyAssertion.java:436-469 | maps match exactly when every key of either map is non-null and yields matching values from both |
| Passes.MapPassReaches | src/net/digihippo/reflect/DeepCopyAssertion.java:440-452 | an entry pass whose first entries have non-null keys and matching values reaches the next entry |
| Passes.MapSameKeySets | src/net/digihippo/reflect/DeepCopyAssertion.java:436-469 | when neither map holds a null value, matching maps have the same keys, each key of either map equal to a key of the other |
| Passes.ScalarSame | src/net/digihippo/reflect/DeepCopyAssertion.java:471-481 | a boxed element matches exactly an equal boxed element, on either side |
| Passes.BoxedSame | src/net/digihippo/reflect/DeepCopyAssertion.java:194-378 | primitive arrays of a supported kind match exactly when their contents are equal |
| Passes.FieldsPassFirstFailure | src/net/digihippo/reflect/DeepCopyAssertion.java:97-115 | the first failing field decides the result, under its name, and later fields are not visited |
| Passes.AbsentPassReachesEnd | src/net/digihippo/reflect/DeepCopyAssertion.java:159-174 | when every aligned pair matches, the pass reaches the first missing position |
| Passes.PaddedPassReaches | src/net/digihippo/reflect/DeepCopyAssertion.java:196-208 | a padding pass whose first positions match reaches the next position |
| Properties.SharingAcrossPositionsGoesUnseen | src/net/digihippo/reflect/DeepCopyAssertion.java:66-69 | as written, identity is tested only at aligned positions: a copy holding, in field `q`, the very object the original holds in field `p` is accepted, though that object is reached from both sides |
| Properties.SameIffDeepCopy | src/net/digihippo/reflect/DeepCopyAssertion.java:28-92 | the Current matcher reports success exactly when the second value is a deep copy of the first (declarative definition `IsDeepCopy`) |
| Properties.ElementsSameIffCopies | src/net/digihippo/reflect/DeepCopyAssertion.java:157-192 | positionwise success is the same as elementwise deep copy |
| Properties.MapValuesSameIffCopies | src/net/digihippo/reflect/DeepCopyAssertion.java:436-469 | per-key success is the same as per-key deep copy |
| Properties.DeepCopySymmetric | src/net/digihippo/reflect/DeepCopyAssertion.java:28-92 | being a deep copy is symmetric |
| Properties.ElementsSymmetric | src/net/digihippo/reflect/DeepCopyAssertion.java:157-192 | elementwise deep copy is symmetric |
| Properties.MapValuesSymmetric | src/net/digihippo/reflect/DeepCopyAssertion.java:436-469 | per-key deep copy is symmetric |
| Properties.SuccessIsSymmetric | src/net/digihippo/reflect/DeepCopyAssertion.java:28-92 | whether `matches` succeeds does not depend on argument order |
| Behaviours.NoObjectIsACopyOfItself | src/net/digihippo/reflect/DeepCopyAssertion.java:66-69 | any non-value object, and (Early) any enum constant, fails against itself at the current path with the same-instance message |
| Behaviours.ValueTypesCompareByEquals | src/net/digihippo/reflect/DeepCopyAssertion.java:49-52 | value types match exactly when `equals` holds: equal content for boxed scalars, equal equality tags for objects of a registered class, the same constant for enums; a value always matches itself |
| Behaviours.EarlyEnumsCompareByFields | test/net/digihippo/reflect/ReflectiveDeepCopyTest.java:483-556 | as written, the Early matcher accepts two different constants of a field-less enum and rejects a constant against itself |
| Behaviours.CurrentEnumsCompareByIdentity | src/net/digihippo/reflect/DeepCopyAssertion.java:54-64 | two constants of one enum class match exactly when they are the same constant, and otherwise fail with `name1 != name2` |
| Behaviours.FirstFailingFieldDecides | src/net/digihippo/reflect/DeepCopyAssertion.java:94-118 | the verdict on two objects is the first failing field's verdict under its name |
| Behaviours.MissingPositionIsAbsent | src/net/digihippo/reflect/DeepCopyAssertion.java:157-192 | a length mismatch fails at the first missing position against `<absent>`, on the shorter side |
| Behaviours.PrimitiveArraysPadWithNull | src/net/digihippo/reflect/DeepCopyAssertion.java:194-223 | a primitive array that extends the other fails at the first extra position against `null` |
| Behaviours.PrimitiveArraysFailAtFirstDifference | src/net/digihippo/reflect/DeepCopyAssertion.java:194-223 | equal-length primitive arrays fail at `[i]` for the first differing position, with both elements' text |
| Behaviours.UnsupportedArraysThrow | src/net/digihippo/reflect/DeepCopyAssertion.java:120-155 | short and char arrays throw "I have no idea what ... is." instead of returning |
| Behaviours.MissingKeyComparesWithNull | src/net/digihippo/reflect/DeepCopyAssertion.java:440-452 | once the entries before it have matched, an entry of the first map whose key the second lacks fails under `get(key)` as `value != null`, at any position |
| Behaviours.ExtraKeyComparesWithNull | src/net/digihippo/reflect/DeepCopyAssertion.java:454-466 | once the first map and the earlier entries of the second have matched, an entry whose key only the second map has fails under `get(key)` as `null != value`, at any position |
| Behaviours.NullValuedEntryMatchesMissingKey | src/net/digihippo/reflect/DeepCopyAssertion.java:436-469 | `{k: null}` and `{}` match in both orders, because `get` cannot tell them apart |
| Behaviours.NullKeyThrows | src/net/digihippo/reflect/DeepCopyAssertion.java:440-452 | a null key of the first map, at any position whose earlier entries matched, makes `key.toString()` throw |
| Behaviours.SecondMapNullKeyThrows | src/net/digihippo/reflect/DeepCopyAssertion.java:454-466 | once the first map has matched, a null key of the second map at any position whose earlier entries matched makes `key.toString()` throw |
| Behaviours.EarlyPaddingAcceptsMissingNull | test/net/digihippo/reflect/ReflectiveDeepCopyTest.java:589-619 | as written, the Early matcher accepts `[null]` against `[]`, for arrays and lists |
| Behaviours.CurrentRejectsMissingNull | src/net/digihippo/reflect/DeepCopyAssertion.java:157-192 | the Current matcher rejects `[null]` against `[]` at `[0]` / `at(0)` with `null != <absent>` |
| Intended.KeyedMapPassSame | src/net/digihippo/reflect/DeepCopyAssertion.java:440-466 | one pass of the corrected map comparison succeeds exactly when every key is non-null, present on the other side, and yields matching values |
| Intended.KeyedMapSame | src/net/digihippo/reflect/DeepCopyAssertion.java:436-469 | corrected: two maps match exactly when their key sets are identical and the code's comparison of the values succeeds |
| Intended.KeyedAgreesOnSharedKeys | src/net/digihippo/reflect/DeepCopyAssertion.java:440-466 | wherever every iterated key is present on the other side, the corrected pass reports exactly what the code's pass reports |
| Intended.IsolatedCopyRejectsSharing | src/net/digihippo/reflect/DeepCopyAssertion.java:66-69 | corrected: a copy that shares no object is exactly a pair the matcher accepts whose reached objects are disjoint, so the cross-position pair above is rejected |
| Intended.IsolatedCopyDescends | src/net/digihippo/reflect/DeepCopyAssertion.java:94-118 | corrected: sharing no object passes down to every pair the walk compares next (aligned fields, aligned elements, the two values of a key), so one walk can check it |
| Intended.KeyedRejectsNullForMissingKey | src/net/digihippo/reflect/DeepCopyAssertion.java:436-469 | corrected: `{k=null}` against `{}` fails under `get(k)` as `null != <absent>`, and the mirror image in the other order |
| Matcher.DeepCopyAssertion.constructor | src/net/digihippo/reflect/DeepCopyAssertion.java:22-26 | the value types are the built-ins plus the given classes, and the path is `root` |
| Matcher.DeepCopyAssertion.Matches | src/net/digihippo/reflect/DeepCopyAssertion.java:28-92 | returns `Report(entry path, Judge(Current, ...))` and leaves the stack at the entry path plus the divergence's segments |
| Matcher.DeepCopyAssertion.FieldByFieldMatch | src/net/digihippo/reflect/DeepCopyAssertion.java:94-118 | the field loop computes the field-by-field verdict and stack |
| Matcher.DeepCopyAssertion.ArrayMatch | src/net/digihippo/reflect/DeepCopyAssertion.java:120-155 | dispatches on component type: the supported primitive kinds, object arrays, and the unsupported throw |
| Matcher.DeepCopyAssertion.ObjectArrayMatch | src/net/digihippo/reflect/DeepCopyAssertion.java:157-192 | two `<absent>` passes over `[i]` compute the positional verdict |
| Matcher.DeepCopyAssertion.PositionalLoop | src/net/digihippo/reflect/DeepCopyAssertion.java:159-190 | one indexed pass with the `<absent>` sentinel, under `[i]` or `at(i)` |
| Matcher.DeepCopyAssertion.PrimitiveArrayMatch | src/net/digihippo/reflect/DeepCopyAssertion.java:194-378 | the six primitive-array matchers: two null-padding passes over boxed elements |
| Matcher.DeepCopyAssertion.PaddedLoop | src/net/digihippo/reflect/DeepCopyAssertion.java:196-221 | one null-padding pass over boxed primitive elements |
| Matcher.DeepCopyAssertion.CollectionTypeMatch | src/net/digihippo/reflect/DeepCopyAssertion.java:380-434 | two iterator passes under `at(i)` compute the positional verdict |
| Matcher.DeepCopyAssertion.MapTypeMatch | src/net/digihippo/reflect/DeepCopyAssertion.java:436-469 | two entry passes under `get(key)` compute the map verdict, and a null key throws |
| Matcher.DeepCopyAssertion.PerformValueTypeMatch | src/net/digihippo/reflect/DeepCopyAssertion.java:471-481 | succeeds exactly when `one.equals(two)`, and otherwise fails with `one != two` at the current path |
| Matcher.DeepCopyAssertion.ValueNotEqual | src/net/digihippo/reflect/DeepCopyAssertion.java:488-491 | fails with `first != second` at the current path |
| Matcher.DeepCopyAssertion.Fail | src/net/digihippo/reflect/DeepCopyAssertion.java:493-508 | a failure whose description is the stack joined with `->`, then `: ` and the message |
| EarlyMatcher.DeepCopyAssertion.constructor | test/net/digihippo/reflect/ReflectiveDeepCopyTest.java:478-481 | the value types are exactly the built-ins, and the path is `root` |
| EarlyMatcher.DeepCopyAssertion.Matches | test/net/digihippo/reflect/ReflectiveDeepCopyTest.java:483-556 | returns `Report(entry path, Judge(Early, ...))` and leaves the stack at the entry path plus the divergence's segments |
| EarlyMatcher.DeepCopyAssertion.MatchFields | test/net/digihippo/reflect/ReflectiveDeepCopyTest.java:530-549 | the field loop computes the field-by-field verdict and stack |
| EarlyMatcher.DeepCopyAssertion.PerformArrayMatch | test/net/digihippo/reflect/ReflectiveDeepCopyTest.java:558-622 | dispatches on component type; object arrays are padded with null |
| EarlyMatcher.DeepCopyAssertion.RunPrimitiveArrayCheck | test/net/digihippo/reflect/ReflectiveDeepCopyTest.java:624-808 | the six primitive-array checks: two null-padding passes over boxed elements |
| EarlyMatcher.DeepCopyAssertion.PerformListTypeMatch | test/net/digihippo/reflect/ReflectiveDeepCopyTest.java:810-854 | two null-padding passes under `at(i)` |
| EarlyMatcher.DeepCopyAssertion.PaddedLoop | test/net/digihippo/reflect/ReflectiveDeepCopyTest.java:815-851 | one null-padding pass, under `[i]` or `at(i)` |
| EarlyMatcher.DeepCopyAssertion.PerformMapTypeMatch | test/net/digihippo/reflect/ReflectiveDeepCopyTest.java:856-889 | two entry passes under `get(key)` compute the map verdict |
| EarlyMatcher.DeepCopyAssertion.PerformValueTypeMatch | test/net/digihippo/reflect/ReflectiveDeepCopyTest.java:891-901 | succeeds exactly when `one.equals(two)`, and otherwise fails with `one != two` |
| EarlyMatcher.DeepCopyAssertion.UnequalField | test/net/digihippo/reflect/ReflectiveDeepCopyTest.java:919-922 | fails with `first != second` at the current path |
| EarlyMatcher.DeepCopyAssertion.Fail | test/net/digihippo/reflect/ReflectiveDeepCopyTest.java:924-940 | a failure whose description is the stack joined with `->`, then `: ` and the message |
| Scenarios.MatchFresh | test/net/digihippo/reflect/ReflectiveDeepCopyTest.java:436-450 | a fresh Early matcher reports the Early verdict under `root` |
| Scenarios.IdenticalObjectsAreDeepCopies | test/net/digihippo/reflect/ReflectiveDeepCopyTest.java:29-36 | two distinct `ExampleOne` with equal fields are deep copies |
| Scenarios.ObjectIsNotACopyOfItself | test/net/digihippo/reflect/ReflectiveDeepCopyTest.java:38-47 | an object against itself fails with `root: The same instance ...` |
| Scenarios.DifferingFieldFails | test/net/digihippo/reflect/ReflectiveDeepCopyTest.java:49-58 | differing `firstField` fails with `root->firstField: x != y` |
| Scenarios.SecondFieldDecidesAfterFirstMatches | test/net/digihippo/reflect/ReflectiveDeepCopyTest.java:74-83 | with equal first fields, `root->secondField: ...` is reported |
| Scenarios.FirstNonMatchingFieldStops | test/net/digihippo/reflect/ReflectiveDeepCopyTest.java:85-94 | a differing first field is reported whatever the second fields hold |
| Scenarios.TwoMatchingFieldsSucceed | test/net/digihippo/reflect/ReflectiveDeepCopyTest.java:96-104 | two objects whose two fields are equal are deep copies |
| Scenarios.StringFieldsCompareByEquals | test/net/digihippo/reflect/ReflectiveDeepCopyTest.java:117-134 | string fields succeed when equal and otherwise fail with `root->firstField: s != t` |
| Scenarios.SharedNestedInstanceFails | test/net/digihippo/reflect/ReflectiveDeepCopyTest.java:149-158 | a shared nested object fails at `root->exampleOne` |
| Scenarios.NestedDeepCopySucceeds | test/net/digihippo/reflect/ReflectiveDeepCopyTest.java:162-167 | nested distinct copies succeed |
| Scenarios.DifferentClassesFail | test/net/digihippo/reflect/ReflectiveDeepCopyTest.java:171-178 | a String against an `ExampleOne` fails with the "not the same type" message naming both classes |
| Scenarios.SharedMapValueFails | test/net/digihippo/reflect/ReflectiveDeepCopyTest.java:182-192 | a shared map value fails at `root->get(one)` |
| Scenarios.MapOfCopiesSucceeds | test/net/digihippo/reflect/ReflectiveDeepCopyTest.java:196-206 | maps whose values are copies succeed |
| Scenarios.DifferentKeysFail | test/net/digihippo/reflect/ReflectiveDeepCopyTest.java:208-220 | a key the second map lacks fails with `root->get(one): ExampleOne(..) != null` |
| Scenarios.DifferentValueAtSameKeyFails | test/net/digihippo/reflect/ReflectiveDeepCopyTest.java:222-234 | differing values report `root->get(one)->firstField` |
| Scenarios.ExtraEntryFails | test/net/digihippo/reflect/ReflectiveDeepCopyTest.java:236-249 | an extra entry fails with `root->get(two): null != ...` |
| Scenarios.SharedListElementFails | test/net/digihippo/reflect/ReflectiveDeepCopyTest.java:251-263 | a shared list element fails at `root->at(0)` |
| Scenarios.ListOfCopiesSucceeds | test/net/digihippo/reflect/ReflectiveDeepCopyTest.java:266-275 | lists of copies succeed |
| Scenarios.DifferentListElementFails | test/net/digihippo/reflect/ReflectiveDeepCopyTest.java:278-288 | differing elements report `root->at(0)->firstField` |
| Scenarios.ListsOfDifferentSizesFail | test/net/digihippo/reflect/ReflectiveDeepCopyTest.java:292-309 | a longer list fails at `root->at(1)` against null, with the message mirrored when the arguments are swapped |
| Scenarios.EqualBoxedValuesAreCopies | test/net/digihippo/reflect/ReflectiveDeepCopyTest.java:311-320 | equal boxed primitives are deep copies |
| Scenarios.SameArrayFails | test/net/digihippo/reflect/ReflectiveDeepCopyTest.java:322-327 | one primitive array against itself fails at `root` |
| Scenarios.EqualArraysSucceed | test/net/digihippo/reflect/ReflectiveDeepCopyTest.java:329-338 | distinct equal primitive arrays of every supported kind succeed |
| Scenarios.ArraysDifferingAtSecondFail | test/net/digihippo/reflect/ReflectiveDeepCopyTest.java:340-434 | arrays differing at index 1 fail with `root->[1]: 5 != 6` for every supported kind |
| Scenarios.LongerArrayMeetsNull | test/net/digihippo/reflect/ReflectiveDeepCopyTest.java:340-434 | a longer array fails with `root->[1]: 5 != null`, or `null != 5` when the arguments are swapped |

## Left out

- Reflection is not modelled: `getDeclaredFields`, `setAccessible`, `Field.get`, and filtering out synthetic and static fields. An object is given as its already-filtered list of named fields, in the order reflection yields them.
- The `IllegalAccessException` catch in `matches` is not modelled; field access cannot fail in the model.
- `toString()` of objects and keys, and `getClass().getName()`, are foreign calls. They are data carried by each value: its text and its class name.
- Floating point is not modelled. A `float` or `double` is an opaque payload with its text; `equals` on it is equality of that payload, not IEEE or `Double.equals` semantics.
- `HashMap` and `HashSet` iteration order is taken as given: a map or collection is its entries in iteration order.
- The body of a user-defined `equals` is not modelled. Each object carries a tag naming the instances its `equals` accepts, so a registered value class compares by that tag.
- Map keys other than boxed values are looked up by identity, not by a user-defined `equals`.
- Boxed Short and Character values are not modelled. They are not value types, so the source walks their fields, and the value tree has no case for them.
- An enum constant renders as its name; an overridden `toString()` on an enum class is not modelled.
- Value trees that no Java heap can build are admitted: two `Node`s with one `id` but different tags, classes, fields or shapes; a primitive array whose payloads are not of its component kind; a map whose key and value sequences differ in length. On such trees `id` is only the tag `==` compares, a payload is compared as it is, and `Get` ignores the unpaired entries. Every lemma holds for them too.
- Cyclic object graphs and stack exhaustion are not modelled: values are finite trees, and sharing is expressed by identity tags.
- Java integer widths are not modelled: payloads are unbounded integers, and `Long.toString` is their decimal text.
- The JUnit assertions (`assertTrue`, `assertFalse`, `assertEquals`) are not modelled; each test becomes a lemma about the result the helper would check.
- Matcher.DeepCopyAssertion.PrimitiveArrayMatch: the six per-type primitive-array matchers are one method over boxed payloads, because their bodies differ only in element type.
- Matcher.DeepCopyAssertion.ObjectArrayMatch: each of the source's two loops (one per direction) is one call of a shared single-pass loop method with the roles swapped. The same holds for CollectionTypeMatch, MapTypeMatch, PrimitiveArrayMatch and the Early matcher's padding passes.
- EarlyMatcher.DeepCopyAssertion.MatchFields: the Early field loop is a method of its own rather than inline in `matches`.
- Maps and collections are not updated in place; the matchers only read them, so they are values.

## Findings

The matcher classes model the code as written. The corrected Early behaviours
are those of the Current matcher. The corrected map comparison is
`Intended.KeyedMapVerdict`, proved to agree with the code wherever the key sets
agree (`Intended.KeyedAgreesOnSharedKeys`). The corrected notion of a deep copy
is `Intended.IsIsolatedCopy`: the matcher's verdict plus no object reached from
both sides.

| source | as written | input that shows it | evidently intended | confidence | as-written member | corrected member |
|---|---|---|---|---|---|---|
| test/net/digihippo/reflect/ReflectiveDeepCopyTest.java:589-619 | the Early matcher pads the shorter object array or list with `null`, so a missing position compares equal to a stored `null` | `new Object[]{null}` against `new Object[0]` (likewise `[null]` against an empty list) is reported as a deep copy | arrays and lists of different lengths are never deep copies, as the Current matcher enforces with the `<absent>` sentinel | not executed | Behaviours.EarlyPaddingAcceptsMissingNull | Behaviours.CurrentRejectsMissingNull |
| src/net/digihippo/reflect/DeepCopyAssertion.java:436-469 | both map passes compare `get(key)` on the two maps, and `get` returns null for a missing key as for a key mapped to null | `{k=null}` against `{}` is reported as a deep copy, in either order | maps match only when their key sets are identical; a missing key is compared against `<absent>`, as a missing array position is | not executed | Behaviours.NullValuedEntryMatchesMissingKey | Intended.KeyedMapSame |
| src/net/digihippo/reflect/DeepCopyAssertion.java:66-69 | `one == two` is tested only for the two objects at one position, and no record is kept of the objects already met | with three distinct field-less objects X, X', W of one class, `{p: X, q: W}` against `{p: X', q: X}` is reported as a deep copy although the copy holds X itself | a deep copy shares no object with the original at any position | not executed | Properties.SharingAcrossPositionsGoesUnseen | Intended.IsolatedCopyRejectsSharing |
| test/net/digihippo/reflect/ReflectiveDeepCopyTest.java:483-556 | the Early matcher has no enum branch, so enum constants are walked field by field | two different constants of a field-less enum are reported as deep copies, and a constant against itself fails as a shared instance | constants compare by identity, as the Current matcher does at DeepCopyAssertion.java:54-64 | not executed | Behaviours.EarlyEnumsCompareByFields | Behaviours.CurrentEnumsCompareByIdentity |
