/**
 * The Java runtime values the matcher walks, as a finite tree.
 *
 * - `Scalar` is an instance of one of the seven built-in value classes
 *   (String and the boxed Long, Integer, Byte, Float, Double and Boolean).
 *   Boxed Short and Character are not among them and have no case here.
 * - `EnumConst` is a constant of a class for which `isEnum()` holds; its
 *   identity is its type and name. A constant with a class body belongs to an
 *   anonymous subclass, for which `isEnum()` is false: it is a `Node`.
 * - `Node` is any other object. `id` is its identity; `eq` names the class of
 *   instances its `equals` accepts (its own identity when the class keeps
 *   `Object.equals`); `text` is what its `toString()` returns; `fields` are
 *   the instance fields its own class declares, in the order reflection
 *   yields them (static and synthetic ones already removed, inherited ones
 *   never included); `shape` says whether it is an array, a map or a
 *   collection.
 */
module Values {

  type TypeName = string

  /** A float or double: its bit pattern (what `Float.equals` compares) and its text. */
  datatype FloatingPoint = FloatingPoint(bits: nat, text: string)

  datatype Payload =
    | Str(s: string)
    | Long(l: int)
    | Int(i: int)
    | Byte(b: int)
    | Float(f: FloatingPoint)
    | Double(d: FloatingPoint)
    | Bool(z: bool)

  /** Component types of a primitive array. */
  datatype PrimKind = LongKind | IntKind | DoubleKind | FloatKind | BooleanKind | ByteKind | ShortKind | CharKind

  datatype Field = Field(name: string, value: Value)

  /** A map key. The matcher never walks into a key: it only tests it for null,
      renders it with `toString()` and looks it up with `equals`. A boxed key
      compares by content, any other key by identity. */
  datatype Key = NullKey | BoxedKey(p: Payload) | InstanceKey(id: nat, text: string)


  datatype Shape =
    | Plain
    | PrimArray(kind: PrimKind, items: seq<Payload>)
    | ObjArray(elems: seq<Value>)
    | MapS(keys: seq<Key>, values: seq<Value>)  // entry k maps keys[k] to values[k], in entry-set order
    | Coll(isList: bool, members: seq<Value>)

  datatype Value =
    | Null
    | Scalar(p: Payload)
    | EnumConst(ty: TypeName, name: string, fields: seq<Field>)
    | Node(id: nat, eq: nat, ty: TypeName, text: string, fields: seq<Field>, shape: Shape)

  // ---------------------------------------------------------------- sizes

  /** A measure for recursion: every value reachable from `v` is smaller. */
  function Size(v: Value): nat {
    match v
    case Null => 0
    case Scalar(_) => 1
    case EnumConst(_, _, fs) => 1 + FieldsSize(fs)
    case Node(_, _, _, _, fs, sh) => 1 + FieldsSize(fs) + ShapeSize(sh)
  }

  function ShapeSize(sh: Shape): nat {
    match sh
    case Plain => 0
    case PrimArray(_, items) => |items|
    case ObjArray(es) => ElemsSize(es)
    case MapS(_, vs) => ElemsSize(vs)
    case Coll(_, es) => ElemsSize(es)
  }

  function FieldsSize(fs: seq<Field>): (n: nat)
    ensures forall k :: 0 <= k < |fs| ==> Size(fs[k].value) <= n
  {
    if fs == [] then 0 else FieldsSize(fs[..|fs| - 1]) + Size(fs[|fs| - 1].value)
  }

  function ElemsSize(es: seq<Value>): (n: nat)
    ensures forall k :: 0 <= k < |es| ==> Size(es[k]) <= n
  {
    if es == [] then 0 else ElemsSize(es[..|es| - 1]) + Size(es[|es| - 1])
  }

  /** The elements of a primitive array as the boxed objects `matches` receives. */
  function Boxed(items: seq<Payload>): (r: seq<Value>)
    ensures |r| == |items|
    ensures forall k :: 0 <= k < |items| ==> r[k] == Scalar(items[k])
  {
    seq(|items|, k requires 0 <= k < |items| => Scalar(items[k]))
  }

  lemma {:induction false} BoxedSize(items: seq<Payload>)
    ensures ElemsSize(Boxed(items)) == |items|
  {
    if items != [] {
      BoxedSize(items[..|items| - 1]);
      assert Boxed(items)[..|items| - 1] == Boxed(items[..|items| - 1]);
    }
  }

  // ---------------------------------------------------------------- classes

  function BoxName(p: Payload): TypeName {
    match p
    case Str(_) => "java.lang.String"
    case Long(_) => "java.lang.Long"
    case Int(_) => "java.lang.Integer"
    case Byte(_) => "java.lang.Byte"
    case Float(_) => "java.lang.Float"
    case Double(_) => "java.lang.Double"
    case Bool(_) => "java.lang.Boolean"
  }

  /** The value classes every matcher starts with. */
  const BuiltinValueTypes: set<TypeName> :=
    {"java.lang.String", "java.lang.Long", "java.lang.Integer", "java.lang.Float",
     "java.lang.Double", "java.lang.Boolean", "java.lang.Byte"}

  /** `getClass().getName()` of a non-null value. */
  function ClassName(v: Value): TypeName
    requires !v.Null?
  {
    match v
    case Scalar(p) => BoxName(p)
    case EnumConst(ty, _, _) => ty
    case Node(_, _, ty, _, _, _) => ty
  }

  datatype ShapeKind = PlainKind | PrimArrayKind(component: PrimKind) | ObjArrayKind | MapKind | CollKind(isList: bool)

  /** What a class fixes about its instances besides its name. */
  datatype Form = BoxedForm | EnumForm(fieldNames: seq<string>) | NodeForm(fieldNames: seq<string>, kind: ShapeKind)

  datatype RuntimeClass = RuntimeClass(name: TypeName, form: Form)

  function FieldNames(fs: seq<Field>): (r: seq<string>)
    ensures |r| == |fs|
    ensures forall k :: 0 <= k < |fs| ==> r[k] == fs[k].name
  {
    seq(|fs|, k requires 0 <= k < |fs| => fs[k].name)
  }

  function KindOf(sh: Shape): ShapeKind {
    match sh
    case Plain => PlainKind
    case PrimArray(kind, _) => PrimArrayKind(kind)
    case ObjArray(_) => ObjArrayKind
    case MapS(_, _) => MapKind
    case Coll(isList, _) => CollKind(isList)
  }

  /** `getClass()`: two values of one class have the same declared fields and the same shape. */
  function ClassOf(v: Value): (c: RuntimeClass)
    requires !v.Null?
    ensures c.name == ClassName(v)
    ensures v.Scalar? <==> c.form.BoxedForm?
    ensures v.EnumConst? <==> c.form.EnumForm?
    ensures v.Node? ==> c.form == NodeForm(FieldNames(v.fields), KindOf(v.shape))
    ensures v.EnumConst? ==> c.form == EnumForm(FieldNames(v.fields))
  {
    match v
    case Scalar(p) => RuntimeClass(BoxName(p), BoxedForm)
    case EnumConst(ty, _, fs) => RuntimeClass(ty, EnumForm(FieldNames(fs)))
    case Node(_, _, ty, _, fs, sh) => RuntimeClass(ty, NodeForm(FieldNames(fs), KindOf(sh)))
  }

  // ---------------------------------------------------------------- identity and equality

  /** Reference identity, `one == two`. */
  predicate SameInstance(a: Value, b: Value) {
    match a
    case Null => b.Null?
    case Scalar(_) => false
    case EnumConst(ty, name, _) => b.EnumConst? && b.ty == ty && b.name == name
    case Node(id, _, _, _, _, _) => b.Node? && b.id == id
  }

  /** `one.equals(two)`: content for the boxed classes, the `eq` tags for other
      objects (a class that keeps `Object.equals` gives each instance its own tag),
      and identity for enum constants and null. */
  predicate Equals(a: Value, b: Value) {
    if a.Scalar? && b.Scalar? then a.p == b.p
    else if a.Node? && b.Node? then a.eq == b.eq
    else SameInstance(a, b)
  }

  lemma EqualsIsAnEquivalence(a: Value, b: Value, c: Value)
    ensures Equals(a, a)
    ensures Equals(a, b) ==> Equals(b, a)
    ensures Equals(a, b) && Equals(b, c) ==> Equals(a, c)
  {
  }

  /** `key.equals(other)` for map keys (null keys are found by `==` in a HashMap). */
  predicate KeyEquals(a: Key, b: Key) {
    match a
    case NullKey => b.NullKey?
    case BoxedKey(p) => b.BoxedKey? && b.p == p
    case InstanceKey(id, _) => b.InstanceKey? && b.id == id
  }

  /** `HashMap.get`: the value of the first entry whose key equals `key`, or null. */
  function Get(keys: seq<Key>, values: seq<Value>, key: Key): (v: Value)
    ensures Size(v) <= ElemsSize(values)
  {
    if keys == [] || values == [] then Null
    else if KeyEquals(keys[0], key) then values[0]
    else
      GetTail(keys, values, key);
      Get(keys[1..], values[1..], key)
  }

  lemma GetTail(keys: seq<Key>, values: seq<Value>, key: Key)
    requires keys != [] && values != []
    ensures ElemsSize(values[1..]) <= ElemsSize(values)
  {
    ElemsSizeBound(values, values[1..]);
  }

  /** A subsequence that drops a prefix is no larger. */
  lemma {:induction false} ElemsSizeBound(values: seq<Value>, tail: seq<Value>)
    requires |tail| <= |values| && tail == values[|values| - |tail|..]
    ensures ElemsSize(tail) <= ElemsSize(values)
  {
    if tail != [] {
      ElemsSizeBound(values[..|values| - 1], tail[..|tail| - 1]);
    }
  }

  /** `get` finds exactly the keys that are present: a present key yields the value
      of its first entry, an absent key yields null. */
  lemma {:induction false} GetFindsFirst(keys: seq<Key>, values: seq<Value>, key: Key, k: nat)
    requires |keys| == |values| && k < |keys| && KeyEquals(keys[k], key)
    requires forall j :: 0 <= j < k ==> !KeyEquals(keys[j], key)
    ensures Get(keys, values, key) == values[k]
  {
    if k > 0 {
      GetFindsFirst(keys[1..], values[1..], key, k - 1);
    }
  }

  lemma {:induction false} GetMissing(keys: seq<Key>, values: seq<Value>, key: Key)
    requires forall j :: 0 <= j < |keys| ==> !KeyEquals(keys[j], key)
    ensures Get(keys, values, key) == Null
  {
    if keys != [] && values != [] {
      GetMissing(keys[1..], values[1..], key);
    }
  }

  /** The keys of a `HashMap` entry set: no two are `equals`. */
  predicate DistinctKeys(keys: seq<Key>) {
    forall i, j :: 0 <= i < j < |keys| ==> !KeyEquals(keys[i], keys[j])
  }

  /** A key that some entry holds is found, and `get` returns one of the map's values. */
  lemma {:induction false} GetPresent(keys: seq<Key>, values: seq<Value>, key: Key, k: nat)
    requires |keys| == |values| && k < |keys| && KeyEquals(keys[k], key)
    ensures Get(keys, values, key) in values
  {
    if !KeyEquals(keys[0], key) {
      GetPresent(keys[1..], values[1..], key, k - 1);
    }
  }

  /** `isValueType`: membership of the value's class in the matcher's value-type set. */
  predicate IsValueType(valueTypes: set<TypeName>, v: Value)
    requires !v.Null?
  {
    ClassName(v) in valueTypes
  }

  lemma BoxedValuesAreValueTypes(valueTypes: set<TypeName>, v: Value)
    requires BuiltinValueTypes <= valueTypes && v.Scalar?
    ensures IsValueType(valueTypes, v)
  {
  }

  // ---------------------------------------------------------------- text

  function DigitChar(d: nat): char
    requires d < 10
  {
    "0123456789"[d]
  }

  /** Decimal text of a natural number, as `Long.toString` writes it. */
  function NatToString(n: nat): (s: string)
    ensures |s| >= 1
    ensures forall k :: 0 <= k < |s| ==> '0' <= s[k] <= '9'
    ensures n >= 10 ==> s[0] != '0'
  {
    if n < 10 then [DigitChar(n)] else NatToString(n / 10) + [DigitChar(n % 10)]
  }

  function IntToString(i: int): (s: string)
    ensures |s| >= 1
    ensures i < 0 <==> s[0] == '-'
  {
    if i < 0 then "-" + NatToString(-i) else NatToString(i)
  }

  function RenderPayload(p: Payload): string {
    match p
    case Str(s) => s
    case Long(l) => IntToString(l)
    case Int(i) => IntToString(i)
    case Byte(b) => IntToString(b)
    case Float(f) => f.text
    case Double(d) => d.text
    case Bool(z) => if z then "true" else "false"
  }

  /** `key.toString()` of a non-null key. */
  function RenderKey(k: Key): string
    requires !k.NullKey?
  {
    match k
    case BoxedKey(p) => RenderPayload(p)
    case InstanceKey(_, text) => text
  }

  /** `String.valueOf(v)`: what string concatenation writes for a value. */
  function Render(v: Value): string {
    match v
    case Null => "null"
    case Scalar(p) => RenderPayload(p)
    case EnumConst(_, name, _) => name
    case Node(_, _, _, text, _, _) => text
  }
}
