/** The runtime value representation (value.h) and the value operations of
    value.c: the growable value array, equality and printing. */
module Values {
  import opened Memory

  /** A 64-bit floating-point number, kept opaque: only its equality is used. */
  type Double(==)

  /** The tag of a value. value.h lists three tags; value.c also switches on
      an object tag, so all four are modelled. */
  datatype ValueType = ValBool | ValNull | ValNumber | ValObj

  /** A tagged value; every object is a string, compared by its characters. */
  datatype Value = Bool(boolean: bool) | Null | Number(number: Double) | Obj(chars: string)

  function TypeOf(v: Value): ValueType
  {
    match v
    case Bool(_) => ValBool
    case Null => ValNull
    case Number(_) => ValNumber
    case Obj(_) => ValObj
  }

  /** IS_BOOL, IS_NULL, IS_NUMBER: tests of the tag alone. */
  predicate IsBool(v: Value) { TypeOf(v) == ValBool }
  predicate IsNull(v: Value) { TypeOf(v) == ValNull }
  predicate IsNumber(v: Value) { TypeOf(v) == ValNumber }

  /** AS_BOOL and AS_NUMBER read the payload of a value of that tag. */
  function AsBool(v: Value): bool
    requires IsBool(v)
  {
    v.boolean
  }

  function AsNumber(v: Value): Double
    requires IsNumber(v)
  {
    v.number
  }

  /** BOOL_VAL: a bool-tagged value whose payload reads back as `b`. */
  function BoolVal(b: bool): (v: Value)
    ensures IsBool(v) && !IsNull(v) && !IsNumber(v)
    ensures AsBool(v) == b
  {
    Bool(b)
  }

  /** NULL_VAL: the null-tagged value. */
  function NullVal(): (v: Value)
    ensures IsNull(v) && !IsBool(v) && !IsNumber(v)
  {
    Null
  }

  /** NUMBER_VAL: a number-tagged value whose payload reads back as `n`. */
  function NumberVal(n: Double): (v: Value)
    ensures IsNumber(v) && !IsBool(v) && !IsNull(v)
    ensures AsNumber(v) == n
  {
    Number(n)
  }

  /** The tag tests look at nothing but the tag: two values with one tag
      pass and fail the same tests, and the constructors are told apart. */
  lemma TagTestsSeeOnlyTheTag(a: Value, b: Value)
    requires TypeOf(a) == TypeOf(b)
    ensures IsBool(a) == IsBool(b) && IsNull(a) == IsNull(b) && IsNumber(a) == IsNumber(b)
  {
  }

  /** memcmp(a, b, n) == 0 */
  predicate SameBytes(a: string, b: string, n: nat)
    requires n <= |a| && n <= |b|
  {
    forall i :: 0 <= i < n ==> a[i] == b[i]
  }

  /** valuesEqual: different tags are never equal; null equals null; bools
      and numbers compare their payloads; objects compare length and
      characters. The result is structural equality of the model's values,
      so two distinct string objects with the same text are equal. */
  function ValuesEqual(a: Value, b: Value): (r: bool)
    ensures TypeOf(a) != TypeOf(b) ==> !r
    ensures r <==> a == b
  {
    if TypeOf(a) != TypeOf(b) then false
    else match a
      case Bool(x) => x == AsBool(b)
      case Null => true
      case Number(x) => x == AsNumber(b)
      case Obj(s) => |s| == |b.chars| && SameBytes(s, b.chars, |s|)
  }

  /** Two strings are equal as objects exactly when their lengths and
      characters match, whatever object holds them. */
  lemma {:induction false} StringEquality(s: string, t: string)
    ensures ValuesEqual(Obj(s), Obj(t)) <==> |s| == |t| && forall i :: 0 <= i < |s| ==> s[i] == t[i]
  {
    if |s| == |t| && forall i :: 0 <= i < |s| ==> s[i] == t[i] {
      assert s == t;
    }
  }

  /** valuesEqual is an equivalence relation. */
  lemma ValuesEqualIsEquivalence(a: Value, b: Value, c: Value)
    ensures ValuesEqual(a, a)
    ensures ValuesEqual(a, b) ==> ValuesEqual(b, a)
    ensures ValuesEqual(a, b) && ValuesEqual(b, c) ==> ValuesEqual(a, c)
  {
  }

  /** printValue. Numbers are printed with `%g` and objects by printObject,
      neither of which is part of this model: both come in as parameters. */
  function PrintValue(v: Value, formatNumber: Double -> string, printObject: string -> string): (s: string)
    ensures IsBool(v) && AsBool(v) ==> s == "true"
    ensures IsBool(v) && !AsBool(v) ==> s == "false"
    ensures IsNull(v) ==> s == "null"
  {
    match v
    case Bool(b) => if b then "true" else "false"
    case Null => "null"
    case Number(n) => formatNumber(n)
    case Obj(chars) => printObject(chars)
  }

  /** The printed forms of the bool and null values tell them apart. */
  lemma {:induction false} PrintedLiteralsDistinct(v: Value, w: Value, f: Double -> string, g: string -> string)
    requires v.Bool? || v.Null?
    requires w.Bool? || w.Null?
    requires PrintValue(v, f, g) == PrintValue(w, f, g)
    ensures v == w
  {
  }

  /** ValueArray: a growable buffer of values, `count` of them in use out of
      `capacity` slots. */
  class ValueArray {
    var capacity: nat
    var count: nat
    var values: array<Value>

    ghost predicate Valid()
      reads this
    {
      count <= capacity && values.Length == capacity
    }

    /** The values written so far, in order. */
    ghost function Contents(): seq<Value>
      reads this, values
      requires Valid()
    {
      values[..count]
    }

    /** A value array as initValueArray leaves it: empty and without storage. */
    constructor ()
      ensures Valid() && count == 0 && capacity == 0 && values.Length == 0
      ensures Contents() == []
    {
      capacity := 0;
      count := 0;
      values := new Value[0];
    }

    /** initValueArray */
    method Init()
      modifies this
      ensures Valid() && count == 0 && capacity == 0 && values.Length == 0
      ensures Contents() == []
    {
      count := 0;
      capacity := 0;
      values := new Value[0];
    }

    /** writeValueArray: grows the storage only when the new value would not
      fit, then stores the value at index `count`. */
    method Write(value: Value)
      requires Valid()
      modifies this, values
      ensures Valid()
      ensures count == old(count) + 1
      ensures Contents() == old(Contents()) + [value]
      ensures capacity == if old(capacity) < old(count) + 1 then GrowCapacity(old(capacity)) else old(capacity)
      ensures old(count) + 1 <= old(capacity) ==> values == old(values)
    {
      if capacity < count + 1 {
        var oldCapacity := capacity;
        capacity := GrowCapacity(oldCapacity);
        values := GrowArray(values, oldCapacity, capacity);
      }
      values[count] := value;
      count := count + 1;
    }

    /** freeValueArray: releases the storage and starts over empty. */
    method Free()
      requires Valid()
      modifies this
      ensures Valid() && count == 0 && capacity == 0 && values.Length == 0
      ensures Contents() == []
    {
      var released := FreeArray(values, capacity);
      Init();
    }
  }
}
