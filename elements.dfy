/** The per-type element rules of the array wrapper, as functions on values:
    which host values a slot accepts and what is stored (pyjarray_setitem),
    what the fill of pyjarray_init writes, which slot value index() looks for
    and the first-match search itself, and what a read hands back. */
module Elements {
  import opened JTypes

  /** A slot value that a Java array of component type `t` can hold. */
  predicate Fits(t: ComponentType, e: Elem) {
    match t
    case JBoolean => e == Num(0) || e == Num(1)
    case JByte => e.Num? && -0x80 <= e.n < 0x80
    case JShort => e.Num? && -0x8000 <= e.n < 0x8000
    case JChar => e.Num? && 0 <= e.n < 0x1_0000
    case JInt => e.Num? && -0x8000_0000 <= e.n < 0x8000_0000
    case JLong => e.Num? && InLongRange(e.n)
    case JFloat => e.Fp?
    case JDouble => e.Fp?
    case JString => e.Null? || e.JStr?
    case JObject => !(e.Num? || e.Fp?)
    case JArray => e.Null? || e.Ref?
  }

  /** The zero value a freshly allocated Java array holds in every slot. */
  function ZeroElem(t: ComponentType): (e: Elem)
    ensures Fits(t, e)
    ensures IsIntegral(t) ==> e == Num(0)
    ensures !IsPrimitive(t) ==> e == Null
  {
    if IsIntegral(t) then Num(0) else if IsPrimitive(t) then Fp(0) else Null
  }

  /** The contents of a freshly allocated Java array of `n` slots. */
  function Zeros(t: ComponentType, n: nat): (s: seq<Elem>)
    ensures |s| == n
    ensures forall i :: 0 <= i < n ==> s[i] == ZeroElem(t)
  {
    seq(n, i => ZeroElem(t))
  }

  /** The host types element assignment accepts for each component type. */
  predicate Accepts(t: ComponentType, v: PyValue)
    ensures v.PyNone? ==> (Accepts(t, v) <==> !IsPrimitive(t))
    ensures v.PyOtherObject? ==> !Accepts(t, v)
    ensures Accepts(t, v) && IsPrimitive(t) && t != JChar ==> (v.PyFloat? <==> (t == JFloat || t == JDouble))
  {
    match t
    case JInt => v.PyInt?
    case JByte => v.PyInt?
    case JShort => v.PyInt?
    case JLong => v.PyInt?
    case JBoolean => v.PyInt?
    case JFloat => v.PyFloat?
    case JDouble => v.PyFloat?
    case JChar => v.PyInt? || (v.PyStr? && CodePointLength(v.utf8) == 1)
    case JString => v.PyNone? || v.PyStr?
    case JArray => v.PyNone? || v.JArrayProxy?
    case JObject => !v.PyOtherObject?
  }

  /** An integral host value that the slot type represents without loss. */
  predicate Representable(t: ComponentType, v: int) {
    match t
    case JByte => -0x80 <= v < 0x80
    case JShort => -0x8000 <= v < 0x8000
    case JChar => 0 <= v < 0x1_0000
    case JInt => -0x8000_0000 <= v < 0x8000_0000
    case JLong => InLongRange(v)
    case _ => false
  }

  /** PyObject_As_jobject for an OBJECT array: None becomes null, a proxy gives
      back its Java reference, a str becomes a java.lang.String and a number a
      boxed Java object; any other host object cannot be converted. */
  function AsJObject(v: PyValue): (r: Result<Elem>)
    ensures r.Ok? <==> !v.PyOtherObject?
    ensures r.Ok? ==> Fits(JObject, r.value)
    ensures v.JObjectProxy? || v.JArrayProxy? ==> r == Ok(Ref(v.ref))
  {
    match v
    case PyNone => Ok(Null)
    case JObjectProxy(ref, _) => Ok(Ref(ref))
    case JArrayProxy(ref, _) => Ok(Ref(ref))
    case PyStr(s) => Ok(JStr(s))
    case PyInt(_) => Ok(Boxed(v))
    case PyFloat(_) => Ok(Boxed(v))
    case PyOtherObject => Err(TypeError("Expected jobject."))
  }

  /** The host-type check and cast of pyjarray_setitem: the slot value stored
      for `v`, or the TypeError raised. */
  function StoreValue(t: ComponentType, v: PyValue): (r: Result<Elem>)
    ensures r.Ok? <==> Accepts(t, v)
    ensures r.Ok? ==> Fits(t, r.value)
    ensures r.Err? ==> r.error.TypeError?
    ensures v.PyInt? && Representable(t, v.v) ==> r == Ok(Num(v.v))
    ensures t == JBoolean && v.PyInt? ==> r == Ok(Num(if AsLongLong(v.v) != 0 then 1 else 0))
    ensures (t == JFloat || t == JDouble) && v.PyFloat? ==> r == Ok(Fp(v.f))
    ensures t == JString && v.PyStr? ==> r == Ok(JStr(v.utf8))
    ensures !IsPrimitive(t) && v.PyNone? ==> r == Ok(Null)
    ensures v.PyInt? && t == JInt ==> r == Ok(Num(ToJInt(AsLongLong(v.v))))
    ensures v.PyInt? && t == JShort ==> r == Ok(Num(ToJShort(AsLongLong(v.v))))
    ensures v.PyInt? && t == JByte ==> r == Ok(Num(ToJByte(AsLongLong(v.v))))
    ensures v.PyInt? && t == JChar ==> r == Ok(Num(ToJChar(AsLongLong(v.v))))
    ensures v.PyInt? && t == JLong ==> r == Ok(Num(AsLongLong(v.v)))
    ensures t == JChar && v.PyStr? && Accepts(t, v) ==> r == Ok(Num(CharFromCByte(v.utf8[0])))
    ensures t == JArray && v.JArrayProxy? ==> r == Ok(Ref(v.ref))
    ensures t == JObject ==> r == AsJObject(v)
  {
    if IsPrimitive(t) then StorePrimitive(t, v) else StoreReference(t, v)
  }

  /** The reference half of StoreValue: STRING, OBJECT and ARRAY slots. */
  function StoreReference(t: ComponentType, v: PyValue): (r: Result<Elem>)
    requires !IsPrimitive(t)
    ensures r.Ok? <==> Accepts(t, v)
    ensures r.Ok? ==> Fits(t, r.value)
    ensures r.Err? ==> r.error.TypeError?
    ensures t == JString && v.PyStr? ==> r == Ok(JStr(v.utf8))
    ensures v.PyNone? ==> r == Ok(Null)
    ensures t == JArray && v.JArrayProxy? ==> r == Ok(Ref(v.ref))
    ensures t == JObject ==> r == AsJObject(v)
  {
    match t
    case JString =>
      if v.PyNone? then Ok(Null)
      else if v.PyStr? then Ok(JStr(v.utf8))
      else Err(TypeError("Expected string."))
    case JObject => AsJObject(v)
    case JArray =>
      if v.PyNone? then Ok(Null)
      else if v.JArrayProxy? then Ok(Ref(v.ref))
      else Err(TypeError("Expected jarray."))
  }

  /** The primitive half of StoreValue: the host-type check and the C cast. */
  function StorePrimitive(t: ComponentType, v: PyValue): (r: Result<Elem>)
    requires IsPrimitive(t)
    ensures r.Ok? <==> Accepts(t, v)
    ensures r.Ok? ==> Fits(t, r.value)
    ensures r.Err? ==> r.error.TypeError?
    ensures v.PyInt? && Representable(t, v.v) ==> r == Ok(Num(v.v))
    ensures t == JBoolean && v.PyInt? ==> r == Ok(Num(if AsLongLong(v.v) != 0 then 1 else 0))
    ensures (t == JFloat || t == JDouble) && v.PyFloat? ==> r == Ok(Fp(v.f))
    ensures v.PyInt? && t == JInt ==> r == Ok(Num(ToJInt(AsLongLong(v.v))))
    ensures v.PyInt? && t == JShort ==> r == Ok(Num(ToJShort(AsLongLong(v.v))))
    ensures v.PyInt? && t == JByte ==> r == Ok(Num(ToJByte(AsLongLong(v.v))))
    ensures v.PyInt? && t == JChar ==> r == Ok(Num(ToJChar(AsLongLong(v.v))))
    ensures v.PyInt? && t == JLong ==> r == Ok(Num(AsLongLong(v.v)))
    ensures t == JChar && v.PyStr? && Accepts(t, v) ==> r == Ok(Num(CharFromCByte(v.utf8[0])))
  {
    match t
    case JInt =>
      if v.PyInt? then Ok(Num(ToJInt(AsLongLong(v.v)))) else Err(TypeError("Expected int."))
    case JByte =>
      if v.PyInt? then Ok(Num(ToJByte(AsLongLong(v.v)))) else Err(TypeError("Expected byte."))
    case JChar =>
      if v.PyInt? then Ok(Num(ToJChar(AsLongLong(v.v))))
      else if v.PyStr? && CodePointLength(v.utf8) == 1 then Ok(Num(CharFromCByte(v.utf8[0])))
      else Err(TypeError("Expected char."))
    case JLong =>
      if v.PyInt? then Ok(Num(AsLongLong(v.v))) else Err(TypeError("Expected long."))
    case JBoolean =>
      if v.PyInt? then Ok(Num(if AsLongLong(v.v) != 0 then 1 else 0))
      else Err(TypeError("Expected boolean."))
    case JDouble =>
      if v.PyFloat? then Ok(Fp(v.f)) else Err(TypeError("Expected float."))
    case JShort =>
      if v.PyInt? then Ok(Num(ToJShort(AsLongLong(v.v)))) else Err(TypeError("Expected int."))
    case JFloat =>
      if v.PyFloat? then Ok(Fp(v.f)) else Err(TypeError("Expected float."))
  }

  /** The host types index() and contains() accept: as for assignment, except
      that an OBJECT array is searched only for None or a Java proxy. */
  predicate Searchable(t: ComponentType, v: PyValue)
    ensures Searchable(t, v) ==> Accepts(t, v)
    ensures t == JObject && v.PyStr? ==> !Searchable(t, v)
  {
    if t == JObject then v.PyNone? || v.JObjectProxy? || v.JArrayProxy? else Accepts(t, v)
  }

  /** A CHAR store or probe refuses a str of two or more code points, as
      "Expected char.": joining two non-empty texts never gives length 1. */
  lemma {:induction false} CharRefusesLongerStr(a: seq<Octet>, b: seq<Octet>)
    requires CodePointLength(a) > 0 && CodePointLength(b) > 0
    ensures !Accepts(JChar, PyStr(a + b))
    ensures !Searchable(JChar, PyStr(a + b))
  {
    CodePointLengthAppend(a, b);
  }

  /** Does index()'s conversion of `v` leave an OverflowError pending? An int
      probe on an integral array goes through PyLong_AsLongLong, which fails
      outside the 64-bit range; the scan still runs, for the converted -1. */
  predicate ProbeOverflows(t: ComponentType, v: PyValue) {
    IsIntegral(t) && v.PyInt? && !InLongRange(v.v)
  }

  /** The slot value pyjarray_index looks for, or the TypeError it raises.
      Primitives and STRING are matched by value after the same cast as an
      assignment; OBJECT and ARRAY by the identity of the Java reference;
      None matches a null slot. */
  function Probe(t: ComponentType, v: PyValue): (r: Result<Elem>)
    ensures r.Ok? <==> Searchable(t, v)
    ensures r.Err? ==> r.error.TypeError?
    ensures r.Ok? ==> Fits(t, r.value)
    ensures r.Ok? ==> r == StoreValue(t, v)
    ensures r.Ok? && (v.JObjectProxy? || v.JArrayProxy?) ==> r == Ok(Ref(v.ref))
    ensures r.Ok? && v.PyNone? ==> r == Ok(Null)
  {
    match t
    case JString =>
      if v.PyNone? then Ok(Null)
      else if v.PyStr? then Ok(JStr(v.utf8))
      else Err(TypeError("Expected str."))
    case JArray =>
      if v.PyNone? then Ok(Null)
      else if v.JArrayProxy? then Ok(Ref(v.ref))
      else Err(TypeError("Expected jarray."))
    case JObject =>
      if v.PyNone? then Ok(Null)
      else if v.JObjectProxy? || v.JArrayProxy? then Ok(Ref(v.ref))
      else Err(TypeError("Expected jobject."))
    case JBoolean =>
      if v.PyInt? then Ok(Num(if AsLongLong(v.v) != 0 then 1 else 0))
      else Err(TypeError("Expected boolean."))
    case JShort =>
      if v.PyInt? then Ok(Num(ToJShort(AsLongLong(v.v)))) else Err(TypeError("Expected int (short)."))
    case JInt =>
      if v.PyInt? then Ok(Num(ToJInt(AsLongLong(v.v)))) else Err(TypeError("Expected int."))
    case JByte =>
      if v.PyInt? then Ok(Num(ToJByte(AsLongLong(v.v)))) else Err(TypeError("Expected byte."))
    case JChar =>
      if v.PyInt? then Ok(Num(ToJChar(AsLongLong(v.v))))
      else if v.PyStr? && CodePointLength(v.utf8) == 1 then Ok(Num(CharFromCByte(v.utf8[0])))
      else Err(TypeError("Expected char."))
    case JLong =>
      if v.PyInt? then Ok(Num(AsLongLong(v.v))) else Err(TypeError("Expected long."))
    case JFloat =>
      if v.PyFloat? then Ok(Fp(v.f)) else Err(TypeError("Expected long."))
    case JDouble =>
      if v.PyFloat? then Ok(Fp(v.f)) else Err(TypeError("Expected long."))
  }

  /** A value that assignment stores is exactly what a search for the same
      host value looks for, except that an OBJECT array converts str and
      numbers on assignment but refuses them in a search. */
  lemma ProbeFindsStored(t: ComponentType, v: PyValue)
    requires StoreValue(t, v).Ok?
    ensures Probe(t, v).Ok? <==> (t != JObject || !(v.PyStr? || v.PyInt? || v.PyFloat?))
    ensures Probe(t, v).Ok? ==> Probe(t, v) == StoreValue(t, v)
  {
  }

  /** The first position of `e` in `s`, or -1 when it does not occur. */
  function FirstIndexOf(s: seq<Elem>, e: Elem): (r: int)
    ensures -1 <= r < |s|
    ensures r == -1 <==> e !in s
    ensures r >= 0 ==> s[r] == e && e !in s[..r]
  {
    if |s| == 0 then -1
    else if s[0] == e then 0
    else
      var k := FirstIndexOf(s[1..], e);
      assert s == [s[0]] + s[1..];
      if k == -1 then -1
      else
        assert s[..k + 1] == [s[0]] + s[1..][..k];
        k + 1
  }

  /** A position that holds `e` with no earlier occurrence is the first index. */
  lemma FirstIndexOfAt(s: seq<Elem>, e: Elem, i: int)
    requires 0 <= i < |s| && s[i] == e && e !in s[..i]
    ensures FirstIndexOf(s, e) == i
  {
  }

  /** After `e` is stored at `i`, the first index of `e` is at most `i`, and
      exactly `i` when no earlier slot already held it. */
  lemma SearchAfterStore(s: seq<Elem>, i: int, e: Elem)
    requires 0 <= i < |s|
    ensures 0 <= FirstIndexOf(s[i := e], e) <= i
    ensures e !in s[..i] ==> FirstIndexOf(s[i := e], e) == i
  {
    var s' := s[i := e];
    assert s'[i] == e;
    assert s'[..i] == s[..i];
    if e !in s[..i] {
      FirstIndexOfAt(s', e, i);
    }
  }

  // ------------------------------------------------------------ index() as written

  /** The three outcomes of the OBJECT/ARRAY scan loop of pyjarray_index. */
  datatype Scan = Found(i: nat) | Missing | Undefined

  /** The OBJECT and ARRAY scan loop of pyjarray_index as written. A null slot
      matches when the probe is None; a non-null slot is compared with
      `obj->object`, where `obj` is the probe cast to a Java proxy. For the
      probe None that cast reads past the None object: the outcome is
      undefined. */
  function IdentityScanAsWritten(s: seq<Elem>, v: PyValue, i: nat): (r: Scan)
    requires v.PyNone? || v.JObjectProxy? || v.JArrayProxy?
    requires i <= |s|
    decreases |s| - i
  {
    if i == |s| then Missing
    else if s[i] == Null then
      (if v.PyNone? then Found(i) else IdentityScanAsWritten(s, v, i + 1))
    else if v.PyNone? then Undefined
    else if s[i] == Ref(v.ref) then Found(i)
    else IdentityScanAsWritten(s, v, i + 1)
  }

  /** For a Java proxy the written scan finds exactly the first identical
      reference. */
  lemma {:induction false} IdentityScanFindsProxy(s: seq<Elem>, v: PyValue, i: nat)
    requires v.JObjectProxy? || v.JArrayProxy?
    requires i <= |s|
    requires Ref(v.ref) !in s[..i]
    ensures IdentityScanAsWritten(s, v, i) ==
              (if FirstIndexOf(s, Ref(v.ref)) == -1 then Missing else Found(FirstIndexOf(s, Ref(v.ref))))
    decreases |s| - i
  {
    var e := Ref(v.ref);
    if i == |s| {
      assert s[..i] == s;
    } else if s[i] == e {
      FirstIndexOfAt(s, e, i);
    } else {
      assert s[..i + 1] == s[..i] + [s[i]];
      IdentityScanFindsProxy(s, v, i + 1);
    }
  }

  /** For the probe None the written scan gives an answer only when slot 0 is
      null or the array is empty; it is undefined exactly when the first null
      slot is not slot 0, and where it answers it agrees with the first index
      of a null slot. */
  lemma IdentityScanNone(s: seq<Elem>)
    ensures IdentityScanAsWritten(s, PyNone, 0) == Undefined <==> |s| > 0 && FirstIndexOf(s, Null) != 0
    ensures IdentityScanAsWritten(s, PyNone, 0) != Undefined ==>
              IdentityScanAsWritten(s, PyNone, 0) ==
                (if FirstIndexOf(s, Null) == -1 then Missing else Found(FirstIndexOf(s, Null)))
  {
  }

  /** A concrete input that shows the defect: an OBJECT array holding a Java
      object and then a null, searched for None. The written loop compares the
      object with memory read through the None object; the evidently intended
      answer is the index of the null slot. */
  lemma NoneSearchReadsPastNone()
    ensures IdentityScanAsWritten([Ref(7), Null], PyNone, 0) == Undefined
    ensures FirstIndexOf([Ref(7), Null], Null) == 1
  {
    FirstIndexOfAt([Ref(7), Null], Null, 1);
  }

  // ------------------------------------------------------------------- fill

  /** Does `value` have the host type the fill of pyjarray_init uses for `t`? */
  predicate FillsWith(t: ComponentType, value: Option<PyValue>) {
    value.Some? &&
    (if t.JFloat? || t.JDouble? then value.value.PyFloat? else value.value.PyInt?)
  }

  /** The value pyjarray_init writes into every slot of a primitive array: the
      cast argument when it has the matching host type, otherwise zero. */
  function FillValue(t: ComponentType, value: Option<PyValue>): (e: Elem)
    requires IsPrimitive(t)
    ensures Fits(t, e)
    ensures !FillsWith(t, value) ==> e == ZeroElem(t)
    ensures FillsWith(t, value) && t != JBoolean ==> e == StoreValue(t, value.value).value
    ensures t == JBoolean ==> (e == Num(1) <==> FillsWith(t, value) && AsLongLong(value.value.v) != 0)
  {
    if !FillsWith(t, value) then ZeroElem(t)
    else
      var v := value.value;
      match t
      case JInt => Num(ToJInt(AsLongLong(v.v)))
      case JChar => Num(ToJChar(AsLongLong(v.v)))
      case JByte => Num(ToJByte(AsLongLong(v.v)))
      case JLong => Num(AsLongLong(v.v))
      case JBoolean => Num(if AsLongLong(v.v) != 0 then 1 else 0)
      case JDouble => Fp(v.f)
      case JShort => Num(ToJShort(AsLongLong(v.v)))
      case JFloat => Fp(v.f)
  }

  /** Is this the CHAR-from-str fill, which copies bytes instead of one value? */
  predicate IsCharStringFill(t: ComponentType, value: Option<PyValue>) {
    t == JChar && value.Some? && value.value.PyStr?
  }

  /** The contents after the fill of pyjarray_init, from the contents `s`
      before it. */
  function Filled(s: seq<Elem>, t: ComponentType, value: Option<PyValue>): (r: seq<Elem>)
    ensures |r| == |s|
    ensures !IsPrimitive(t) ==> r == s
    ensures IsPrimitive(t) && !IsCharStringFill(t, value) ==>
              forall i :: 0 <= i < |r| ==> r[i] == FillValue(t, value)
    ensures IsCharStringFill(t, value) ==>
              var n := CStrLen(value.value.utf8);
              forall i :: 0 <= i < |r| ==>
                r[i] == (if i < n then Num(CharFromCByte(value.value.utf8[i])) else s[i])
  {
    if !IsPrimitive(t) then s
    else if IsCharStringFill(t, value) then
      var bytes := value.value.utf8;
      var n := CStrLen(bytes);
      seq(|s|, i requires 0 <= i < |s| => if i < n then Num(CharFromCByte(bytes[i])) else s[i])
    else seq(|s|, i => FillValue(t, value))
  }

  /** On a fresh integral array, the fill leaves every slot zero when no value
      of the matching host type is given. */
  lemma FillWithoutValueIsZero(n: nat, t: ComponentType, value: Option<PyValue>)
    requires IsIntegral(t) && !FillsWith(t, value) && !IsCharStringFill(t, value)
    ensures Filled(Zeros(t, n), t, value) == seq(n, i => Num(0))
  {
  }

  /** A CHAR fill from a string sets the first min(length, strlen) slots and
      keeps the others. */
  lemma CharFillPrefix(s: seq<Elem>, bytes: seq<Octet>)
    ensures var n := if |s| < CStrLen(bytes) then |s| else CStrLen(bytes);
            Filled(s, JChar, Some(PyStr(bytes)))[n..] == s[n..]
  {
  }

  // ------------------------------------------------------------------- reads

  /** What pyjarray_item hands back for slot value `e`: None for a null
      reference, otherwise the host value a conversion helper builds from it
      (jint_As_PyObject, jstring_As_PyString, jobject_As_PyObject, a new jarray
      for an array element, ...). */
  datatype HostItem = HostNone | FromJava(t: ComponentType, e: Elem)

  function ToHost(t: ComponentType, e: Elem): (r: HostItem)
    ensures r == HostNone <==> !IsPrimitive(t) && e == Null
    ensures r.FromJava? ==> r.t == t && r.e == e
  {
    if !IsPrimitive(t) && e == Null then HostNone else FromJava(t, e)
  }
}
