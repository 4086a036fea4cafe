/** Values shared by the array wrapper: component-type tags, Java element values,
    host (Python) values, host errors, and the C integer conversions the wrapper
    applies when it narrows a Python int into a Java primitive slot. */
module JTypes {

  datatype Option<T> = None | Some(value: T)

  datatype Result<T> = Ok(value: T) | Err(error: Error)

  /** The host exceptions this layer raises; JavaException stands for a Java
      exception that process_java_exception turned into a host error. */
  datatype Error =
    | IndexError(msg: string)
    | TypeError(msg: string)
    | ValueError(msg: string)
    | RuntimeError(msg: string)
    | OverflowError
    | JavaException

  /** The component-type tags (JBOOLEAN_ID ... JARRAY_ID). */
  datatype ComponentType =
    | JBoolean | JByte | JChar | JShort | JInt | JLong | JFloat | JDouble
    | JString | JObject | JArray

  /** The eight tags whose arrays are pinned and accessed through raw memory. */
  predicate IsPrimitive(t: ComponentType) {
    !(t.JString? || t.JObject? || t.JArray?)
  }

  /** The integral primitive tags, whose elements are stored as Num. */
  predicate IsIntegral(t: ComponentType) {
    IsPrimitive(t) && !(t.JFloat? || t.JDouble?)
  }

  /** A byte of a UTF-8 encoded host string. */
  type Octet = b: int | 0 <= b < 0x100

  /** Floating-point values are opaque tokens compared by equality; 0 is +0.0. */
  type FloatToken = int

  /** A Java class, as far as the array layer needs to know it. */
  datatype JClass =
    | PrimitiveClass(tag: ComponentType)   // int.class, char.class, ...
    | StringClass                          // java.lang.String
    | ArrayClass(id: nat)                  // some array class
    | ObjectClass(id: nat)                 // any other reference class
    | UnmappedClass(id: nat)               // a class the type lookup rejects

  /** Host values handed to the wrapper. A host string is its UTF-8 encoding. */
  datatype PyValue =
    | PyNone
    | PyInt(v: int)
    | PyFloat(f: FloatToken)
    | PyStr(utf8: seq<Octet>)
    | JObjectProxy(ref: nat, clazz: JClass)   // a pyjobject over the Java object `ref`
    | JArrayProxy(ref: nat, clazz: JClass)    // a jarray over the Java array `ref`
    | PyOtherObject

  /** A slot of a Java array. */
  datatype Elem =
    | Num(n: int)             // integral primitive; a boolean is 0 or 1
    | Fp(f: FloatToken)       // float or double
    | Null                    // a null reference
    | JStr(text: seq<Octet>)  // a java.lang.String, compared by value
    | Ref(ref: nat)           // any other Java object or array, compared by identity
    | Boxed(v: PyValue)       // a Java object the conversion helper built from a host value

  // ---------------------------------------------------------------- C casts

  /** `(jbyte) v`: two's-complement wrap to 8 bits. */
  function ToJByte(v: int): (r: int)
    ensures -0x80 <= r < 0x80
    ensures (v - r) % 0x100 == 0
    ensures -0x80 <= v < 0x80 ==> r == v
  {
    (v + 0x80) % 0x100 - 0x80
  }

  /** `(jshort) v`: two's-complement wrap to 16 bits. */
  function ToJShort(v: int): (r: int)
    ensures -0x8000 <= r < 0x8000
    ensures (v - r) % 0x1_0000 == 0
    ensures -0x8000 <= v < 0x8000 ==> r == v
  {
    (v + 0x8000) % 0x1_0000 - 0x8000
  }

  /** `(jint) v` and `(jsize) v`: two's-complement wrap to 32 bits. */
  function ToJInt(v: int): (r: int)
    ensures -0x8000_0000 <= r < 0x8000_0000
    ensures (v - r) % 0x1_0000_0000 == 0
    ensures -0x8000_0000 <= v < 0x8000_0000 ==> r == v
  {
    (v + 0x8000_0000) % 0x1_0000_0000 - 0x8000_0000
  }

  /** `(jchar) v`: unsigned wrap to 16 bits. */
  function ToJChar(v: int): (r: int)
    ensures 0 <= r < 0x1_0000
    ensures (v - r) % 0x1_0000 == 0
    ensures 0 <= v < 0x1_0000 ==> r == v
  {
    v % 0x1_0000
  }

  predicate InLongRange(v: int) {
    -0x8000_0000_0000_0000 <= v < 0x8000_0000_0000_0000
  }

  /** PyLong_AsLongLong: the value itself when it fits in 64 bits, otherwise -1
      (an OverflowError is then pending, which the wrapper does not look at). */
  function AsLongLong(v: int): (r: int)
    ensures InLongRange(r)
    ensures InLongRange(v) ==> r == v
    ensures !InLongRange(v) ==> r == -1
  {
    if InLongRange(v) then v else -1
  }

  /** PyLong_AsLong on a 64-bit `long`, with the error the caller does check. */
  function AsLong(v: int): (r: Result<int>)
    ensures r.Ok? <==> InLongRange(v)
    ensures r.Ok? ==> r.value == v
    ensures r.Err? ==> r.error == OverflowError
  {
    if InLongRange(v) then Ok(v) else Err(OverflowError)
  }

  /** `(jchar) val[i]` where `val` is a `const char *` and `char` is signed:
      ASCII bytes keep their value, bytes from 0x80 up are sign-extended. */
  function CharFromCByte(b: Octet): (r: int)
    ensures 0 <= r < 0x1_0000
    ensures b < 0x80 ==> r == b
    ensures 0x80 <= b ==> r == b + 0xFF00
  {
    ToJChar(if b < 0x80 then b else b - 0x100)
  }

  /** strlen: the number of bytes before the first NUL. */
  function CStrLen(s: seq<Octet>): (n: nat)
    ensures n <= |s|
    ensures forall i :: 0 <= i < n ==> s[i] != 0
    ensures n < |s| ==> s[n] == 0
  {
    if |s| == 0 || s[0] == 0 then 0 else 1 + CStrLen(s[1..])
  }

  /** Does byte `b` start a code point (is it not a UTF-8 continuation byte)? */
  predicate StartsCodePoint(b: Octet) {
    b < 0x80 || 0xC0 <= b
  }

  /** PyUnicode_GetLength of the string whose UTF-8 encoding is `s`: the
      number of bytes that start a code point. */
  function CodePointLength(s: seq<Octet>): (n: nat)
    ensures n <= |s|
    ensures n > 0 <==> exists i :: 0 <= i < |s| && StartsCodePoint(s[i])
    ensures n == |s| <==> forall i :: 0 <= i < |s| ==> StartsCodePoint(s[i])
  {
    if |s| == 0 then 0
    else
      var rest := CodePointLength(s[1..]);
      assert forall i :: 1 <= i < |s| ==> s[i] == s[1..][i - 1];
      (if StartsCodePoint(s[0]) then 1 else 0) + rest
  }

  /** The count is additive over concatenation. With the singleton case (a
      lone byte counts 1 exactly when it starts a code point) this determines
      the count of every string. */
  lemma {:induction false} CodePointLengthAppend(a: seq<Octet>, b: seq<Octet>)
    ensures CodePointLength(a + b) == CodePointLength(a) + CodePointLength(b)
  {
    if |a| == 0 {
      assert a + b == b;
    } else {
      assert (a + b)[1..] == a[1..] + b;
      CodePointLengthAppend(a[1..], b);
    }
  }

  /** One code point's encoding, a lead byte followed by continuation bytes,
      has length 1. */
  lemma {:induction false} OneCodePoint(s: seq<Octet>)
    requires |s| > 0 && StartsCodePoint(s[0])
    requires forall i :: 1 <= i < |s| ==> !StartsCodePoint(s[i])
    ensures CodePointLength(s) == 1
  {
    var tail := s[1..];
    assert forall i :: 0 <= i < |tail| ==> !StartsCodePoint(tail[i]);
    assert !(exists i :: 0 <= i < |tail| && StartsCodePoint(tail[i]));
  }

  /** The number a string of decimal digits denotes. */
  function DigitsValue(s: string): int {
    if |s| == 0 then 0
    else DigitsValue(s[..|s| - 1]) * 10 + (s[|s| - 1] as int - '0' as int)
  }

  /** The decimal digits of `n`, most significant first, with no leading
      zero. */
  function Digits(n: nat): (s: string)
    ensures |s| > 0
    ensures forall i :: 0 <= i < |s| ==> '0' <= s[i] <= '9'
    ensures DigitsValue(s) == n
    ensures s[0] == '0' ==> n == 0
    ensures |s| > 1 ==> s[0] != '0'
  {
    var d := ['0', '1', '2', '3', '4', '5', '6', '7', '8', '9'][n % 10];
    if n < 10 then [d]
    else
      var front := Digits(n / 10);
      assert (front + [d])[..|front|] == front;
      front + [d]
  }

  /** printf's `%li`: an optional minus sign, then the decimal digits. */
  function Decimal(n: int): (s: string)
    ensures |s| > 0
    ensures s[0] == '-' <==> n < 0
    ensures forall i :: (if n < 0 then 1 else 0) <= i < |s| ==> '0' <= s[i] <= '9'
    ensures n >= 0 ==> DigitsValue(s) == n && (s[0] == '0' ==> n == 0) && (|s| > 1 ==> s[0] != '0')
    ensures n < 0 ==> |s| > 1 && DigitsValue(s[1..]) == -n && s[1] != '0'
  {
    if n < 0 then
      var r := "-" + Digits(-n);
      assert r[1..] == Digits(-n);
      r
    else Digits(n)
  }

  /** Clamp `x` into [lo, hi]. */
  function Clamp(x: int, lo: int, hi: int): (r: int)
    requires lo <= hi
    ensures lo <= r <= hi
    ensures lo <= x <= hi ==> r == x
    ensures x < lo ==> r == lo
    ensures hi < x ==> r == hi
  {
    if x < lo then lo else if x > hi then hi else x
  }
}
