# jep `jarray`: a Dafny model of the Java-array wrapper

jep embeds CPython in the JVM. A Java array reaches Python as a `jarray`
object, implemented in `pyjarray.c`. The object holds:

- the Java array;
- its component-type tag;
- the component class;
- the length, which stays -1 until it is resolved;
- for primitive arrays, a pinned element buffer.

The JVM hands out that buffer through `Get<PrimitiveType>ArrayElements`. It is
either a direct view of the array's storage or a private copy (chapter 4 of the
Java Native Interface Specification, "Array Operations"). The buffer goes back
with `Release<PrimitiveType>ArrayElements`:

- `JNI_COMMIT` copies a private copy back and keeps the buffer;
- `JNI_ABORT` frees it without copying.

The Python wrapper reads and writes elements through the buffer. It also
searches, slices and iterates, and it releases the buffer on commit and on
deallocation.

The model is imperative, like the C code:

- `Jvm.JavaArray` is a class whose slot sequence changes and whose length does not.
- `PyJArrays.PyJArray` is a class with the wrapper's fields: `componentType`,
  `componentClass`, `length` and the pin state. A private copy is its own
  `buffer` sequence. A direct view is the Java array's own slots.
  `View()` is the storage the wrapper reads and writes. A ghost log records
  every release call issued.
- `JArrayIterators.PyJArrayIter` is the iterator: an index and an array
  reference that becomes null once the iterator is exhausted.
- The fill, copy and search loops are `while` loops with invariants. Each is
  proved against a function on sequences: `Filled`, `FirstIndexOf`, slicing of
  `View()`.
- The per-type rules are functions in `Elements`: which host values a slot
  takes, what is stored, what a search probes for, and what the fill writes.
  The C casts `(jint)`, `(jshort)`, `(jbyte)`, `(jchar)` and the
  `PyLong_AsLongLong` overflow result are written out explicitly in `JTypes`.

Answers the JVM gives at run time are parameters of the methods:

- `PinAnswer`: direct view, private copy, or refused with an
  OutOfMemoryError pending;
- `jvmAccepts`: whether `SetObjectArrayElement` takes a reference store, or
  throws instead.

A type id is a `TypeId` rather than a number: `IdOf(tag)` or an id the code
does not handle. The numeric `J*_ID` values are defined in `Jep.h`, which is
not part of this model.

In four places the code does something other than what one would expect from the
wrapper's interface, and the model follows the code:

- `jarray(n, a_jarray)` takes the pyjobject branch of `pyjarray_new_v`
  (`PyJObject_Check` accepts a jarray). The new array is tagged OBJECT, not
  ARRAY.
- A STRING array made by `pyjarray_new_v` gets no component class. Only
  OBJECT and ARRAY get one.
- `pyjarray_new` records the component class for every resolved tag, primitive
  ones included.
- `pyjarray_init` never returns 0 in this model. The only Java exception it can
  leave pending comes from a refused pin, and `pyjarray_pin` converts that
  exception into a host error itself. The "dealloc and return NULL" branches of
  both constructors are therefore unreachable, and the constructors assert so.
  A refused pin instead returns a wrapper with the error pending
  (`Made(h, Some(JavaException))`).

## Model

All source paths are relative to the repository root. Every member is in
`src/main/c/Objects/pyjarray.c` unless noted.

| member | source | states |
|---|---|---|
| JTypes.ToJByte | src/main/c/Objects/pyjarray.c:681-688 | `(jbyte)`: result in [-128,128), congruent to the input mod 2^8, identity on representable values |
| JTypes.ToJShort | src/main/c/Objects/pyjarray.c:736-744 | `(jshort)`: result in [-2^15,2^15), congruent mod 2^16, identity on representable values |
| JTypes.ToJInt | src/main/c/Objects/pyjarray.c:672-679 | `(jint)`/`(jsize)`: result in [-2^31,2^31), congruent mod 2^32, identity on representable values |
| JTypes.ToJChar | src/main/c/Objects/pyjarray.c:690-693 | `(jchar)`: result in [0,2^16), congruent mod 2^16, identity on [0,2^16) |
| JTypes.AsLongLong | src/main/c/Objects/pyjarray.c:101 | PyLong_AsLongLong: the value when it fits in 64 bits, otherwise -1 |
| JTypes.AsLong | src/main/c/Objects/pyjarray.c:1472-1475 | PyLong_AsLong with its checked error: Ok exactly on the 64-bit range, else OverflowError |
| JTypes.CharFromCByte | src/main/c/Objects/pyjarray.c:694-695 | `(jchar)` of a signed `char`: ASCII bytes unchanged, bytes from 0x80 sign-extended to 0xFF80.. |
| JTypes.CStrLen | src/main/c/Objects/pyjarray.c:277-279 | the scan stops at the first NUL: every earlier byte is nonzero and the byte at the result is NUL |
| JTypes.CodePointLength | src/main/c/Objects/pyjarray.c:693 | PyUnicode_GetLength of a UTF-8 string: at most its byte count; positive iff some byte starts a code point; equal to the byte count iff every byte does |
| JTypes.CodePointLengthAppend | src/main/c/Objects/pyjarray.c:693 | the count of a concatenation is the sum of the counts; with the singleton case this fixes the count of every string as its number of lead bytes |
| JTypes.OneCodePoint | src/main/c/Objects/pyjarray.c:693 | a lead byte followed only by continuation bytes is a string of length 1, the case a CHAR store from str accepts |
| JTypes.Digits | src/main/c/Objects/pyjarray.c:107 | decimal digits only, denoting exactly `n`, and no leading zero unless `n` is 0 and the string is "0" |
| JTypes.Decimal | src/main/c/Objects/pyjarray.c:107 | `%li` rendering: starts with '-' exactly for negative numbers, every other character is a decimal digit, the digits denote the magnitude exactly, and they have no leading zero |
| JTypes.Clamp | src/main/c/Objects/pyjarray.c:774-779 | result in [lo,hi], the input itself when inside, the nearer bound when outside |
| Elements.ZeroElem | src/main/c/Objects/pyjarray.c:119-148 | a new array's slot value holds for its type: 0 for integral types, null for reference types |
| Elements.Zeros | src/main/c/Objects/pyjarray.c:112-159 | a freshly allocated array has n slots, every one the zero value |
| Elements.Accepts | src/main/c/Objects/pyjarray.c:596-754 | setitem's host-type checks per tag: None is accepted exactly by the reference tags; an arbitrary host object never; a non-CHAR primitive takes a float exactly when it is FLOAT or DOUBLE |
| Elements.Searchable | src/main/c/Objects/pyjarray.c:896-1165 | index()'s host-type checks: everything index() searches for, setitem also stores; an OBJECT array stores a str but index() refuses it |
| Elements.AsJObject | src/main/c/Objects/pyjarray.c:621-625 | OBJECT store conversion: None to null, a proxy to its own reference; fails exactly for non-convertible host objects |
| Elements.StoreValue | src/main/c/Objects/pyjarray.c:596-754 | setitem's type table: Ok exactly when the host type is accepted, otherwise TypeError; the stored value fits the slot; an int is stored as the `(jint)`/`(jshort)`/`(jbyte)`/`(jchar)` wrap of its PyLong_AsLongLong value (LONG unwrapped, BOOLEAN 1 iff nonzero); a one-character str stores `(jchar)` of its first UTF-8 byte; None stores null; a jarray stores its own reference; OBJECT is the conversion helper's result |
| Elements.StoreReference | src/main/c/Objects/pyjarray.c:596-660 | the STRING/OBJECT/ARRAY half of the table: None to null, str to a String, a jarray to its own reference, the helper for OBJECT, TypeError otherwise |
| Elements.StorePrimitive | src/main/c/Objects/pyjarray.c:668-754 | the primitive half of the table: each accepted int narrowed by the slot's C cast, a one-character str by `(jchar) val[0]`, floats as given, TypeError otherwise |
| Elements.CharRefusesLongerStr | src/main/c/Objects/pyjarray.c:686-695 | a str made of two non-empty texts (such as "aé") is refused by a CHAR store and a CHAR probe alike |
| Elements.Probe | src/main/c/Objects/pyjarray.c:887-1186 | index()'s probe: Ok exactly for searchable host types, otherwise TypeError; an accepted probe is the value setitem would store for the same host value (so the same narrowing), a proxy probes for its own reference, None for null |
| Elements.ProbeFindsStored | src/main/c/Objects/pyjarray.c:596-754 | a value setitem stores is the value index() searches for, except for str/number into OBJECT |
| Elements.FirstIndexOf | src/main/c/Objects/pyjarray.c:893-930 | -1 iff the value is absent; otherwise the slot holds it and no earlier slot does |
| Elements.FirstIndexOfAt | src/main/c/Objects/pyjarray.c:1056-1074 | a slot holding the value with no earlier occurrence is the first index |
| Elements.SearchAfterStore | src/main/c/Objects/pyjarray.c:672-679 | after a store at i, index() of that value is at most i, and exactly i if no earlier slot held it |
| Elements.IdentityScanAsWritten | src/main/c/Objects/pyjarray.c:943-968 | the OBJECT/ARRAY scan as written: null slots match None, non-null slots are compared with the proxy's reference; a None probe meeting a non-null slot is undefined |
| Elements.IdentityScanFindsProxy | src/main/c/Objects/pyjarray.c:982-1007 | for a proxy probe the written scan finds exactly the first identical reference (by induction) |
| Elements.IdentityScanNone | src/main/c/Objects/pyjarray.c:982-1007 | for None the written scan is undefined iff the array is non-empty and slot 0 is not null; otherwise it agrees with the first null |
| Elements.NoneSearchReadsPastNone | src/main/c/Objects/pyjarray.c:943-968 | concrete witness: [object, null] searched for None is undefined as written, while the intended answer is 1 |
| Elements.FillValue | src/main/c/Objects/pyjarray.c:244-385 | the fill value is the cast argument of the matching host type, otherwise zero; BOOLEAN fills 1 iff the int is nonzero |
| Elements.Filled | src/main/c/Objects/pyjarray.c:240-389 | the fill keeps the length and leaves reference arrays alone; a CHAR-from-str fill sets the first strlen slots and keeps the rest; any other fill sets every slot to FillValue |
| Elements.FillWithoutValueIsZero | src/main/c/Objects/pyjarray.c:244-258 | on a fresh integral array, a fill without a matching value leaves all slots 0 |
| Elements.CharFillPrefix | src/main/c/Objects/pyjarray.c:276-280 | a CHAR fill from a string leaves every slot from min(length, strlen) on unchanged |
| Elements.ToHost | src/main/c/Objects/pyjarray.c:783-876 | a read gives None exactly for a null reference slot, otherwise a host value built from the slot and its tag |
| Jvm.JavaArray.constructor | src/main/c/Objects/pyjarray.c:112-159 | a new Java array has the given class and slots |
| Jvm.JType | src/main/c/Objects/pyjarray.c:215-228 | get_jtype on the component class: primitive classes, String, array and object classes map to their tag; the lookup fails exactly for unmapped classes |
| Jvm.ClassFor | src/main/c/Objects/pyjarray.c:1264-1287 | the class a tag's new array gets resolves back to the same tag for primitive and STRING tags |
| PyJArrays.OutOfRange | src/main/c/Objects/pyjarray.c:587-588 | the IndexError text is "array assignment index out of range: " followed by the position's decimal rendering |
| PyJArrays.PyJArray.View | src/main/c/Objects/pyjarray.c:664-754 | the storage seen through the wrapper has exactly `length` slots once resolved |
| PyJArrays.PyJArray.constructor | src/main/c/Objects/pyjarray.c:59-62 | a new wrapper is unresolved: length -1, nothing pinned, no release issued |
| PyJArrays.PyJArray.Pin | src/main/c/Objects/pyjarray.c:408-473 | primitive arrays are pinned unless the JVM refuses (then a Java error is pending), a copy starts equal to the array, and reference arrays are left alone |
| PyJArrays.PyJArray.ReleasePinned | src/main/c/Objects/pyjarray.c:495-567 | no call when nothing is pinned or for a direct view under ABORT; otherwise exactly one release of the tag with the mode; only copy+COMMIT changes the Java array (to the copy); the buffer pointer is kept |
| PyJArrays.PyJArray.Commit | src/main/c/Objects/pyjarray.c:1212-1223 | after commit the Java array holds what the wrapper saw, the view is unchanged, and a pinned array logs one COMMIT release |
| PyJArrays.PyJArray.Dealloc | src/main/c/Objects/pyjarray.c:475-491 | dealloc never changes the Java array (ABORT), releases the class reference (the model records the released reference as None; the C field keeps the deleted global reference), and logs an ABORT release only for a copy |
| PyJArrays.PyJArray.StoreSlot | src/main/c/Objects/pyjarray.c:677-679 | one raw slot write: the view changes at i only; a write to a copy leaves the Java array alone |
| PyJArrays.PyJArray.CopyFrom | src/main/c/Objects/pyjarray.c:1296-1300 | the slice copy loop leaves the new array's view equal to the source range |
| PyJArrays.PyJArray.Fill | src/main/c/Objects/pyjarray.c:240-389 | the view after the fill is Filled(old view, tag, value) |
| PyJArrays.PyJArray.FillChars | src/main/c/Objects/pyjarray.c:276-280 | slot k gets `(jchar) val[k]` for k below strlen, every other slot keeps its value |
| PyJArrays.PyJArray.FillUniform | src/main/c/Objects/pyjarray.c:253-255 | every slot gets the fill value |
| PyJArrays.PyJArray.Init | src/main/c/Objects/pyjarray.c:205-404 | tri-state: -1 iff the tag was unknown and the lookup fails (nothing changed); otherwise 1, with tag, class and length resolved, the pin state, the pending error, and the view filled when asked and no error is pending |
| PyJArrays.PyJArray.Length | src/main/c/Objects/pyjarray.c:1516-1522 | -1 exactly when unresolved, otherwise the Java array's length and the view's |
| PyJArrays.PyJArray.Assignment | src/main/c/Objects/pyjarray.c:579-760 | IndexError when pos<0, pos>=length or length<1, before any other check; reference stores succeed iff the host type is accepted and the JVM takes it; primitive stores need the pinned buffer and an accepted type; the stored value is StoreValue's |
| PyJArrays.PyJArray.SetItem | src/main/c/Objects/pyjarray.c:579-760 | succeeds iff Assignment does; then exactly slot pos of the view changes, to Assignment's value; on failure nothing changes; a copy's writes do not reach the Java array |
| PyJArrays.PyJArray.Item | src/main/c/Objects/pyjarray.c:763-884 | IndexError iff length<1; otherwise the slot at clamp(pos, 0, length-1) (first slot for negative pos, last for pos past the end) |
| PyJArrays.PyJArray.Index | src/main/c/Objects/pyjarray.c:887-1186 | an unresolved tag raises RuntimeError; an unsearchable value raises Probe's TypeError; otherwise the first index of the probe in the view, -1 when absent |
| PyJArrays.PyJArray.ListIndex | src/main/c/Objects/pyjarray.c:1189-1209 | Ok exactly when the probe occurs and its conversion did not overflow; then the first position holding it; OverflowError for an int outside the 64-bit range on an integral array; ValueError "list.index(x): x not in array" when absent; index()'s TypeError, or its RuntimeError "Unknown type -1." for an unresolved wrapper, passed through |
| PyJArrays.PyJArray.Contains | src/main/c/Objects/pyjarray.c:1226-1237 | true iff the probe occurs in the view; OverflowError for an int outside the 64-bit range on an integral array; index()'s TypeError, or its RuntimeError "Unknown type -1." for an unresolved wrapper, otherwise |
| JArrayConstruction.New | src/main/c/Objects/pyjarray.c:43-70 | NULL gives RuntimeError "Invalid array object."; otherwise a fresh wrapper over the array, tag from its class (unresolved, length -1, if unmapped), length, pin state and pending error, with the contents untouched |
| JArrayConstruction.Allocatable | src/main/c/Objects/pyjarray.c:111-150 | the switch allocates for a resolved type id exactly when it is not OBJECT or ARRAY |
| JArrayConstruction.NewArgs | src/main/c/Objects/pyjarray.c:77-184 | Ok iff the size is an int that is non-negative before and after the jsize cast and the kind is a pyjobject or a handled type id; errors in source order: "Unknown arg types.", "Unknown arg type: …", "Invalid size N", "Unknown type." for an unhandled id, the Java exception for a negative jsize, and "Unknown type." for a pyjobject with size below -1; the planned size is the jsize cast, equal to the argument below 2^31; a pyjobject gives OBJECT with its class kept |
| JArrayConstruction.NewV | src/main/c/Objects/pyjarray.c:77-202 | NewArgs' error, or a fresh wrapper over a fresh zeroed array whose tag, class and length are as planned, whose view is the fill of the zeros (when no error is pending), and whose Java array still holds zeros behind a private copy |
| JArraySlicing.SliceBounds | src/main/c/Objects/pyjarray.c:1253-1263 | 0 <= lo <= hi <= length with lo = clamp(ilow, 0, length) and hi = clamp(ihigh, lo, length); in-range bounds are kept; ihigh <= ilow gives an empty range |
| JArraySlicing.SliceLength | src/main/c/Objects/pyjarray.c:1263 | the slice length is the overlap of [ilow, ihigh) with [0, length) |
| JArraySlicing.SliceClass | src/main/c/Objects/pyjarray.c:1265-1287 | the new array's class: the tag's own class for primitive and STRING, the wrapper's component class for OBJECT and ARRAY |
| JArraySlicing.Slice | src/main/c/Objects/pyjarray.c:1241-1465 | unresolved gives ValueError "Unsupported type."; a refused pin of the new primitive array gives its error; otherwise a fresh array whose view is the source view's [lo, hi) range, tagged from its class, and the source is unchanged |
| JArraySlicing.CopyElements | src/main/c/Objects/pyjarray.c:1440-1451 | the reference copy loop leaves the new Java array equal to the source range |
| JArraySlicing.Subscript | src/main/c/Objects/pyjarray.c:1469-1501 | an int key that overflows gives OverflowError; otherwise a negative key gets length added and item decides; slice index errors pass through; slicelength <= 0 gives slice(0,0) whatever the step; otherwise step != 1 gives TypeError; a slice that is taken returns slice's result, including its "Unsupported type." and pin errors; any other key gives TypeError |
| JArrayIterators.PyJArrayIter.constructor | src/main/c/Objects/pyjarray.c:1598-1621 | the iterator starts at index 0 on the array |
| JArrayIterators.PyJArrayIter.Len | src/main/c/Objects/pyjarray.c:1649-1658 | never negative; 0 once exhausted; while live and before the end, positive and equal to length - index |
| JArrayIterators.PyJArrayIter.Next | src/main/c/Objects/pyjarray.c:1629-1647 | before the end: item(index), then one step on; otherwise nothing is yielded and the array is dropped for good; yields iff the length hint was positive, which then drops by one |
| JArrayIterators.Collect | src/main/c/Objects/pyjarray.c:1598-1647 | running an iterator to exhaustion yields every slot in order, as item converts it |
| JArrayScenarios.UncommittedWriteIsDropped | src/main/c/Objects/pyjarray.c:475-491 | a write to a private copy followed by dealloc leaves the Java array as it was, with one ABORT release |
| JArrayScenarios.CommittedWriteReachesArray | src/main/c/Objects/pyjarray.c:1212-1223 | the same write followed by commit reaches the Java array, and the buffer stays pinned |
| JArrayScenarios.CharArrayFromString | src/main/c/Objects/pyjarray.c:260-284 | jarray(3, JCHAR_ID, "ab") holds 'a', 'b', 0 |
| JArrayScenarios.SevenFourTimes | src/main/c/Objects/pyjarray.c:244-258 | jarray(4, JINT_ID, 7) holds 7 in every slot |

`JArrayScenarios.CharSearchAndBounds`, `IntStoreAndSubscript`,
`IntSliceAndIterate` and `ConstructorErrors` are concrete scenarios of the
operations above, whose assertions Dafny verifies. They include the narrowing store of 2^32+5 as 5, `a[-100]`
clamping to slot 0, `jarray(-1, …)` failing with "Invalid size -1", and
`jarray(2**32, pyjobject)` giving an empty array (the jsize cast).

## Left out

- JNI plumbing is abstracted into the `JavaArray` class and the `PinAnswer` and
  `jvmAccepts` parameters. This covers local and global references,
  `GetArrayLength`, the `New*Array` calls, `process_java_exception` and the
  Java exception objects. Every converted Java exception is `JavaException`.
- The conversion helpers in other files stay abstract: `PyObject_As_jobject`,
  `PyObject_As_jstring`, `jstring_As_PyString`, `jobject_As_PyObject`,
  `j*_As_PyObject` and `java_lang_Class_getComponentType`. `get_jtype` is
  modelled by `Jvm.JType` on an abstract class datatype. A read is a
  `HostItem` that records the tag and the slot.
- Elements.AsJObject: `PyObject_As_jobject` is given the array's component
  class (pyjarray.c:622), and its verdict can depend on that class. The model
  does not capture this class-dependent refusal. Every host value except an
  arbitrary host object converts, and a value of the wrong class can fail only
  as the Java exception of the store (`jvmAccepts`), never as the helper's own
  TypeError. A failed conversion is a TypeError "Expected jobject."; the real
  helper's message is not part of this model.
- Python object machinery is not modelled: `PyJObject_New`, reference counting,
  type registration (`jarray_type_init`, `jarray_iter_type_ready`),
  `PyArg_UnpackTuple`/`PyArg_ParseTuple`, `pyjarray_str` (a Java `toString`
  call), the iterator's dealloc and getattr, and `PyErr_BadInternalCall` for a
  non-jarray given to `pyjarray_iter` (the model's parameter type is a jarray).
- `PySlice_GetIndicesEx` is not modelled. Its outcome, indices or error, is the
  input `Indices`/`Result`.
- Floating point is not modelled. Float and double values are opaque tokens
  compared by equality, so `PyFloat_AsDouble`, `(jfloat)` narrowing, NaN and
  -0.0 are left out.
- Type ids are the `TypeId` datatype. The `(int)` truncation of the type-id
  argument and ids outside the tag set are covered only as `OtherId`.
- The integer parameters are unbounded. `pyjarray_setitem`'s `int pos` and
  `pyjarray_item`'s `Py_ssize_t` are not truncated, and Java array lengths are
  assumed to fit a `jsize`.
- PyJArrays.PyJArray.Item: a read whose conversion raises (a string or object
  slot the helper cannot convert) is not modelled; the "Unknown type N." branch
  is unreachable because an unresolved wrapper has length -1.
- The OverflowError that `PyLong_AsLongLong` leaves pending on an int outside
  the 64-bit range is not modelled in setitem, the fill or index(). These
  store or search for the conversion of -1: -1 for BYTE, SHORT, INT and LONG,
  1 for BOOLEAN (-1 is nonzero) and 0xFFFF for CHAR. They raise nothing; in
  CPython the pending error surfaces later. ListIndex and Contains test for the
  pending error, as listindex and contains do, and raise OverflowError.
- The wrapper returned with a pending error after a refused pin (`Made(h,
  Some(JavaException))`) is not given to host code in the model. Operations
  require `Ready()`, which includes "a primitive array is pinned".
  `pyjarray_slice` and the other readers would dereference the null buffer.
- JArraySlicing.Slice: the wrapper leaked when the new array's pin is refused is
  not modelled. The slice just returns the error.
- The platform is taken to be LP64 with a signed `char`, as on x86-64 Linux
  and macOS. `long` is 64 bits in `(long) PyLong_AsLongLong(one)`
  (pyjarray.c:101) and in `PyLong_AsLong` (pyjarray.c:1472). On LLP64 Windows
  `long` is 32 bits, so a size of 2^31 there gives "Invalid size" where the
  model raises the Java exception. `(jchar) val[i]` (pyjarray.c:279, 695)
  sign-extends bytes from 0x80 up. With an unsigned `char`, as on aarch64
  Linux, 'é' would store 0xC3 rather than 0xFFC3.
- PyJArrays.PyJArray.Dealloc: models the build with `USE_DEALLOC` set and a
  thread with a JNI environment (pyjarray.c:477-479). Without either, dealloc
  releases nothing and keeps the class reference; the model does not cover that
  case.
- Concurrency is not modelled. Java threads writing the array while it is
  pinned are not represented.

## Findings

| source | as written | input that shows it | evidently intended | confidence | as-written member | corrected member |
|---|---|---|---|---|---|---|
| src/main/c/Objects/pyjarray.c:943-968, 982-1007 | for OBJECT and ARRAY, `index(None)` casts `Py_None` to a Java proxy and reads `obj->object` whenever it meets a non-null slot before a null one | an OBJECT array `[o, null]` searched for `None` (also via `None in a` and `a.index(None)`) | return 1, the first null slot, as in the STRING case (pyjarray.c:893-930) | not executed | Elements.IdentityScanAsWritten, Elements.NoneSearchReadsPastNone | Elements.FirstIndexOf, PyJArrays.PyJArray.Index |
