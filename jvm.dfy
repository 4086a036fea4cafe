/** The Java side as the array wrapper sees it through the embedding interface:
    a Java array object with a fixed component class and mutable contents, the
    class-to-tag lookup, and the JVM's answers to the pin and release calls of
    the Get/Release<PrimitiveType>ArrayElements family in chapter 4 of the
    Java Native Interface Specification. */
module Jvm {
  import opened JTypes

  /** A Java array. Its length never changes; only its slots do. */
  class JavaArray {
    const componentClass: JClass
    var elems: seq<Elem>

    constructor (componentClass: JClass, elems: seq<Elem>)
      ensures this.componentClass == componentClass && this.elems == elems
    {
      this.componentClass := componentClass;
      this.elems := elems;
    }
  }

  /** get_jtype on the component class of an array: the tag of the class, or
      None when the lookup fails (a negative type id). */
  function JType(c: JClass): (r: Option<ComponentType>)
    ensures c.PrimitiveClass? && IsPrimitive(c.tag) ==> r == Some(c.tag)
    ensures c == StringClass ==> r == Some(JString)
    ensures c.ArrayClass? ==> r == Some(JArray)
    ensures c.ObjectClass? ==> r == Some(JObject)
    ensures r.None? <==> c.UnmappedClass? || (c.PrimitiveClass? && !IsPrimitive(c.tag))
  {
    match c
    case PrimitiveClass(t) => if IsPrimitive(t) then Some(t) else None
    case StringClass => Some(JString)
    case ArrayClass(_) => Some(JArray)
    case ObjectClass(_) => Some(JObject)
    case UnmappedClass(_) => None
  }

  /** The class of the Java arrays that NewObjectArray and New<Primitive>Array
      create for a tag, given the component class an OBJECT or ARRAY array
      uses. */
  function ClassFor(t: ComponentType, refClass: JClass): (c: JClass)
    ensures IsPrimitive(t) ==> JType(c) == Some(t)
    ensures t == JString ==> JType(c) == Some(JString)
  {
    if IsPrimitive(t) then PrimitiveClass(t)
    else if t == JString then StringClass
    else refClass
  }

  /** What Get<PrimitiveType>ArrayElements returns: the array's own storage
      (isCopy false), a private copy (isCopy true), or NULL with an
      OutOfMemoryError pending. */
  datatype PinAnswer = Direct | Copy | Refused

  /** The release modes the wrapper uses: JNI_COMMIT copies a private copy back
      and keeps the buffer; JNI_ABORT frees the buffer without copying back. */
  datatype ReleaseMode = JniCommit | JniAbort

  /** One Release<PrimitiveType>ArrayElements call. */
  datatype ReleaseCall = Release(t: ComponentType, mode: ReleaseMode)
}
