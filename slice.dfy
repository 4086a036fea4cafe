/** Slicing and subscripting: pyjarray_slice copies a clamped range of slots
    into a new Java array and wraps it; pyjarray_subscript dispatches an
    integer key to item and a slice key to slice. */
module JArraySlicing {
  import opened JTypes
  import opened Elements
  import opened Jvm
  import opened PyJArrays
  import opened JArrayConstruction

  /** The bounds clamping of pyjarray_slice: ilow into [0, length], then ihigh
      into [ilow, length]. */
  function SliceBounds(ilow: int, ihigh: int, length: int): (b: (int, int))
    requires 0 <= length
    ensures 0 <= b.0 <= b.1 <= length
    ensures b.0 == Clamp(ilow, 0, length) && b.1 == Clamp(ihigh, b.0, length)
    ensures 0 <= ilow <= ihigh <= length ==> b == (ilow, ihigh)
    ensures ihigh <= ilow ==> b.0 == b.1
  {
    var lo := if ilow < 0 then 0 else if ilow > length then length else ilow;
    var hi := if ihigh < lo then lo else if ihigh > length then length else ihigh;
    (lo, hi)
  }

  /** The number of slots a slice copies: the overlap of [ilow, ihigh) with
      [0, length). */
  lemma SliceLength(ilow: int, ihigh: int, length: int)
    requires 0 <= length
    ensures var b := SliceBounds(ilow, ihigh, length);
            var start := if ilow < 0 then 0 else ilow;
            var stop := if ihigh > length then length else ihigh;
            b.1 - b.0 == if stop <= start then 0 else stop - start
  {
  }

  /** The Java class of the array pyjarray_slice creates for a wrapper of this
      tag: the primitive class, String, or the wrapper's component class. */
  function SliceClass(t: ComponentType, componentClass: Option<JClass>): (c: JClass)
    requires t.JObject? || t.JArray? ==> componentClass.Some?
    ensures IsPrimitive(t) || t.JString? ==> JType(c) == Some(t)
    ensures t.JObject? || t.JArray? ==> c == componentClass.value
  {
    ClassFor(t, if componentClass.Some? then componentClass.value else StringClass)
  }

  /** pyjarray_slice. The primitive copy goes through both pinned buffers; the
      reference copy goes element by element from the source Java array into
      the new one, which is then wrapped (its tag comes from its class, so an
      OBJECT array of String slices to a STRING array). `answer` is the JVM's
      answer to the new array's pin. */
  method Slice(self: PyJArray, ilow: int, ihigh: int, answer: PinAnswer) returns (r: Result<PyJArray>)
    requires self.Ready()
    ensures self.componentType.None? ==> r == Err(ValueError("Unsupported type."))
    ensures self.componentType.Some? && IsPrimitive(self.componentType.value) && answer == Refused ==>
              r == Err(JavaException)
    ensures self.componentType.Some? && !(IsPrimitive(self.componentType.value) && answer == Refused) ==>
              && r.Ok? && fresh(r.value) && fresh(r.value.obj) && r.value.Valid()
              && var t := self.componentType.value;
                 var b := SliceBounds(ilow, ihigh, self.length);
                 && r.value.obj.componentClass == SliceClass(t, self.componentClass)
                 && r.value.componentType == JType(r.value.obj.componentClass)
                 && r.value.View() == self.View()[b.0..b.1]
                 && (IsPrimitive(t) ==> r.value.Ready() && r.value.componentType == Some(t))
  {
    if self.componentType.None? {
      return Err(ValueError("Unsupported type."));
    }
    var t := self.componentType.value;
    var b := SliceBounds(ilow, ihigh, self.length);
    var lo, len := b.0, b.1 - b.0;
    var arr := new JavaArray(SliceClass(t, self.componentClass),
                             if IsPrimitive(t) then Zeros(t, len) else Zeros(JObject, len));
    if IsPrimitive(t) {
      var made := New(arr, answer);
      if made.pending.Some? {
        return Err(JavaException);
      }
      var h := made.h;
      h.CopyFrom(self.View()[lo..lo + len]);
      return Ok(h);
    }
    CopyElements(arr, self.obj.elems[lo..lo + len]);
    assert arr.elems == self.View()[lo..lo + len];
    var made := New(arr, answer);
    r := Ok(made.h);
  }

  /** The reference copy loop of pyjarray_slice: GetObjectArrayElement from
      the source, SetObjectArrayElement into the new array of the same
      component class (so no ArrayStoreException), one slot at a time. */
  method CopyElements(dst: JavaArray, src: seq<Elem>)
    requires |dst.elems| == |src|
    modifies dst
    ensures dst.elems == src
  {
    var i := 0;
    while i < |src|
      invariant 0 <= i <= |src| && |dst.elems| == |src|
      invariant forall k :: 0 <= k < i ==> dst.elems[k] == src[k]
    {
      dst.elems := dst.elems[i := src[i]];
      i := i + 1;
    }
  }

  /** What PySlice_GetIndicesEx leaves for a slice object and the array's
      length. */
  datatype Indices = Indices(start: int, stop: int, step: int, slicelength: int)

  /** A subscript key: a host int, a slice (whose index computation may have
      failed), or anything else. */
  datatype Key = IntKey(i: int) | SliceKey(ix: Result<Indices>) | OtherKey

  /** What a subscript yields: one element, or a new array. */
  datatype Subscripted = Element(x: HostItem) | Sliced(a: PyJArray)

  /** pyjarray_subscript. A negative int key counts from the end, and item
      then clamps what is still out of range; a slice of step other than 1 is
      refused unless it is empty. */
  method Subscript(self: PyJArray, key: Key, answer: PinAnswer) returns (r: Result<Subscripted>)
    requires self.Ready()
    ensures key.OtherKey? ==> r == Err(TypeError("pyjarray indices must be integers, longs, or slices"))
    ensures key.IntKey? && !InLongRange(key.i) ==> r == Err(OverflowError)
    ensures key.IntKey? && InLongRange(key.i) ==>
              var pos := if key.i < 0 then key.i + self.length else key.i;
              match self.Item(pos)
              case Ok(x) => r == Ok(Element(x))
              case Err(e) => r == Err(e)
    ensures key.SliceKey? && key.ix.Err? ==> r == Err(key.ix.error)
    ensures key.SliceKey? && key.ix.Ok? && key.ix.value.slicelength > 0 && key.ix.value.step != 1 ==>
              r == Err(TypeError("pyjarray slices must have step of 1"))
    ensures key.SliceKey? && key.ix.Ok? && (key.ix.value.slicelength <= 0 || key.ix.value.step == 1) ==>
              && (self.componentType.None? ==> r == Err(ValueError("Unsupported type.")))
              && (self.componentType.Some? && IsPrimitive(self.componentType.value) && answer == Refused ==>
                    r == Err(JavaException))
    ensures key.SliceKey? && key.ix.Ok? && self.componentType.Some?
            && !(IsPrimitive(self.componentType.value) && answer == Refused)
            && (key.ix.value.slicelength <= 0 || key.ix.value.step == 1) ==>
              var ix := key.ix.value;
              var b := if ix.slicelength <= 0 then (0, 0)
                       else SliceBounds(ix.start, ix.stop, self.length);
              && r.Ok? && r.value.Sliced? && fresh(r.value.a) && r.value.a.Valid()
              && r.value.a.View() == self.View()[b.0..b.1]
  {
    match key
    case OtherKey =>
      r := Err(TypeError("pyjarray indices must be integers, longs, or slices"));
    case IntKey(k) =>
      var i := AsLong(k);
      if i.Err? {
        return Err(i.error);
      }
      var pos := if i.value < 0 then i.value + self.length else i.value;
      var x := self.Item(pos);
      r := if x.Ok? then Ok(Element(x.value)) else Err(x.error);
    case SliceKey(ix) =>
      if ix.Err? {
        return Err(ix.error);
      }
      var s: Result<PyJArray>;
      if ix.value.slicelength <= 0 {
        s := Slice(self, 0, 0, answer);
      } else if ix.value.step != 1 {
        return Err(TypeError("pyjarray slices must have step of 1"));
      } else {
        s := Slice(self, ix.value.start, ix.value.stop, answer);
      }
      r := if s.Ok? then Ok(Sliced(s.value)) else Err(s.error);
  }
}
