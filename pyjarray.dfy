/** The jarray object (PyJArrayObject of src/main/c/Objects/pyjarray.c): a host
    object over one Java array. It caches the component type, the component
    class and the length, and for primitive arrays holds the pinned buffer,
    which is either the Java array's own storage or a private copy. */
module PyJArrays {
  import opened JTypes
  import opened Elements
  import opened Jvm

  /** The IndexError text of setitem and item, naming the position. */
  function OutOfRange(pos: int): (m: string)
    ensures |m| > 37 && m[..37] == "array assignment index out of range: "
    ensures m[37..] == Decimal(pos)
  {
    "array assignment index out of range: " + Decimal(pos)
  }

  class PyJArray {
    /** `object`: the wrapped Java array. */
    const obj: JavaArray
    /** `componentType`; None stands for -1, not yet resolved. */
    var componentType: Option<ComponentType>
    /** `componentClass`: the global reference to the component class, if any. */
    var componentClass: Option<JClass>
    /** `length`: -1 until resolved, then the Java array's length. */
    var length: int
    /** `pinnedArray != NULL`. */
    var pinned: bool
    /** `isCopy`, as reported by the JVM when the buffer was pinned. */
    var isCopy: bool
    /** The contents of the private copy; meaningful only when pinned && isCopy. */
    var buffer: seq<Elem>
    /** The Release<PrimitiveType>ArrayElements calls this wrapper has issued. */
    ghost var releases: seq<ReleaseCall>

    /** A pinned buffer belongs to a primitive array and a copy has its length. */
    ghost predicate PinConsistent()
      reads this, obj
    {
      && (pinned ==> componentType.Some? && IsPrimitive(componentType.value))
      && (pinned && isCopy ==> |buffer| == |obj.elems|)
    }

    /** The state every wrapper is in once construction has returned it. */
    ghost predicate Valid()
      reads this, obj
    {
      && PinConsistent()
      && (componentType.None? ==> length == -1 && !pinned)
      && (componentType.Some? ==> length == |obj.elems|)
      && (componentType == Some(JObject) || componentType == Some(JArray) ==> componentClass.Some?)
    }

    /** Valid, and a primitive array really holds a pinned buffer; a wrapper
        whose pin failed is created with a host error pending and is never
        handed to host code. */
    ghost predicate Ready()
      reads this, obj
    {
      Valid() && (componentType.Some? && IsPrimitive(componentType.value) ==> pinned)
    }

    /** The element storage the wrapper reads and writes: the private copy when
        it holds one, otherwise the Java array itself. */
    function View(): (s: seq<Elem>)
      reads this, obj
      ensures Valid() && componentType.Some? ==> |s| == length
    {
      if pinned && isCopy then buffer else obj.elems
    }

    /** The type, class, length and pin state are as before. */
    twostate predicate ShapeKept()
      reads this
    {
      && componentType == old(componentType)
      && componentClass == old(componentClass)
      && length == old(length)
      && pinned == old(pinned)
      && isCopy == old(isCopy)
    }

    /** PyJObject_New followed by the field resets of pyjarray_new and
        pyjarray_new_v. */
    constructor (obj: JavaArray, componentType: Option<ComponentType>, componentClass: Option<JClass>)
      ensures this.obj == obj && this.componentType == componentType
      ensures this.componentClass == componentClass
      ensures length == -1 && !pinned && !isCopy && buffer == [] && releases == []
    {
      this.obj := obj;
      this.componentType := componentType;
      this.componentClass := componentClass;
      length := -1;
      pinned := false;
      isCopy := false;
      buffer := [];
      releases := [];
    }

    // ----------------------------------------------------------------- pinning

    /** pyjarray_pin: ask the JVM for the elements of a primitive array; a
        reference array is left alone. The JVM's answer is the parameter. */
    method Pin(answer: PinAnswer) returns (err: Option<Error>)
      requires componentType.Some? && length == |obj.elems| && !pinned
      modifies this
      ensures componentType == old(componentType) && componentClass == old(componentClass)
      ensures length == old(length) && releases == old(releases)
      ensures IsPrimitive(componentType.value) ==>
                && pinned == (answer != Refused)
                && (answer == Direct ==> !isCopy)
                && (answer == Copy ==> isCopy && buffer == obj.elems)
      ensures !IsPrimitive(componentType.value) ==>
                pinned == old(pinned) && isCopy == old(isCopy) && buffer == old(buffer)
      ensures err == (if IsPrimitive(componentType.value) && answer == Refused
                      then Some(JavaException) else None)
      ensures View() == obj.elems
    {
      err := None;
      if IsPrimitive(componentType.value) {
        match answer
        case Direct =>
          pinned, isCopy := true, false;
        case Copy =>
          pinned, isCopy, buffer := true, true, obj.elems;
        case Refused =>
          pinned := false;
          err := Some(JavaException);
      }
    }

    /** pyjarray_release_pinned: nothing when no buffer is held, nothing for a
        direct view released with ABORT; otherwise one release call with the
        given mode, which copies a private copy back under COMMIT. The buffer
        pointer is kept in every case. */
    method ReleasePinned(mode: ReleaseMode)
      requires PinConsistent()
      modifies this, obj
      ensures PinConsistent() && ShapeKept() && buffer == old(buffer)
      ensures releases == old(releases) +
                (if old(pinned) && (old(isCopy) || mode == JniCommit)
                 then [Release(componentType.value, mode)] else [])
      ensures obj.elems == (if old(pinned) && old(isCopy) && mode == JniCommit
                            then old(buffer) else old(obj.elems))
    {
      if !pinned {
        return;
      }
      if !isCopy && mode == JniAbort {
        return;
      }
      releases := releases + [Release(componentType.value, mode)];
      if isCopy && mode == JniCommit {
        obj.elems := buffer;
      }
    }

    /** pyjarray_commit: release with COMMIT. The Java array then holds what
        the wrapper sees, and the wrapper keeps its buffer. */
    method Commit()
      requires Valid()
      modifies this, obj
      ensures Valid() && ShapeKept() && buffer == old(buffer)
      ensures View() == old(View()) && obj.elems == old(View())
      ensures releases == old(releases) +
                (if old(pinned) then [Release(componentType.value, JniCommit)] else [])
    {
      ReleasePinned(JniCommit);
    }

    /** pyjarray_dealloc: drop the component class reference and release the
        buffer with ABORT, so writes to a private copy that were never
        committed do not reach the Java array. */
    method Dealloc()
      requires Valid()
      modifies this, obj
      ensures componentClass.None?
      ensures obj.elems == old(obj.elems)
      ensures releases == old(releases) +
                (if old(pinned) && old(isCopy) then [Release(old(componentType).value, JniAbort)] else [])
    {
      componentClass := None;
      ReleasePinned(JniAbort);
    }

    // ----------------------------------------------------------- slot writes

    /** One store into the element storage: a write through the pinned buffer
        for a primitive array, SetObjectArrayElement for a reference array. */
    method StoreSlot(i: int, e: Elem)
      requires Valid() && 0 <= i < |View()|
      modifies this, obj
      ensures Valid() && ShapeKept() && releases == old(releases)
      ensures View() == old(View())[i := e]
      ensures pinned && isCopy ==> obj.elems == old(obj.elems)
      ensures !(pinned && isCopy) ==> buffer == old(buffer)
    {
      if pinned && isCopy {
        buffer := buffer[i := e];
      } else {
        obj.elems := obj.elems[i := e];
      }
    }

    /** The copy loop of pyjarray_slice into a freshly pinned array: slot by
        slot, `src` overwrites the element storage. */
    method CopyFrom(src: seq<Elem>)
      requires Valid() && |View()| == |src|
      modifies this, obj
      ensures Valid() && ShapeKept() && releases == old(releases)
      ensures View() == src
      ensures pinned && isCopy ==> obj.elems == old(obj.elems)
    {
      var i := 0;
      while i < |src|
        invariant 0 <= i <= |src|
        invariant Valid() && ShapeKept() && releases == old(releases)
        invariant |View()| == |src|
        invariant forall k :: 0 <= k < i ==> View()[k] == src[k]
        invariant pinned && isCopy ==> obj.elems == old(obj.elems)
      {
        StoreSlot(i, src[i]);
        i := i + 1;
      }
    }

    /** The fill of pyjarray_init: every slot of a primitive array gets the
        cast argument or zero; a CHAR array given a str gets its UTF-8 bytes up
        to the first NUL or the array's end. Reference arrays are untouched. */
    method Fill(value: Option<PyValue>)
      requires Valid() && componentType.Some?
      requires IsPrimitive(componentType.value) ==> pinned
      modifies this, obj
      ensures Valid() && ShapeKept() && releases == old(releases)
      ensures View() == Filled(old(View()), componentType.value, value)
      ensures pinned && isCopy ==> obj.elems == old(obj.elems)
      ensures !(pinned && isCopy) ==> buffer == old(buffer)
    {
      var t := componentType.value;
      if !IsPrimitive(t) {
        return;
      }
      if IsCharStringFill(t, value) {
        FillChars(value.value.utf8);
      } else {
        FillUniform(FillValue(t, value));
      }
    }

    /** The CHAR-from-str loop: slot i gets `(jchar) val[i]` for every i
        before both the first NUL and the array's end. */
    method FillChars(bytes: seq<Octet>)
      requires Valid() && componentType.Some?
      modifies this, obj
      ensures Valid() && ShapeKept() && releases == old(releases)
      ensures |View()| == length
      ensures forall k :: 0 <= k < length ==>
                View()[k] == if k < CStrLen(bytes) then Num(CharFromCByte(bytes[k])) else old(View())[k]
      ensures pinned && isCopy ==> obj.elems == old(obj.elems)
      ensures !(pinned && isCopy) ==> buffer == old(buffer)
    {
      var i := 0;
      while i < length && i < |bytes| && bytes[i] != 0
        invariant 0 <= i <= length && i <= CStrLen(bytes)
        invariant Valid() && ShapeKept() && releases == old(releases)
        invariant |View()| == length
        invariant forall k :: 0 <= k < i ==> View()[k] == Num(CharFromCByte(bytes[k]))
        invariant forall k :: i <= k < length ==> View()[k] == old(View())[k]
        invariant pinned && isCopy ==> obj.elems == old(obj.elems)
        invariant !(pinned && isCopy) ==> buffer == old(buffer)
      {
        StoreSlot(i, Num(CharFromCByte(bytes[i])));
        i := i + 1;
      }
      assert i < length ==> i == CStrLen(bytes);
    }

    /** The loop every other primitive fill uses: each slot gets `e`. */
    method FillUniform(e: Elem)
      requires Valid() && componentType.Some?
      modifies this, obj
      ensures Valid() && ShapeKept() && releases == old(releases)
      ensures |View()| == length
      ensures forall k :: 0 <= k < length ==> View()[k] == e
      ensures pinned && isCopy ==> obj.elems == old(obj.elems)
      ensures !(pinned && isCopy) ==> buffer == old(buffer)
    {
      var i := 0;
      while i < length
        invariant 0 <= i <= length
        invariant Valid() && ShapeKept() && releases == old(releases)
        invariant |View()| == length
        invariant forall k :: 0 <= k < i ==> View()[k] == e
        invariant pinned && isCopy ==> obj.elems == old(obj.elems)
        invariant !(pinned && isCopy) ==> buffer == old(buffer)
      {
        StoreSlot(i, e);
        i := i + 1;
      }
    }

    /** pyjarray_init: resolve the component type and class unless known, read
        the length, pin, and fill when asked to and no error is pending.
        Returns -1 when the type lookup fails, leaving the wrapper unresolved,
        and 1 otherwise; `err` is the host error left pending. */
    method Init(zero: bool, value: Option<PyValue>, answer: PinAnswer) returns (status: int, err: Option<Error>)
      requires length == -1 && !pinned
      requires componentType == Some(JObject) || componentType == Some(JArray) ==> componentClass.Some?
      modifies this, obj
      ensures Valid() && releases == old(releases)
      ensures status == -1 <==> old(componentType).None? && JType(obj.componentClass).None?
      ensures status != -1 ==> status == 1
      ensures status == -1 ==>
                componentType.None? && componentClass == old(componentClass) && err.None?
                && obj.elems == old(obj.elems)
      ensures status == 1 ==>
                && componentType == (if old(componentType).Some? then old(componentType)
                                     else JType(obj.componentClass))
                && componentClass == (if old(componentType).Some? then old(componentClass)
                                      else Some(obj.componentClass))
                && length == |obj.elems| == |old(obj.elems)|
                && (IsPrimitive(componentType.value) ==>
                      pinned == (answer != Refused) && (pinned ==> isCopy == (answer == Copy)))
                && (!IsPrimitive(componentType.value) ==> !pinned)
                && err == (if IsPrimitive(componentType.value) && answer == Refused
                           then Some(JavaException) else None)
                && View() == (if zero && err.None? then Filled(old(obj.elems), componentType.value, value)
                              else old(obj.elems))
                && (pinned && isCopy ==> obj.elems == old(obj.elems))
    {
      if componentType.None? {
        var comp := JType(obj.componentClass);
        if comp.None? {
          return -1, None;
        }
        componentClass := Some(obj.componentClass);
        componentType := comp;
      }
      if length < 0 {
        length := |obj.elems|;
      }
      err := Pin(answer);
      if zero && err.None? {
        Fill(value);
      }
      status := 1;
    }

    // ---------------------------------------------------------- element access

    /** pyjarray_length. */
    function Length(): (n: int)
      reads this, obj
      ensures Valid() ==> (n == -1 <==> componentType.None?)
      ensures Valid() && componentType.Some? ==> n == |obj.elems| == |View()|
    {
      length
    }

    /** Is `pos` a slot that pyjarray_setitem lets through its bounds check? */
    predicate InBounds(pos: int)
      reads this
    {
      !(pos < 0 || pos >= length || length < 1)
    }

    /** The outcome of pyjarray_setitem in the current state: the value stored
        at `pos`, or the error raised. `jvmAccepts` is whether the JVM takes a
        reference store (SetObjectArrayElement may throw ArrayStoreException).
        Checks come in the source's order: bounds, then for reference arrays
        the host type and the store, for primitive arrays the pinned buffer and
        then the host type. */
    function Assignment(pos: int, v: PyValue, jvmAccepts: bool): (r: Result<Elem>)
      reads this, obj
      requires Valid()
      ensures !InBounds(pos) ==> r == Err(IndexError(OutOfRange(pos)))
      ensures InBounds(pos) ==> componentType.Some?
      ensures InBounds(pos) && !IsPrimitive(componentType.value) ==>
                (r.Ok? <==> Accepts(componentType.value, v) && jvmAccepts)
      ensures InBounds(pos) && IsPrimitive(componentType.value) ==>
                (r.Ok? <==> pinned && Accepts(componentType.value, v))
      ensures InBounds(pos) && IsPrimitive(componentType.value) && !pinned ==>
                r == Err(RuntimeError("Pinned array shouldn't be null."))
      ensures InBounds(pos) && !Accepts(componentType.value, v) ==>
                (pinned || !IsPrimitive(componentType.value) ==> r.Err? && r.error.TypeError?)
      ensures r.Ok? ==> r == StoreValue(componentType.value, v) && Fits(componentType.value, r.value)
    {
      if !InBounds(pos) then Err(IndexError(OutOfRange(pos)))
      else
        var t := componentType.value;
        if !IsPrimitive(t) then
          match StoreValue(t, v)
          case Err(e) => Err(e)
          case Ok(x) => if jvmAccepts then Ok(x) else Err(JavaException)
        else if !pinned then Err(RuntimeError("Pinned array shouldn't be null."))
        else StoreValue(t, v)
    }

    /** pyjarray_setitem: on success exactly slot `pos` of the storage the
        wrapper sees changes, and a write to a private copy does not reach the
        Java array; on failure nothing changes. */
    method SetItem(pos: int, v: PyValue, jvmAccepts: bool) returns (r: Result<()>)
      requires Valid()
      modifies this, obj
      ensures Valid() && ShapeKept() && releases == old(releases)
      ensures r.Ok? <==> old(Assignment(pos, v, jvmAccepts)).Ok?
      ensures r.Err? ==> r.error == old(Assignment(pos, v, jvmAccepts)).error
      ensures r.Err? ==> View() == old(View()) && obj.elems == old(obj.elems) && buffer == old(buffer)
      ensures r.Ok? ==> View() == old(View())[pos := old(Assignment(pos, v, jvmAccepts)).value]
      ensures pinned && isCopy ==> obj.elems == old(obj.elems)
      ensures !(pinned && isCopy) ==> buffer == old(buffer)
    {
      if pos < 0 || pos >= length || length < 1 {
        return Err(IndexError(OutOfRange(pos)));
      }
      var t := componentType.value;
      if !IsPrimitive(t) {
        var stored := StoreValue(t, v);
        if stored.Err? {
          return Err(stored.error);
        }
        if !jvmAccepts {
          return Err(JavaException);
        }
        StoreSlot(pos, stored.value);
        return Ok(());
      }
      if !pinned {
        return Err(RuntimeError("Pinned array shouldn't be null."));
      }
      var stored := StoreValue(t, v);
      if stored.Err? {
        return Err(stored.error);
      }
      StoreSlot(pos, stored.value);
      r := Ok(());
    }

    /** pyjarray_item: IndexError exactly when the length is below 1; any other
        position is clamped into [0, length - 1], so it never fails for being
        out of range. */
    function Item(pos: int): (r: Result<HostItem>)
      reads this, obj
      requires Ready()
      ensures r.Err? <==> length < 1
      ensures r.Err? ==> r.error == IndexError(OutOfRange(pos))
      ensures 0 <= pos < length ==> r == Ok(ToHost(componentType.value, View()[pos]))
      ensures 1 <= length && pos < 0 ==> r == Ok(ToHost(componentType.value, View()[0]))
      ensures 1 <= length <= pos ==> r == Ok(ToHost(componentType.value, View()[length - 1]))
    {
      if length < 1 then Err(IndexError(OutOfRange(pos)))
      else Ok(ToHost(componentType.value, View()[Clamp(pos, 0, length - 1)]))
    }

    /** pyjarray_index: a linear scan from slot 0 for the value Probe derives
        from `v`; -1 when no slot matches. An unresolved wrapper (tag -1) raises
        RuntimeError. */
    method Index(v: PyValue) returns (r: Result<int>)
      requires Ready()
      ensures componentType.None? ==> r == Err(RuntimeError("Unknown type -1."))
      ensures componentType.Some? && Probe(componentType.value, v).Err? ==>
                r == Err(Probe(componentType.value, v).error)
      ensures componentType.Some? && Probe(componentType.value, v).Ok? ==>
                r == Ok(FirstIndexOf(View(), Probe(componentType.value, v).value))
    {
      if componentType.None? {
        return Err(RuntimeError("Unknown type -1."));
      }
      var probe := Probe(componentType.value, v);
      if probe.Err? {
        return Err(probe.error);
      }
      var p := probe.value;
      var i := 0;
      while i < length
        invariant 0 <= i <= length
        invariant p !in View()[..i]
      {
        if View()[i] == p {
          FirstIndexOfAt(View(), p, i);
          return Ok(i);
        }
        assert View()[..i + 1] == View()[..i] + [View()[i]];
        i := i + 1;
      }
      assert View()[..i] == View();
      r := Ok(-1);
    }

    /** listindex: the first matching index, ValueError when there is none.
        An error index() left pending, such as PyLong_AsLongLong's
        OverflowError, is raised whatever the scan returned. */
    method ListIndex(v: PyValue) returns (r: Result<int>)
      requires Ready()
      ensures r.Ok? <==> componentType.Some? && Probe(componentType.value, v).Ok? &&
                         !ProbeOverflows(componentType.value, v) &&
                         Probe(componentType.value, v).value in View()
      ensures r.Ok? ==> 0 <= r.value < length &&
                        View()[r.value] == Probe(componentType.value, v).value &&
                        Probe(componentType.value, v).value !in View()[..r.value]
      ensures componentType.Some? && ProbeOverflows(componentType.value, v) ==> r == Err(OverflowError)
      ensures componentType.Some? && Probe(componentType.value, v).Ok? &&
              !ProbeOverflows(componentType.value, v) &&
              Probe(componentType.value, v).value !in View() ==>
                r == Err(ValueError("list.index(x): x not in array"))
      ensures componentType.Some? && Probe(componentType.value, v).Err? ==>
                r == Err(Probe(componentType.value, v).error)
      ensures componentType.None? ==> r == Err(RuntimeError("Unknown type -1."))
    {
      var pos := Index(v);
      if pos.Err? {
        return Err(pos.error);
      }
      if ProbeOverflows(componentType.value, v) {
        return Err(OverflowError);
      }
      if pos.value >= 0 {
        return Ok(pos.value);
      }
      r := Err(ValueError("list.index(x): x not in array"));
    }

    /** pyjarray_contains: true exactly when index finds a slot; an error
        index() left pending is raised instead. */
    method Contains(v: PyValue) returns (r: Result<bool>)
      requires Ready()
      ensures r.Ok? <==> componentType.Some? && Probe(componentType.value, v).Ok? &&
                         !ProbeOverflows(componentType.value, v)
      ensures r.Ok? ==> (r.value <==> Probe(componentType.value, v).value in View())
      ensures componentType.Some? && ProbeOverflows(componentType.value, v) ==> r == Err(OverflowError)
      ensures componentType.Some? && Probe(componentType.value, v).Err? ==>
                r == Err(Probe(componentType.value, v).error)
      ensures componentType.None? ==> r == Err(RuntimeError("Unknown type -1."))
    {
      var pos := Index(v);
      if pos.Err? {
        return Err(pos.error);
      }
      if ProbeOverflows(componentType.value, v) {
        return Err(OverflowError);
      }
      r := Ok(pos.value >= 0);
    }
  }
}
