/** Construction of jarray objects: pyjarray_new wraps an existing Java array,
    pyjarray_new_v validates (size, type id [, value]) or (size, pyjobject)
    and allocates a new one. */
module JArrayConstruction {
  import opened JTypes
  import opened Elements
  import opened Jvm
  import opened PyJArrays

  /** A constructor's outcome: a wrapper (with the host error left pending,
      if any) or NULL with an error. */
  datatype Made = Made(h: PyJArray, pending: Option<Error>) | NotMade(error: Error)

  /** pyjarray_new: wrap `obj`, resolving its type, length and pin (no fill).
      init's result -1 (type lookup failed) is nonzero, so the caller hands
      back the unresolved wrapper. */
  method New(obj: JavaArray?, answer: PinAnswer) returns (r: Made)
    modifies if obj == null then {} else {obj}
    ensures obj == null ==> r == NotMade(RuntimeError("Invalid array object."))
    ensures obj != null ==>
              && r.Made? && fresh(r.h) && r.h.obj == obj && r.h.Valid() && r.h.releases == []
              && obj.elems == old(obj.elems) && r.h.View() == obj.elems
    ensures obj != null && JType(obj.componentClass).None? ==>
              r.Made? && r.h.componentType.None? && r.h.length == -1 && r.pending.None?
    ensures obj != null && JType(obj.componentClass).Some? ==>
              && r.Made?
              && r.h.componentType == JType(obj.componentClass)
              && r.h.componentClass == Some(obj.componentClass)
              && r.h.length == |obj.elems|
              && (IsPrimitive(r.h.componentType.value) ==>
                    r.h.pinned == (answer != Refused) && (r.h.pinned ==> r.h.isCopy == (answer == Copy)))
              && r.pending == (if IsPrimitive(r.h.componentType.value) && answer == Refused
                               then Some(JavaException) else None)
    ensures r.Made? && r.pending.None? ==> r.h.Ready()
  {
    if obj == null {
      return NotMade(RuntimeError("Invalid array object."));
    }
    var h := new PyJArray(obj, None, None);
    var status, err := h.Init(false, None, answer);
    // init never yields 0 (its own pin failure is converted and left
    // pending), so the dealloc-and-return-NULL path is not reachable
    assert status != 0;
    r := Made(h, err);
  }

  /** The type-id argument: a host int equal to the id of tag `t`, or an int
      that is no id the switch of pyjarray_new_v handles. */
  datatype TypeId = IdOf(t: ComponentType) | OtherId

  /** The second argument of pyjarray_new_v. A jarray passes the pyjobject
      check too, and only its class is used. */
  datatype KindArg = TypeIdArg(id: TypeId) | ProxyArg(clazz: JClass) | OtherArg

  /** What pyjarray_new_v allocates: the tag, the Java array's component class,
      the global class reference it keeps, and the jsize. */
  datatype Plan = Plan(t: ComponentType, cls: JClass, compClass: Option<JClass>, size: nat)

  /** Does the type-id switch of pyjarray_new_v allocate for this id? */
  predicate Allocatable(id: TypeId)
    ensures Allocatable(id) <==> id.IdOf? && id.t != JObject && id.t != JArray
  {
    id.IdOf? && (IsPrimitive(id.t) || id.t == JString)
  }

  /** The argument checks of pyjarray_new_v, up to the allocation. The size is
      cast with `(jsize)`, and a negative jsize makes the JVM throw
      NegativeArraySizeException. */
  function NewArgs(one: PyValue, two: KindArg): (r: Result<Plan>)
    ensures r.Ok? <==>
              && one.PyInt? && 0 <= AsLongLong(one.v) && 0 <= ToJInt(AsLongLong(one.v))
              && (two.ProxyArg? || (two.TypeIdArg? && Allocatable(two.id)))
    ensures !one.PyInt? ==> r == Err(ValueError("Unknown arg types."))
    ensures one.PyInt? && two.OtherArg? ==>
              r == Err(ValueError("Unknown arg type: expected one of: J<foo>_ID, pyjobject, jarray"))
    ensures one.PyInt? && two.TypeIdArg? && AsLongLong(one.v) < 0 ==>
              r == Err(ValueError("Invalid size " + Decimal(AsLongLong(one.v))))
    ensures one.PyInt? && two.TypeIdArg? && 0 <= AsLongLong(one.v) && !Allocatable(two.id) ==>
              r == Err(ValueError("Unknown type."))
    ensures one.PyInt? && two.TypeIdArg? && 0 <= AsLongLong(one.v) && Allocatable(two.id) ==>
              (ToJInt(AsLongLong(one.v)) < 0 ==> r == Err(JavaException))
    ensures one.PyInt? && two.ProxyArg? && ToJInt(AsLongLong(one.v)) < 0 ==> r == Err(JavaException)
    ensures one.PyInt? && two.ProxyArg? && 0 <= ToJInt(AsLongLong(one.v)) && AsLongLong(one.v) < -1 ==>
              r == Err(ValueError("Unknown type."))
    ensures r.Ok? ==> r.value.size == ToJInt(AsLongLong(one.v))
    ensures r.Ok? ==> (one.v < 0x8000_0000 <==> r.value.size == one.v)
    ensures r.Ok? && two.TypeIdArg? ==>
              r.value.t == two.id.t && r.value.compClass.None? && JType(r.value.cls) == Some(two.id.t)
    ensures r.Ok? && two.ProxyArg? ==>
              r.value.t == JObject && r.value.cls == two.clazz && r.value.compClass == Some(two.clazz)
  {
    if !one.PyInt? then Err(ValueError("Unknown arg types."))
    else
      var size := AsLongLong(one.v);
      match two
      case OtherArg =>
        Err(ValueError("Unknown arg type: expected one of: J<foo>_ID, pyjobject, jarray"))
      case TypeIdArg(id) =>
        if size < 0 then Err(ValueError("Invalid size " + Decimal(size)))
        else if !Allocatable(id) then Err(ValueError("Unknown type."))
        else if ToJInt(size) < 0 then Err(JavaException)
        else Ok(Plan(id.t, ClassFor(id.t, StringClass), None, ToJInt(size)))
      case ProxyArg(c) =>
        if ToJInt(size) < 0 then Err(JavaException)
        else if size < -1 then Err(ValueError("Unknown type."))
        else Ok(Plan(JObject, c, Some(c), ToJInt(size)))
  }

  /** pyjarray_new_v: allocate a zeroed Java array as NewArgs plans, wrap it,
      and initialise it with the optional third argument as fill value. */
  method NewV(one: PyValue, two: KindArg, three: Option<PyValue>, answer: PinAnswer) returns (r: Made)
    ensures NewArgs(one, two).Err? ==> r == NotMade(NewArgs(one, two).error)
    ensures NewArgs(one, two).Ok? ==>
              var p := NewArgs(one, two).value;
              && r.Made? && fresh(r.h) && fresh(r.h.obj) && r.h.Valid()
              && r.h.obj.componentClass == p.cls
              && r.h.componentType == Some(p.t) && r.h.componentClass == p.compClass
              && r.h.length == p.size
              && r.pending == (if IsPrimitive(p.t) && answer == Refused then Some(JavaException) else None)
              && r.h.View() == (if r.pending.None? then Filled(Zeros(p.t, p.size), p.t, three)
                                else Zeros(p.t, p.size))
              && (r.h.pinned && r.h.isCopy ==> r.h.obj.elems == Zeros(p.t, p.size))
              && (r.pending.None? ==> r.h.Ready())
  {
    var args := NewArgs(one, two);
    if args.Err? {
      return NotMade(args.error);
    }
    var p := args.value;
    var arr := new JavaArray(p.cls, Zeros(p.t, p.size));
    var h := new PyJArray(arr, Some(p.t), p.compClass);
    var status, err := h.Init(true, three, answer);
    // init never yields 0 (its own pin failure is converted and left
    // pending), so the dealloc-and-return-NULL path is not reachable
    assert status != 0;
    r := Made(h, err);
  }
}
