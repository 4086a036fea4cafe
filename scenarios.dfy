/** Client-level consequences of the wrapper's contracts: what reaches the
    Java array through a private copy, and concrete scenarios whose
    assertions Dafny verifies. */
module JArrayScenarios {
  import opened JTypes
  import opened Elements
  import opened Jvm
  import opened PyJArrays
  import opened JArrayConstruction
  import opened JArraySlicing
  import opened JArrayIterators

  /** A write into a private copy that is never committed is lost when the
      wrapper is deallocated: dealloc releases with ABORT. */
  method UncommittedWriteIsDropped(h: PyJArray, pos: int, v: PyValue, jvmAccepts: bool)
    requires h.Ready() && h.pinned && h.isCopy
    modifies h, h.obj
    ensures h.obj.elems == old(h.obj.elems)
    ensures h.releases == old(h.releases) + [Release(old(h.componentType).value, JniAbort)]
  {
    var _ := h.SetItem(pos, v, jvmAccepts);
    h.Dealloc();
  }

  /** The same write followed by commit reaches the Java array, and the
      wrapper keeps its buffer pinned. */
  method CommittedWriteReachesArray(h: PyJArray, pos: int, v: PyValue, jvmAccepts: bool)
    requires h.Ready() && h.pinned && h.isCopy && h.Assignment(pos, v, jvmAccepts).Ok?
    modifies h, h.obj
    ensures h.pinned && h.Ready()
    ensures h.obj.elems == old(h.View())[pos := old(h.Assignment(pos, v, jvmAccepts)).value]
    ensures h.releases == old(h.releases) + [Release(old(h.componentType).value, JniCommit)]
  {
    var _ := h.SetItem(pos, v, jvmAccepts);
    h.Commit();
  }

  /** jarray(3, JCHAR_ID, "ab"): the string's bytes fill the first two slots
      and the third stays zero. */
  method CharArrayFromString() returns (h: PyJArray)
    ensures fresh(h) && fresh(h.obj) && h.Ready() && h.componentType == Some(JChar)
    ensures h.View() == [Num(0x61), Num(0x62), Num(0)]
  {
    var bytes: seq<Octet> := [0x61, 0x62];
    assert CStrLen(bytes[1..]) == 1 by { assert bytes[1..][1..] == []; }
    var made := NewV(PyInt(3), TypeIdArg(IdOf(JChar)), Some(PyStr(bytes)), Direct);
    h := made.h;
    assert h.View() == Filled(Zeros(JChar, 3), JChar, Some(PyStr(bytes)));
  }

  /** Searching, storing out of range and reading past the end of the CHAR
      array above. */
  method CharSearchAndBounds()
  {
    var h := CharArrayFromString();
    var i := h.Index(PyInt(0x62));
    assert i == Ok(1) by { FirstIndexOfAt(h.View(), Num(0x62), 1); }
    var c := h.Contains(PyInt(0x7A));
    assert c == Ok(false);
    var s := h.SetItem(3, PyInt(0x63), true);
    assert s == Err(IndexError(OutOfRange(3)));
    assert h.Item(7) == Ok(FromJava(JChar, Num(0)));
  }

  /** jarray(4, JINT_ID, 7) over a private copy: every slot is 7. */
  method SevenFourTimes() returns (h: PyJArray)
    ensures fresh(h) && fresh(h.obj) && h.Ready() && h.componentType == Some(JInt)
    ensures h.View() == [Num(7), Num(7), Num(7), Num(7)]
  {
    var made := NewV(PyInt(4), TypeIdArg(IdOf(JInt)), Some(PyInt(7)), Copy);
    h := made.h;
    assert h.View() == [Num(7), Num(7), Num(7), Num(7)];
  }

  /** A store narrows to 32 bits, and a negative subscript counts from the end. */
  method IntStoreAndSubscript()
  {
    var h := SevenFourTimes();
    var s := h.SetItem(1, PyInt(0x1_0000_0005), true);
    assert s.Ok? && h.View() == [Num(7), Num(5), Num(7), Num(7)];
    var x := Subscript(h, IntKey(-3), Direct);
    assert x == Ok(Element(FromJava(JInt, Num(5))));
    var far := Subscript(h, IntKey(-100), Direct);
    assert far == Ok(Element(FromJava(JInt, Num(7))));
  }

  /** A slice copies the clamped range; a non-empty slice of step -1 is
      refused; iteration yields every slot. */
  method IntSliceAndIterate()
  {
    var h := SevenFourTimes();
    var sl := Slice(h, 1, 100, Direct);
    assert sl.Ok? && sl.value.View() == [Num(7), Num(7), Num(7)];
    var rev := Subscript(h, SliceKey(Ok(Indices(3, 0, -1, 3))), Direct);
    assert rev == Err(TypeError("pyjarray slices must have step of 1"));
    var all := Collect(h);
    assert |all| == 4 && all[3] == FromJava(JInt, Num(7));
  }

  /** Constructor errors surface in the source's order. */
  method ConstructorErrors()
  {
    var a := NewV(PyInt(-1), TypeIdArg(IdOf(JInt)), None, Direct);
    assert Decimal(-1) == "-1" by { assert Digits(1) == "1"; }
    assert "Invalid size " + "-1" == "Invalid size -1";
    assert a == NotMade(ValueError("Invalid size -1"));
    var b := NewV(PyInt(2), TypeIdArg(OtherId), None, Direct);
    assert b == NotMade(ValueError("Unknown type."));
    var c := NewV(PyStr([]), TypeIdArg(IdOf(JInt)), None, Direct);
    assert c == NotMade(ValueError("Unknown arg types."));
    var d := NewV(PyInt(0x1_0000_0000), ProxyArg(ObjectClass(1)), None, Direct);
    assert d.Made? && d.h.length == 0 && d.h.componentType == Some(JObject);
  }
}
