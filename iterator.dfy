/** The jarray iterator: an index into a jarray that yields item(index) while
    the index is below the length, and drops its array once exhausted. */
module JArrayIterators {
  import opened JTypes
  import opened Elements
  import opened PyJArrays

  class PyJArrayIter {
    var index: int
    /** it_seq: the array being iterated, null once the iterator is exhausted. */
    var source: PyJArray?

    /** pyjarray_iter. */
    constructor (a: PyJArray)
      ensures index == 0 && source == a
    {
      index := 0;
      source := a;
    }

    /** The iterator's length hint: the slots still to come, 0 once
        exhausted. */
    function Len(): (n: int)
      reads this, source
      ensures 0 <= n
      ensures source == null ==> n == 0
      ensures n > 0 ==> source != null && index + n == source.length
      ensures source != null && 0 <= index < source.length ==> n > 0
    {
      if source != null && source.length - index >= 0 then source.length - index else 0
    }

    /** pyjarrayiter_next: the element at the index, then one step on; past
        the end, None (StopIteration), and the array is dropped for good. */
    method Next() returns (x: Option<HostItem>)
      requires source != null ==> source.Ready() && 0 <= index
      modifies this
      ensures old(source) != null && old(index) < old(source.length) ==>
                && source == old(source) && index == old(index) + 1
                && x == Some(ToHost(source.componentType.value, source.View()[old(index)]))
      ensures !(old(source) != null && old(index) < old(source.length)) ==>
                x.None? && source == null && index == old(index)
      ensures x.Some? <==> old(Len()) > 0
      ensures Len() == if old(Len()) > 0 then old(Len()) - 1 else 0
    {
      if source == null {
        return None;
      }
      if index < source.length {
        var item := source.Item(index);
        index := index + 1;
        return Some(item.value);
      }
      source := null;
      x := None;
    }
  }

  /** `list(a)`: run an iterator over `a` to exhaustion. It yields every slot,
      in order, as item converts it. */
  method Collect(a: PyJArray) returns (xs: seq<HostItem>)
    requires a.Ready()
    ensures |xs| == if a.length < 0 then 0 else a.length
    ensures forall k :: 0 <= k < |xs| ==>
              a.componentType.Some? && xs[k] == ToHost(a.componentType.value, a.View()[k])
  {
    var it := new PyJArrayIter(a);
    xs := [];
    var done := false;
    while !done
      invariant !done ==> it.source == a && it.index == |xs| && (|xs| <= a.length || |xs| == 0)
      invariant done ==> |xs| == if a.length < 0 then 0 else a.length
      invariant forall k :: 0 <= k < |xs| ==>
                  a.componentType.Some? && xs[k] == ToHost(a.componentType.value, a.View()[k])
      decreases (if a.length < 0 then 0 else a.length) - |xs| + (if done then 0 else 1)
    {
      var x := it.Next();
      match x
      case None => done := true;
      case Some(v) => xs := xs + [v];
    }
  }
}
