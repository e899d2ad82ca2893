/** The fixed-capacity containers: a buffer allocated once and a length field.
    Every operation is specified on the visible part of the buffer. */
module Heapless {
  import opened Basics

  /** `HeaplessVec<T, N>`: the capacity N is `data.Length`; the length is a `u16`. */
  class HeaplessVec<T> {
    const data: array<T>
    var length: nat

    ghost predicate Valid()
      reads this
    {
      length <= data.Length <= 0xFFFF
    }

    ghost function Contents(): seq<T>
      requires Valid()
      reads this, data
    {
      data[..length]
    }

    constructor (capacity: nat, default: T)
      requires capacity <= 0xFFFF
      ensures Valid() && fresh(data) && data.Length == capacity && Contents() == []
    {
      data := new T[capacity](_ => default);
      length := 0;
    }

    /** Forgets the contents but leaves the slots as they are. */
    method Clear()
      requires Valid()
      modifies this`length
      ensures Valid() && Contents() == []
    {
      length := 0;
    }

    method Push(item: T) returns (ok: bool)
      requires Valid()
      modifies this`length, data
      ensures Valid()
      ensures ok <==> |old(Contents())| < data.Length
      ensures Contents() == if ok then old(Contents()) + [item] else old(Contents())
    {
      if length >= data.Length {
        return false;
      }
      data[length] := item;
      length := length + 1;
      return true;
    }

    method Pop(default: T) returns (item: Option<T>)
      requires Valid()
      modifies this`length, data
      ensures Valid()
      ensures item.None? <==> old(Contents()) == []
      ensures item.None? ==> Contents() == []
      ensures item.Some? ==> Contents() + [item.value] == old(Contents())
    {
      if length == 0 {
        return None;
      }
      length := length - 1;
      item := Some(data[length]);
      data[length] := default;
    }

    method ExtendFromSlice(slice: seq<T>) returns (ok: bool)
      requires Valid()
      modifies this`length, data
      ensures Valid()
      ensures ok <==> |old(Contents())| + |slice| <= data.Length
      ensures Contents() == if ok then old(Contents()) + slice else old(Contents())
    {
      if length + |slice| > data.Length {
        return false;
      }
      for i := 0 to |slice|
        modifies data
        invariant data[..length + i] == old(Contents()) + slice[..i]
      {
        data[length + i] := slice[i];
      }
      length := length + |slice|;
      return true;
    }

    /** In-place compaction. `asked` records the arguments the predicate is called with. */
    method Retain(keep: T -> bool) returns (ghost asked: seq<T>)
      requires Valid()
      modifies this`length, data
      ensures Valid()
      ensures Contents() == Filter(keep, old(Contents()))
      ensures asked == old(Contents())
    {
      var writeIdx := 0;
      asked := [];
      ghost var before := Contents();
      for readIdx := 0 to length
        modifies data
        invariant writeIdx <= readIdx
        invariant asked == before[..readIdx]
        invariant data[..writeIdx] == Filter(keep, before[..readIdx])
        invariant data[readIdx..length] == before[readIdx..]
      {
        assert before[..readIdx + 1][..readIdx] == before[..readIdx];
        assert data[readIdx] == data[readIdx..length][0] == before[readIdx];
        assert data[readIdx + 1..length] == data[readIdx..length][1..];
        asked := asked + [data[readIdx]];
        if keep(data[readIdx]) {
          if writeIdx != readIdx {
            data[writeIdx] := data[readIdx];
          }
          writeIdx := writeIdx + 1;
        }
      }
      assert before[..length] == before;
      length := writeIdx;
    }

    /** The broker panics on an index that is out of bounds. */
    method Remove(index: nat)
      requires Valid() && index < length
      modifies this`length, data
      ensures Valid()
      ensures Contents() == old(Contents())[..index] + old(Contents())[index + 1..]
    {
      ShiftDown(index);
      length := length - 1;
    }

    method DequeueFront() returns (item: Option<T>)
      requires Valid()
      modifies this`length, data
      ensures Valid()
      ensures item.None? <==> old(Contents()) == []
      ensures item.None? ==> Contents() == []
      ensures item.Some? ==> [item.value] + Contents() == old(Contents())
    {
      if length == 0 {
        return None;
      }
      item := Some(data[0]);
      ShiftDown(0);
      length := length - 1;
    }

    /** The shifting loop shared by `remove` and `dequeue_front`. */
    method ShiftDown(index: nat)
      requires Valid() && index < length
      modifies data
      ensures data[..length - 1] == old(Contents())[..index] + old(Contents())[index + 1..]
    {
      for i := index to length - 1
        invariant forall k :: 0 <= k < index ==> data[k] == old(data[k])
        invariant forall k :: index <= k < i ==> data[k] == old(data[k + 1])
        invariant forall k :: i <= k < length ==> data[k] == old(data[k])
      {
        data[i] := data[i + 1];
      }
    }
  }

  /** The consuming iterator: it takes each item out of the vector and, on the last
      one, sets the vector's own length to zero. */
  class HeaplessVecIntoIterator<T> {
    const vec: HeaplessVec<T>
    const default: T
    var index: nat

    ghost predicate Valid()
      reads this, vec
    {
      vec.Valid() && (index < vec.length || vec.length == 0)
    }

    ghost function Remaining(): seq<T>
      requires Valid()
      reads this, vec, vec.data
    {
      if index < vec.length then vec.data[index..vec.length] else []
    }

    constructor (vec: HeaplessVec<T>, default: T)
      requires vec.Valid()
      ensures Valid() && Remaining() == vec.Contents() && this.vec == vec
    {
      this.vec := vec;
      this.default := default;
      index := 0;
    }

    method Next() returns (item: Option<T>)
      requires Valid()
      modifies this`index, vec`length, vec.data
      ensures Valid()
      ensures item.None? <==> old(Remaining()) == []
      ensures item.None? ==> Remaining() == [] && vec.length == 0
      ensures item.Some? ==> [item.value] + Remaining() == old(Remaining())
    {
      if index >= vec.length {
        return None;
      }
      item := Some(vec.data[index]);
      vec.data[index] := default;
      index := index + 1;
      if index == vec.length {
        vec.length := 0;
      }
    }
  }

  /** A `for item in vec` loop sees every element exactly once, in order, even though
      the iterator resets the vector's length under its own feet. */
  method DrainByIteration<T>(vec: HeaplessVec<T>, default: T) returns (items: seq<T>)
    requires vec.Valid()
    modifies vec`length, vec.data
    ensures items == old(vec.Contents())
    ensures vec.length == 0
  {
    var iter := new HeaplessVecIntoIterator(vec, default);
    ghost var rest := iter.Remaining();
    var item := iter.Next();
    items := [];
    while item.Some?
      invariant iter.Valid() && iter.vec == vec
      invariant item.None? ==> rest == [] && vec.length == 0
      invariant item.Some? ==> rest == [item.value] + iter.Remaining()
      invariant old(vec.Contents()) == items + rest
      decreases |rest|
    {
      rest := iter.Remaining();
      Assoc(items, [item.value], rest);
      items := items + [item.value];
      item := iter.Next();
    }
  }
}
