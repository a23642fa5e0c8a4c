/** The bounded history that live views read: metrics/ring_buffer.h. */
module RingBuffers {
  import opened Sequences

  class RingBuffer<T(0)> {
    const data: array<T>
    var head: nat
    var size: nat
    /** Every item pushed since the last `Clear`. */
    ghost var pushed: seq<T>

    ghost predicate Valid()
      reads this, data
    {
      && Remembers(data[..], head, pushed)
      && size == |LastN(pushed, data.Length)|
    }

    constructor (capacity: nat)
      requires capacity > 0
      ensures Valid() && pushed == [] && data.Length == capacity && fresh(data)
    {
      data := new T[capacity];
      head, size := 0, 0;
      pushed := [];
    }

    method Push(item: T)
      requires Valid()
      modifies this, data
      ensures Valid() && pushed == old(pushed) + [item]
    {
      RemembersWrite(data[..], head, pushed, item);
      Store(data, head, item);
      head := Modulo(head + 1, data.Length);
      if size < data.Length {
        size := size + 1;
      }
      pushed := pushed + [item];
    }

    method Clear()
      requires Valid()
      modifies this
      ensures Valid() && pushed == []
    {
      head, size := 0, 0;
      pushed := [];
    }

    /** Returns the items the callback is applied to, in the order of the calls. */
    method ForEach() returns (visited: seq<T>)
      requires Valid()
      ensures visited == LastN(pushed, data.Length)
    {
      visited := ReadCircular(data, head, size);
    }

    /** `blank` is the value-initialized element that an empty buffer returns. */
    method Latest(blank: T) returns (item: T)
      requires Valid()
      ensures item == if pushed == [] then blank else pushed[|pushed| - 1]
    {
      if size == 0 {
        return blank;
      }
      var index := Modulo(head + data.Length - 1, data.Length);
      CircularVisit(data[..], head, size, size - 1);
      item := data[index];
      assert item == Circular(data[..], head, size)[size - 1];
    }
  }
}
