/** Where the elements of a ring buffer are. */
module RingSlots {
  /** The slot of the i-th element from `first` on, in a ring of `size` slots. */
  function Slot(size: nat, first: nat, i: nat): (slot: nat)
    requires first < size && i <= size
    ensures slot < size
  {
    if first + i < size then first + i else first + i - size
  }

  /** The elements in order. */
  ghost function Unrolled<T>(slots: seq<T>, first: nat, count: nat): (s: seq<T>)
    requires first < |slots| && count <= |slots|
    ensures |s| == count && forall i :: 0 <= i < count ==> s[i] == slots[Slot(|slots|, first, i)]
  {
    seq<T>(count, (i: nat) requires i < count => slots[Slot(|slots|, first, i)])
  }
}
