/** The circular queue of the runtime system, refining an unbounded sequence. */
module QueueModel {

  /** The elements between the indices, in either layout. */
  function Items<T>(a: seq<T>, read: nat, write: nat): seq<T>
    requires read <= |a| && write <= |a|
  {
    if read <= write then a[read..write] else a[read..] + a[..write]
  }

  /** a after n elements at from were moved to to. */
  function Shifted<T>(a: seq<T>, to: nat, from: nat, n: nat): (r: seq<T>)
    requires to + n <= |a| && from + n <= |a|
    ensures |r| == |a|
  {
    a[..to] + a[from..from + n] + a[to + n..]
  }

  function Without<T>(s: seq<T>, n: nat): (r: seq<T>)
    requires n < |s|
    ensures |r| == |s| - 1
  {
    s[..n] + s[n + 1..]
  }

  /** s without the first w. */
  function WithoutFirst<T(==)>(s: seq<T>, w: T): seq<T> {
    if s == [] then [] else if s[0] == w then s[1..] else [s[0]] + WithoutFirst(s[1..], w)
  }

  lemma {:induction false} WithoutFirstAt<T>(s: seq<T>, w: T, n: nat)
    requires n < |s| && s[n] == w && forall i {:trigger s[i]} :: 0 <= i < n ==> s[i] != w
    ensures WithoutFirst(s, w) == Without(s, n)
    decreases n
  {
    if n > 0 {
      WithoutFirstAt(s[1..], w, n - 1);
      assert [s[0]] + Without(s[1..], n - 1) == Without(s, n);
    }
  }

  lemma {:induction false} WithoutFirstNone<T>(s: seq<T>, w: T)
    requires forall i {:trigger s[i]} :: 0 <= i < |s| ==> s[i] != w
    ensures WithoutFirst(s, w) == s
    decreases |s|
  {
    if s != [] {
      WithoutFirstNone(s[1..], w);
    }
  }

  /** Closing the gap from the front. */
  lemma RemoveAtFront<T>(a: seq<T>, read: nat, write: nat, index: nat)
    requires write < |a| && read <= index < |a| && (read <= write ==> index < write)
    ensures Items(Shifted(a, read + 1, read, index - read), if read + 1 == |a| then 0 else read + 1, write)
         == Without(Items(a, read, write), index - read)
  {
    hide Items;
    var b, read' := Shifted(a, read + 1, read, index - read), if read + 1 == |a| then 0 else read + 1;
    var n := index - read;
    ItemsCount(a, read, write);
    ItemsCount(b, read', write);
    var r, s := Items(b, read', write), Without(Items(a, read, write), n);
    forall i | 0 <= i < |r| ensures r[i] == s[i] {
      ItemAt(b, read', write, i);
      ItemAt(a, read, write, if i < n then i else i + 1);
    }
  }

  /** Closing the gap from the end; k more elements may move along. */
  lemma RemoveAtEnd<T>(a: seq<T>, read: nat, write: nat, index: nat, k: nat)
    requires index < write < |a| && write - index - 1 <= k <= write - index && read < |a| && (read <= write ==> read <= index)
    ensures Items(Shifted(a, index, index + 1, k), read, write - 1)
         == Without(Items(a, read, write), if read <= write then index - read else |a| - read + index)
  {
    hide Items;
    var b, n := Shifted(a, index, index + 1, k), if read <= write then index - read else |a| - read + index;
    ItemsCount(a, read, write);
    ItemsCount(b, read, write - 1);
    var r, s := Items(b, read, write - 1), Without(Items(a, read, write), n);
    forall i | 0 <= i < |r| ensures r[i] == s[i] {
      ItemAt(b, read, write - 1, i);
      ItemAt(a, read, write, if i < n then i else i + 1);
    }
  }

  lemma ItemsCount<T>(a: seq<T>, read: nat, write: nat)
    requires read < |a| && write < |a|
    ensures |Items(a, read, write)| == if read <= write then write - read else |a| - read + write
  {
  }

  /** Only unused slots differ. */
  lemma SameItems<T>(a: seq<T>, b: seq<T>, read: nat, write: nat)
    requires |a| == |b| && read < |a| && write < |a|
    requires forall i {:trigger b[i]} :: 0 <= i < |a| && !Unused(i, read, write) ==> b[i] == a[i]
    ensures Items(b, read, write) == Items(a, read, write)
  {
  }

  lemma ItemAt<T>(a: seq<T>, read: nat, write: nat, n: nat)
    requires read < |a| && write < |a| && n < |Items(a, read, write)|
    ensures Items(a, read, write)[n] == a[if read + n >= |a| then read + n - |a| else read + n]
  {
  }

  /** Shrinking when the elements are in one piece, which may have to move to the start. */
  lemma ShrinkStraight<T>(a: seq<T>, read: nat, write: nat, newSize: nat)
    requires read < write < |a| && write - read < newSize < |a|
    ensures write < newSize ==> Items(a[..newSize], read, write) == Items(a, read, write)
    ensures Items(Shifted(a, 0, read, write - read)[..newSize], 0, write - read) == Items(a, read, write)
  {
  }

  datatype Op<T> = Enqueue(w: T) | Dequeue | Remove(w: T) | RemoveNth(n: nat) | Blank

  /** What an operation does to an unbounded sequence; nothing if it has no such element. */
  function After<T(==)>(s: seq<T>, op: Op<T>): seq<T> {
    match op
    case Enqueue(w) => s + [w]
    case Dequeue => if s == [] then s else s[1..]
    case Remove(w) => WithoutFirst(s, w)
    case RemoveNth(n) => if n < |s| then Without(s, n) else s
    case Blank => s
  }

  function AfterAll<T(==)>(s: seq<T>, ops: seq<Op<T>>): seq<T>
    decreases |ops|
  {
    if ops == [] then s else After(AfterAll(s, ops[..|ops| - 1]), ops[|ops| - 1])
  }

  /** Any run of operations, growing and shrinking included, refines the sequence. */
  method Replay<T(==)>(q: Queue<T>, ops: seq<Op<T>>)
    requires q.Valid()
    modifies q, q.slots
    ensures q.Valid() && q.Contents() == AfterAll(old(q.Contents()), ops)
  {
    hide Items, WithoutFirst, Without;
    ghost var s := q.Contents();
    for i := 0 to |ops|
      invariant q.Valid() && (q.slots == old(q.slots) || fresh(q.slots))
      invariant q.Contents() == AfterAll(s, ops[..i])
    {
      assert ops[..i + 1][..i] == ops[..i];
      match ops[i] {
        case Enqueue(w) =>
          q.Enqueue(w);
        case Dequeue =>
          var empty := q.IsEmpty();
          if !empty {
            var x := q.Dequeue();
          }
        case Remove(w) =>
          q.Remove(w);
        case RemoveNth(n) =>
          var size := q.GetNumberOfElements();
          if n < size {
            q.RemoveNthElement(n);
          }
        case Blank =>
          q.Blank();
      }
    }
    assert ops[..|ops|] == ops;
  }

  class Queue<T(==)> {
    var slots: array<T>
    // the size in the array's header, which Blank makes smaller
    var size: nat
    var readIndex: nat
    var writeIndex: nat
    const zero: T

    ghost predicate Valid()
      reads this
    {
      2 <= size <= slots.Length && readIndex < size && writeIndex < size
    }

    ghost function Contents(): seq<T>
      reads this, slots
      requires Valid()
    {
      Items(slots[..size], readIndex, writeIndex)
    }

    constructor (initialSize: nat, zero: T)
      requires initialSize >= 2
      ensures Valid() && Contents() == [] && fresh(slots) && size == initialSize
    {
      this.zero := zero;
      slots := new T[initialSize](_ => zero);
      size := initialSize;
      readIndex, writeIndex := 0, 0;
    }

    /** memmove within the array. */
    method Move(to: nat, from: nat, n: nat)
      requires Valid() && to + n <= size && from + n <= size
      modifies slots
      ensures slots[..size] == Shifted(old(slots[..size]), to, from, n)
    {
      forall i | 0 <= i < n {
        slots[to + i] := slots[from + i];
      }
    }

    method GetNumberOfElements() returns (n: nat)
      requires Valid()
      ensures n == |Contents()|
    {
      n := writeIndex + size - readIndex;
      if n >= size {
        n := n - size;
      }
    }

    method IsEmpty() returns (empty: bool)
      requires Valid()
      ensures empty <==> Contents() == []
    {
      empty := writeIndex == readIndex;
    }

    method GetNthElement(n: nat) returns (x: T)
      requires Valid() && n < |Contents()|
      ensures x == Contents()[n]
    {
      ItemAt(slots[..size], readIndex, writeIndex, n);
      var index := readIndex + n;
      if index >= size {
        index := index - size;
      }
      x := slots[index];
    }

    method RemoveNthElement(n: nat)
      requires Valid() && n < |Contents()|
      modifies this`readIndex, this`writeIndex, slots
      ensures Valid() && Contents() == Without(old(Contents()), n)
    {
      hide Items, Without, Shifted;
      ghost var a := slots[..size];
      ItemsCount(a, readIndex, writeIndex);
      var index := readIndex + n;
      if index >= size {
        index := index - size;
        RemoveAtEnd(a, readIndex, writeIndex, index, writeIndex - index - 1);
        Move(index, index + 1, writeIndex - index - 1);
        writeIndex := writeIndex - 1;
      } else {
        RemoveAtFront(a, readIndex, writeIndex, index);
        Move(readIndex + 1, readIndex, index - readIndex);
        readIndex := if readIndex + 1 == size then 0 else readIndex + 1;
      }
    }

    /** A larger array for a queue that has become full. */
    method Enlarge(threshold: nat, ghost full: seq<T>)
      requires Valid() && readIndex == writeIndex && threshold >= 1
      requires full == slots[readIndex..size] + slots[..readIndex]
      modifies this
      ensures Valid() && Contents() == full && fresh(slots) && size == old(size) + threshold
    {
      var newArray := new T[size + threshold](_ => zero);
      var index := readIndex;
      forall i | 0 <= i < size - index {
        newArray[i] := slots[index + i];
      }
      forall i | 0 <= i < index {
        newArray[size - index + i] := slots[i];
      }
      assert newArray[..size] == full;
      slots := newArray;
      readIndex := 0;
      writeIndex := size;
      size := newArray.Length;
      assert slots[..size][0..writeIndex] == full;
    }

    method Enqueue(w: T)
      requires Valid()
      modifies this, slots
      ensures Valid() && Contents() == old(Contents()) + [w]
      ensures slots == old(slots) || fresh(slots)
    {
      ghost var before := Contents();
      slots[writeIndex] := w;
      var next := writeIndex + 1;
      if next == size {
        next := 0;
      }
      if next == readIndex {
        assert slots[readIndex..size] + slots[..readIndex] == before + [w];
      } else {
        Enqueued(old(slots[..size]), readIndex, writeIndex, slots[..size], w);
      }
      writeIndex := next;
      if writeIndex == readIndex {
        Enlarge(size / 2, before + [w]);
      }
    }

    method Dequeue() returns (x: T)
      requires Valid() && Contents() != []
      modifies this`readIndex
      ensures Valid() && [x] + Contents() == old(Contents())
    {
      x := slots[readIndex];
      Dequeued(slots[..size], readIndex, writeIndex);
      var next := readIndex + 1;
      readIndex := if next == size then 0 else next;
    }

    /** The first slot from from on, before to, that holds w, or to. */
    method Scan(w: T, from: nat, to: nat) returns (scanIndex: nat)
      requires Valid() && from <= to <= size
      ensures from <= scanIndex <= to && (scanIndex < to ==> slots[scanIndex] == w)
      ensures forall i {:trigger slots[i]} :: from <= i < scanIndex ==> slots[i] != w
    {
      scanIndex := from;
      while scanIndex < to && slots[scanIndex] != w
        invariant from <= scanIndex <= to
        invariant forall i {:trigger slots[i]} :: from <= i < scanIndex ==> slots[i] != w
      {
        scanIndex := scanIndex + 1;
      }
    }

    /** Removes the element in slot index, closing the gap from the front. */
    method CloseAtFront(index: nat)
      requires Valid() && readIndex <= index < size && (readIndex <= writeIndex ==> index < writeIndex)
      modifies this`readIndex, slots
      ensures Valid() && index - old(readIndex) < |old(Contents())| && Contents() == Without(old(Contents()), index - old(readIndex))
    {
      hide Items, Without, Shifted;
      ItemsCount(slots[..size], readIndex, writeIndex);
      RemoveAtFront(slots[..size], readIndex, writeIndex, index);
      Move(readIndex + 1, readIndex, index - readIndex);
      NextIndex(readIndex, size);
      readIndex := (readIndex + 1) % size;
    }

    /** The same from the end. */
    method CloseAtEnd(index: nat)
      requires Valid() && index < writeIndex && (readIndex <= writeIndex ==> readIndex <= index)
      modifies this`writeIndex, slots
      ensures Valid()
      ensures var n := if readIndex <= old(writeIndex) then index - readIndex else size - readIndex + index;
              n < |old(Contents())| && Contents() == Without(old(Contents()), n)
    {
      hide Items, Without, Shifted;
      ItemsCount(slots[..size], readIndex, writeIndex);
      RemoveAtEnd(slots[..size], readIndex, writeIndex, index, writeIndex - index);
      Move(index, index + 1, writeIndex - index);
      writeIndex := writeIndex - 1;
    }

    /** Removes the first w, if there is one. */
    method Remove(w: T)
      requires Valid()
      modifies this`readIndex, this`writeIndex, slots
      ensures Valid() && Contents() == WithoutFirst(old(Contents()), w)
    {
      hide Items, Without, WithoutFirst, Shifted;
      ghost var a := slots[..size];
      if readIndex == writeIndex {
        NotInSlots(a, readIndex, writeIndex, w);
        return;
      }
      var scanIndex := readIndex;
      if readIndex > writeIndex {
        scanIndex := Scan(w, readIndex, size);
        if scanIndex < size {
          FirstInSlots(a, readIndex, writeIndex, w, scanIndex);
          CloseAtFront(scanIndex);
          return;
        }
        scanIndex := 0;
      }
      scanIndex := Scan(w, scanIndex, writeIndex);
      if scanIndex < writeIndex {
        FirstInSlots(a, readIndex, writeIndex, w, scanIndex);
        CloseAtEnd(scanIndex);
        return;
      }
      NotInSlots(a, readIndex, writeIndex, w);
    }

    /** Gives back part of the unused space and clears the rest of it. */
    method Blank()
      requires Valid()
      modifies this`size, this`readIndex, this`writeIndex, slots
      ensures Valid() && Contents() == old(Contents()) && |Contents()| < size <= old(size)
      ensures Contents() != [] ==> forall i {:trigger slots[i]} :: 0 <= i < size && Unused(i, readIndex, writeIndex) ==> slots[i] == zero
    {
      hide Items;
      ItemsCount(slots[..size], readIndex, writeIndex);
      var oldSize := size;
      var nentries := writeIndex + oldSize - readIndex;
      if nentries > oldSize {
        nentries := nentries - oldSize;
      }
      var newSize := ((nentries * 3 / 2 + 1) + oldSize) / 2;
      if newSize < 2 {
        newSize := 2;
      }
      if newSize >= oldSize {
        newSize := oldSize;
      } else {
        Shrink(nentries, newSize);
      }
      ItemsCount(slots[..size], readIndex, writeIndex);
      ZeroUnused();
    }

    /** Overwrites what is left in unused slots. */
    method ZeroUnused()
      requires Valid()
      modifies slots
      ensures Contents() == old(Contents())
      ensures readIndex != writeIndex ==> forall i {:trigger slots[i]} :: 0 <= i < size && Unused(i, readIndex, writeIndex) ==> slots[i] == zero
    {
      hide Items;
      ghost var kept := slots[..size];
      if readIndex < writeIndex {
        Zero(0, readIndex);
        Zero(writeIndex, size);
      } else {
        Zero(writeIndex, readIndex);
      }
      SameItems(kept, slots[..size], readIndex, writeIndex);
    }

    /** Moves the elements into the part of the array that is kept. */
    method Shrink(nentries: nat, newSize: nat)
      requires Valid() && readIndex != writeIndex && nentries == |Contents()| < newSize < size && newSize >= 2
      modifies this`size, this`readIndex, this`writeIndex, slots
      ensures Valid() && Contents() == old(Contents()) && size == newSize && readIndex != writeIndex
    {
      hide Items, Shifted;
      ghost var a := slots[..size];
      ItemsCount(a, readIndex, writeIndex);
      if readIndex < writeIndex {
        ShrinkStraight(a, readIndex, writeIndex, newSize);
        if writeIndex >= newSize {
          Move(0, readIndex, nentries);
          readIndex := 0;
          writeIndex := nentries;
        }
      } else {
        var length := size - readIndex;
        var newReadIndex := newSize - length;
        Move(newReadIndex, readIndex, length);
        ShrinkWrapped(a, readIndex, writeIndex, newSize, slots[..size]);
        readIndex := newReadIndex;
      }
      assert slots[..newSize] == slots[..size][..newSize];
      size := newSize;
    }

    method Zero(from: nat, to: nat)
      requires Valid() && from <= to <= size
      modifies slots
      ensures forall i {:trigger slots[i]} :: 0 <= i < slots.Length ==> slots[i] == if from <= i < to then zero else old(slots[i])
    {
      for i := from to to
        invariant forall j {:trigger slots[j]} :: 0 <= j < slots.Length ==> slots[j] == if from <= j < i then zero else old(slots[j])
      {
        slots[i] := zero;
      }
    }

    /** A copy in its own array. */
    method Clone() returns (clone: Queue<T>)
      requires Valid()
      ensures fresh(clone) && fresh(clone.slots) && clone.Valid() && clone.Contents() == Contents() && clone.size == size
    {
      clone := new Queue(size, zero);
      clone.readIndex := readIndex;
      clone.writeIndex := writeIndex;
      forall i | 0 <= i < size {
        clone.slots[i] := slots[i];
      }
      assert clone.slots[..size] == slots[..size];
    }
  }

  predicate Unused(i: nat, read: nat, write: nat) {
    if read <= write then i < read || i >= write else write <= i < read
  }

  lemma NextIndex(i: nat, size: nat)
    requires i < size
    ensures (i + 1) % size == if i + 1 == size then 0 else i + 1
  {
  }

  /** No slot in use holds w. */
  lemma NotInSlots<T>(a: seq<T>, read: nat, write: nat, w: T)
    requires read < |a| && write < |a|
    requires forall i {:trigger a[i]} :: 0 <= i < |a| && !Unused(i, read, write) ==> a[i] != w
    ensures WithoutFirst(Items(a, read, write), w) == Items(a, read, write)
  {
    hide Items;
    var s := Items(a, read, write);
    ItemsCount(a, read, write);
    forall i | 0 <= i < |s| ensures s[i] != w {
      ItemAt(a, read, write, i);
    }
    WithoutFirstNone(s, w);
  }

  /** Slot k holds w and no slot in use before it does. */
  lemma FirstInSlots<T>(a: seq<T>, read: nat, write: nat, w: T, k: nat)
    requires read < |a| && write < |a| && k < |a| && !Unused(k, read, write) && a[k] == w
    requires forall i {:trigger a[i]} :: 0 <= i < |a| && !Unused(i, read, write) && (if k >= read then read <= i < k else i >= read || i < k) ==> a[i] != w
    ensures var n := if k >= read then k - read else |a| - read + k;
            n < |Items(a, read, write)| && WithoutFirst(Items(a, read, write), w) == Without(Items(a, read, write), n)
  {
    hide Items;
    var n := if k >= read then k - read else |a| - read + k;
    var s := Items(a, read, write);
    ItemsCount(a, read, write);
    ItemAt(a, read, write, n);
    forall i | 0 <= i < n ensures s[i] != w {
      ItemAt(a, read, write, i);
    }
    WithoutFirstAt(s, w, n);
  }

  lemma Enqueued<T>(a: seq<T>, read: nat, write: nat, b: seq<T>, w: T)
    requires read < |a| && write < |a| && b == a[write := w] && read != (if write + 1 == |a| then 0 else write + 1)
    ensures Items(b, read, if write + 1 == |a| then 0 else write + 1) == Items(a, read, write) + [w]
  {
  }

  lemma Dequeued<T>(a: seq<T>, read: nat, write: nat)
    requires read < |a| && write < |a| && read != write
    ensures [a[read]] + Items(a, if read + 1 == |a| then 0 else read + 1, write) == Items(a, read, write)
  {
  }

  lemma ShrinkWrapped<T>(a: seq<T>, read: nat, write: nat, newSize: nat, b: seq<T>)
    requires write < read < |a| && |a| - read + write < newSize < |a|
    requires b == Shifted(a, newSize - (|a| - read), read, |a| - read)
    ensures write < newSize - (|a| - read) && Items(b[..newSize], newSize - (|a| - read), write) == Items(a, read, write)
  {
  }
}
