/** The growing code buffer, counted in bytes as the source does and holding whole words. */
module AssemblerBuffer {
  import opened ArmEncoding
  import opened Masks

  const INLINE_CAPACITY := 128

  method CopyWords(from: array<Word>, n: nat, to: array<Word>, at: nat)
    requires from != to && n <= from.Length && at + n <= to.Length
    modifies to
    ensures to[..at + n] == old(to[..at]) + from[..n]
  {
    for i := 0 to n
      invariant to[..at] == old(to[..at])
      invariant to[at..at + i] == from[..i]
    {
      to[at + i] := from[i];
    }
  }

  lemma WordIndex(index: nat, n: nat, capacity: nat)
    requires index % 4 == 0 && index + 4 * n <= capacity
    ensures (index + 4 * n) / 4 == index / 4 + n <= capacity / 4
  {
  }

  class CodeBuffer {
    var storage: array<Word>
    var capacity: nat
    var index: nat

    ghost predicate Valid()
      reads this, storage
    {
      && storage.Length == capacity / 4
      && INLINE_CAPACITY <= capacity
      && index % 4 == 0 && index <= capacity
    }

    /** The words emitted so far. */
    ghost function Code(): seq<Word>
      requires Valid()
      reads this, storage
    {
      storage[..index / 4]
    }

    constructor ()
      ensures Valid() && Code() == [] && fresh(storage)
    {
      storage := new Word[INLINE_CAPACITY / 4];
      capacity := INLINE_CAPACITY;
      index := 0;
    }

    predicate IsAligned(alignment: nat)
      requires alignment > 0
      reads this
    {
      Masked(index, alignment - 1) == 0
    }

    predicate IsAvailable(space: nat)
      reads this
    {
      index + space <= capacity
    }

    /** Half as much again, and extra on top; what was written is kept. */
    method Grow(extraCapacity: nat)
      requires Valid()
      modifies this`storage, this`capacity
      ensures Valid() && Code() == old(Code())
      ensures capacity == old(capacity) + old(capacity) / 2 + extraCapacity
      ensures fresh(storage)
    {
      capacity := capacity + capacity / 2 + extraCapacity;
      var larger := new Word[capacity / 4];
      CopyWords(storage, index / 4, larger, 0);
      storage := larger;
    }

    /** One round of growing is enough for anything up to half the capacity. */
    method EnsureSpace(space: nat)
      requires Valid()
      modifies this`storage, this`capacity
      ensures Valid() && Code() == old(Code())
      ensures space <= old(capacity) / 2 ==> IsAvailable(space)
      ensures storage == old(storage) || fresh(storage)
    {
      if !IsAvailable(space) {
        Grow(0);
      }
    }

    method PutWord(value: Word)
      requires Valid()
      modifies this, storage
      ensures Valid() && Code() == old(Code()) + [value]
      ensures storage == old(storage) || fresh(storage)
    {
      EnsureSpace(4);
      storage[index / 4] := value;
      index := index + 4;
    }

    /** memcpy of the first n words of another array. */
    method Append(data: array<Word>, n: nat)
      requires Valid() && n <= data.Length && data != storage
      modifies this, storage
      ensures Valid() && Code() == old(Code()) + old(data[..n])
      ensures storage == old(storage) || fresh(storage)
    {
      if !IsAvailable(4 * n) {
        Grow(4 * n);
      }
      WordIndex(index, n, capacity);
      CopyWords(data, n, storage, index / 4);
      index := index + 4 * n;
    }

    /** executableCopy: the code in memory of its own. */
    method Copy() returns (data: array<Word>)
      requires Valid()
      ensures fresh(data) && data[..] == Code()
    {
      data := new Word[index / 4];
      CopyWords(storage, index / 4, data, 0);
      assert data[..] == data[..index / 4];
    }

    /** A word of the code, overwritten where it stands. */
    method Patch(at: nat, value: Word)
      requires Valid() && at < |Code()|
      modifies storage
      ensures Valid() && Code() == old(Code())[at := value]
    {
      storage[at] := value;
    }
  }
}
