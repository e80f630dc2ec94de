/** `StringIteratorT`: an append-only array of strings that doubles its capacity when
    full, with a read cursor. */
module Iterator {
  import opened Chars
  import opened Errors

  class StringIterator {
    var strings: array<seq<byte>>
    var index: nat
    var length: nat
    var capacity: nat

    ghost predicate Valid()
      reads this
    {
      index <= length <= capacity && capacity == strings.Length && capacity >= 1
    }

    /** The strings appended so far, in insertion order. */
    function Elements(): seq<seq<byte>>
      reads this, strings
      requires Valid()
    {
      strings[..length]
    }

    /** The strings `Next` has not yet handed out. */
    function Remaining(): (r: seq<seq<byte>>)
      reads this, strings
      requires Valid()
      ensures |r| == length - index
      ensures Elements() == Elements()[..index] + r
    {
      strings[index..length]
    }

    /** StringIterator_new: empty, cursor at 0, room for one string. */
    constructor New()
      ensures Valid() && fresh(strings)
      ensures Elements() == [] && index == 0 && capacity == 1
    {
      strings := new seq<byte>[1];
      index, length, capacity := 0, 0, 1;
    }

    /** StringIterator_append: stores `s` after the existing strings, doubling the
        capacity first when the array is full; the cursor does not move. */
    method Append(s: seq<byte>)
      requires Valid()
      modifies this, strings
      ensures Valid() && Elements() == old(Elements()) + [s]
      ensures index == old(index)
      ensures old(length) < old(capacity) ==> capacity == old(capacity) && strings == old(strings)
      ensures old(length) >= old(capacity) ==> capacity == 2 * old(capacity) && fresh(strings)
    {
      if length >= capacity {
        var grown := new seq<byte>[2 * capacity];
        forall i | 0 <= i < length {
          grown[i] := strings[i];
        }
        strings := grown;
        capacity := 2 * capacity;
      }
      strings[length] := s;
      length := length + 1;
    }

    /** StringIterator_next: the string under the cursor, advancing it, or None once
        the cursor has reached the end. */
    method Next() returns (r: Option<seq<byte>>)
      requires Valid()
      modifies this
      ensures Valid() && Elements() == old(Elements()) && strings == old(strings)
      ensures old(index) < length ==> r == Some(Elements()[old(index)]) && index == old(index) + 1
      ensures old(index) >= length ==> r == None && index == old(index)
    {
      if index >= length {
        return None;
      }
      r := Some(strings[index]);
      index := index + 1;
    }

    /** StringIterator_get: the string stored first, whatever the cursor. */
    function Get(): (r: seq<byte>)
      reads this, strings
      requires Valid() && length >= 1
      ensures r == Elements()[0]
    {
      strings[0]
    }

    /** Draining the iterator with `Next` yields the remaining strings in insertion order
        and leaves the cursor at the end. */
    method Drain() returns (items: seq<seq<byte>>)
      requires Valid()
      modifies this
      ensures Valid() && Elements() == old(Elements()) && index == length
      ensures items == old(Remaining())
    {
      items := [];
      ghost var start := index;
      var next := Next();
      while next.Some?
        invariant Valid() && Elements() == old(Elements()) && strings == old(strings)
        invariant start <= index <= length
        invariant next.Some? ==> index >= 1 && index - 1 >= start
        invariant next.Some? ==> items + [next.value] == Elements()[start..index]
        invariant next.None? ==> index == length && items == Elements()[start..index]
        decreases length - index, next.Some?
      {
        items := items + [next.value];
        next := Next();
      }
    }
  }

  /** An iterator built from `xs` by appending each in turn. */
  method FromSeq(xs: seq<seq<byte>>) returns (it: StringIterator)
    ensures fresh(it) && fresh(it.strings) && it.Valid()
    ensures it.Elements() == xs && it.index == 0
  {
    it := new StringIterator.New();
    var i := 0;
    while i < |xs|
      invariant 0 <= i <= |xs|
      invariant fresh(it) && fresh(it.strings) && it.Valid()
      invariant it.Elements() == xs[..i] && it.index == 0
    {
      it.Append(xs[i]);
      i := i + 1;
    }
    assert xs[..i] == xs;
  }
}
