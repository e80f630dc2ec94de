/** The growable byte buffer `StringT` and the operations that build new buffers from
    old ones by pushing bytes and concatenating. */
module Buffer {
  import opened Chars
  import opened Errors
  import opened Slices

  /** The capacity String_re_allocate picks for a request of n bytes:
      (n + (n >> 3) + 6) & ~3, i.e. about 1.125 n rounded down to a multiple of 4. */
  function GrowthPolicy(n: nat): (r: nat)
    ensures n < r <= n + n / 8 + 6
    ensures r % 4 == 0
  {
    var x := n + n / 8 + 6;
    x - x % 4
  }

  /** The bytes a descriptor addresses, in order. */
  function SliceOf(s: seq<byte>, index: StringIndex): seq<byte>
    requires index.step != 0 && InBounds(index, |s|)
  {
    seq(Len(index), k requires 0 <= k < Len(index) => s[Pos(index, k)])
  }

  /** The k-th byte of a slice is the byte at the k-th addressed position, and the next
      position is one step further. */
  lemma SliceAt(s: seq<byte>, index: StringIndex, k: int)
    requires index.step != 0 && InBounds(index, |s|) && 0 <= k < Len(index)
    ensures 0 <= Pos(index, k) < |s|
    ensures SliceOf(s, index)[k] == s[Pos(index, k)]
    ensures Pos(index, k + 1) == Pos(index, k) + index.step
  {
  }

  /** A step-1 descriptor inside the buffer addresses the plain subsequence. */
  lemma {:induction false} UnitSliceIsSubsequence(s: seq<byte>, start: int, stop: int)
    requires 0 <= start <= stop <= |s|
    ensures Normalize(StringIndex(start, stop, 1), |s|) == Ok(StringIndex(start, stop, 1))
    ensures InBounds(StringIndex(start, stop, 1), |s|)
    ensures SliceOf(s, StringIndex(start, stop, 1)) == s[start..stop]
  {
    var ix := StringIndex(start, stop, 1);
    UnitStepInBounds(ix, |s|);
    forall k | 0 <= k < stop - start ensures SliceOf(s, ix)[k] == s[start..stop][k] {
      assert Pos(ix, k) == start + k;
    }
  }

  /** Slicing "abc" with (-1, 0, -1) normalizes to (2, 0, -1) and gives "cb", as a
      backward slice in Python does. */
  lemma BackwardSlice(s: seq<byte>)
    requires s == "abc"
    ensures Normalize(StringIndex(-1, 0, -1), |s|) == Ok(StringIndex(2, 0, -1))
    ensures InBounds(StringIndex(2, 0, -1), |s|)
    ensures SliceOf(s, StringIndex(2, 0, -1)) == "cb"
  {
    NormalizeBackward();
    LastTwoBackward(s);
  }

  /** Over three bytes, (2, 0, -1) addresses byte 2, then byte 1. */
  lemma LastTwoBackward(s: seq<byte>)
    requires |s| == 3
    ensures InBounds(StringIndex(2, 0, -1), |s|)
    ensures SliceOf(s, StringIndex(2, 0, -1)) == [s[2], s[1]]
  {
    var ix := StringIndex(2, 0, -1);
    assert Len(ix) == 2;
    assert InBounds(ix, |s|) by {
      assert forall k :: 0 <= k < 2 ==> Pos(ix, k) == 2 - k;
    }
    var r := SliceOf(s, ix);
    assert r[0] == s[2] && r[1] == s[1];
  }

  /** The reference definition of a reversed sequence. */
  function Reversed(s: seq<byte>): seq<byte>
  {
    if s == [] then [] else [s[|s| - 1]] + Reversed(s[..|s| - 1])
  }

  lemma {:induction false} ReversedElements(s: seq<byte>)
    ensures |Reversed(s)| == |s|
    ensures forall k :: 0 <= k < |s| ==> Reversed(s)[k] == s[|s| - 1 - k]
  {
    if s != [] {
      var t := s[..|s| - 1];
      var rt := Reversed(t);
      ReversedElements(t);
      assert Reversed(s) == [s[|s| - 1]] + rt;
      forall k | 0 <= k < |s| ensures Reversed(s)[k] == s[|s| - 1 - k] {
        if k > 0 {
          assert Reversed(s)[k] == rt[k - 1] == t[|t| - k];
        }
      }
    }
  }

  /** Reversing twice gives back the original bytes. */
  lemma {:induction false} ReversedInvolution(s: seq<byte>)
    ensures Reversed(Reversed(s)) == s
  {
    ReversedElements(s);
    ReversedElements(Reversed(s));
  }

  /** The descriptor (n-1, -1, -1) addresses exactly the reversed buffer. */
  lemma {:induction false} ReverseIndexReverses(s: seq<byte>)
    ensures InBounds(ReverseIndex(|s|), |s|)
    ensures SliceOf(s, ReverseIndex(|s|)) == Reversed(s)
  {
    ReverseIndexInBounds(|s|);
    ReversedElements(s);
  }

  /** `times` back-to-back copies of s; none when times is not positive. */
  function Repeated(s: seq<byte>, times: int): seq<byte>
    decreases times
  {
    if times <= 0 then [] else Repeated(s, times - 1) + s
  }

  /** The repetition has |s| * times bytes, begins with s and has period |s|. */
  lemma {:induction false} RepeatedElements(s: seq<byte>, times: nat)
    ensures |Repeated(s, times)| == |s| * times
    ensures times > 0 ==> Repeated(s, times)[..|s|] == s
    ensures forall k :: |s| <= k < |s| * times ==> Repeated(s, times)[k] == Repeated(s, times)[k - |s|]
  {
    if times > 0 {
      RepeatedElements(s, times - 1);
      var prev := Repeated(s, times - 1);
      var r := Repeated(s, times);
      assert |s| * times == |s| * (times - 1) + |s|;
      if times == 1 {
        assert prev == [];
      } else {
        assert r[..|s|] == prev[..|s|];
      }
      forall k | |s| <= k < |s| * times ensures r[k] == r[k - |s|] {
        if k >= |prev| {
          assert r[k] == s[k - |prev|];
          if times > 1 {
            assert |prev| >= |s|;
            assert r[k - |s|] == prev[k - |s|];
            assert prev[k - |s|] == s[k - |prev|] by {
              assert prev == Repeated(s, times - 2) + s;
            }
          }
        }
      }
    }
  }

  /** String_repeat as written: the result adopts `self`'s own bytes through
      String_pre_allocated with the length of `self`, appends `times - 1` further
      copies, then stores a NUL at offset |s| * times. With zero repetitions that NUL
      lands on byte 0, so the result is |s| bytes long instead of empty (the bytes of
      `self` are taken to hold no NUL, as its C-string length is taken). */
  function RepeatedAsWritten(s: seq<byte>, times: int): (r: seq<byte>)
    ensures times != 0 ==> r == Repeated(s, times)
    ensures times == 0 ==> |r| == |s|
  {
    if times < 0 then []
    else if times == 0 then (if s == [] then [] else ['\0'] + s[1..])
    else Repeated(s, times)
  }

  /** Repeating zero times yields a NUL-led copy instead of the empty string, so
      left-justifying "foo" to width 3 appends a NUL byte. */
  lemma RepeatZeroDiscrepancy()
    ensures RepeatedAsWritten(" ", 0) == "\0" && Repeated(" ", 0) == []
    ensures "foo" + RepeatedAsWritten(" ", 0) == "foo\0"
  {
  }

  /** String_equals (`string.c`): lengths first, then byte by byte. */
  function Equals(self: seq<byte>, other: seq<byte>): (b: bool)
    ensures b <==> self == other
  {
    |self| == |other| && EqualFrom(self, other, 0)
  }

  function EqualFrom(self: seq<byte>, other: seq<byte>, i: nat): (b: bool)
    requires |self| == |other| && i <= |self|
    ensures b <==> self[i..] == other[i..]
    decreases |self| - i
  {
    if i == |self| then true
    else if self[i] != other[i] then false
    else
      assert self[i..] == [self[i]] + self[i + 1..] && other[i..] == [other[i]] + other[i + 1..];
      EqualFrom(self, other, i + 1)
  }

  /** String_equals as written (`string_ext.c`): String_eq(self, other->string) compares
      only the first |self| bytes against `other`'s buffer, which holds `other`'s bytes
      followed by the NUL String_from stores. A `self` longer than `other` therefore stops
      at that NUL, provided `self` has no NUL byte there; shorter `self` only needs to be
      a prefix of `other`. */
  function EqualsAsWritten(self: seq<byte>, other: seq<byte>): (b: bool)
    requires |self| > |other| ==> self[|other|] != '\0'
    ensures b <==> |self| <= |other| && self == other[..|self|]
  {
    PrefixFrom(self, other + ['\0'], 0)
  }

  /** The String_eq loop from byte i on, over a NUL-terminated buffer `c`. */
  function PrefixFrom(self: seq<byte>, c: seq<byte>, i: nat): (b: bool)
    requires i < |c| && c[|c| - 1] == '\0' && i <= |self|
    requires |self| >= |c| ==> self[|c| - 1] != '\0'
    ensures b <==> |self| < |c| && self[i..] == c[i..|self|]
    decreases |self| - i
  {
    if i == |self| then true
    else if self[i] != c[i] then false
    else
      assert self[i..] == [self[i]] + self[i + 1..];
      assert |self| < |c| ==> c[i..|self|] == [c[i]] + c[i + 1..|self|];
      PrefixFrom(self, c, i + 1)
  }

  /** "Hello" String_equals "Hello, World" as written, though the two differ. */
  lemma EqualsDiscrepancy(a: seq<byte>, b: seq<byte>)
    requires a == "Hello" && b == "Hello, World"
    ensures EqualsAsWritten(a, b) && !Equals(a, b)
  {
    assert b[..|a|] == a;
  }

  /** String_check_equals_in_range: does self[start..stop] equal the start of `other`?
      A stop past the end of `self` aborts; an `other` longer than `self` is unequal. */
  function CheckEqualsInRange(self: seq<byte>, other: seq<byte>, index: StringIndex): (r: Result<bool>)
    requires index.step == 1
    requires index.stop <= |self| && |other| <= |self| ==>
      0 <= index.start && index.stop - index.start <= |other|
    ensures r.Err? <==> index.stop > |self|
    ensures r.Err? ==> r.error == IndexOutOfRange
    ensures r.Ok? && |other| > |self| ==> !r.value
    ensures r.Ok? && |other| <= |self| && index.start <= index.stop ==>
      (r.value <==> self[index.start..index.stop] == other[..index.stop - index.start])
  {
    if index.stop > |self| then Err(IndexOutOfRange)
    else if |other| > |self| then Ok(false)
    else Ok(RangeEqualFrom(self, other, index.start, index.start, index.stop))
  }

  function RangeEqualFrom(self: seq<byte>, other: seq<byte>, start: int, i: int, stop: int): (b: bool)
    requires 0 <= start <= i && stop <= |self| && stop - start <= |other|
    ensures start <= stop && i <= stop ==> (b <==> self[i..stop] == other[i - start..stop - start])
    decreases stop - i
  {
    if i >= stop then true
    else if self[i] != other[i - start] then false
    else
      assert self[i..stop] == [self[i]] + self[i + 1..stop];
      assert other[i - start..stop - start] == [other[i - start]] + other[i + 1 - start..stop - start];
      RangeEqualFrom(self, other, start, i + 1, stop)
  }

  /** String_starts_with as written: checks the range (0, |prefix|) first, so a prefix
      longer than the buffer aborts with an index error instead of answering false. */
  function StartsWithAsWritten(self: seq<byte>, prefix: seq<byte>): (r: Result<bool>)
    ensures r.Err? <==> |prefix| > |self|
  {
    CheckEqualsInRange(self, prefix, StringIndex(0, |prefix|, 1))
  }

  /** String_starts_with, answering false for a prefix longer than the buffer. */
  function StartsWith(self: seq<byte>, prefix: seq<byte>): (b: bool)
    ensures b <==> |prefix| <= |self| && self[..|prefix|] == prefix
  {
    if |prefix| > |self| then false
    else CheckEqualsInRange(self, prefix, StringIndex(0, |prefix|, 1)).value
  }

  lemma StartsWithDiscrepancy()
    ensures StartsWithAsWritten("Hi", "Hello").Err?
    ensures !StartsWith("Hi", "Hello")
  {
  }

  /** String_ends_with: compares the last |suffix| bytes. */
  function EndsWith(self: seq<byte>, suffix: seq<byte>): (b: bool)
    ensures b <==> |suffix| <= |self| && self[|self| - |suffix|..] == suffix
  {
    var r := CheckEqualsInRange(self, suffix, StringIndex(|self| - |suffix|, |self|, 1));
    r.value
  }

  /** StringT: `length` bytes in use out of `capacity`. */
  class Str {
    var buffer: array<byte>
    var length: nat
    var capacity: nat

    ghost predicate Valid()
      reads this
    {
      length <= capacity <= buffer.Length
    }

    /** The bytes in use. */
    function Contents(): seq<byte>
      reads this, buffer
      requires Valid()
    {
      buffer[..length]
    }

    /** String_new: an empty buffer with room for `size` bytes. */
    constructor New(size: nat)
      ensures Valid() && fresh(buffer)
      ensures Contents() == [] && capacity == size
    {
      buffer := new byte[size];
      length, capacity := 0, size;
    }

    /** String_from_char_array_with_length: copies the bytes in and NUL-pads one byte
        past the logical length. */
    constructor From(s: seq<byte>)
      ensures Valid() && fresh(buffer)
      ensures Contents() == s && capacity == |s|
    {
      buffer := new byte[|s| + 1](i requires 0 <= i < |s| + 1 => if i < |s| then s[i] else '\0');
      length, capacity := |s|, |s|;
      new;
      assert buffer[..length] == s;
    }

    /** String_re_allocate: grows the capacity by GrowthPolicy when a request exceeds it,
        keeping the bytes in use; a request that fits changes nothing. */
    method ReAllocate(newSize: int)
      requires Valid()
      modifies this
      ensures Valid() && length == old(length) && Contents() == old(Contents())
      ensures newSize <= old(capacity) ==> capacity == old(capacity) && buffer == old(buffer)
      ensures newSize > old(capacity) ==> capacity == GrowthPolicy(newSize) && fresh(buffer)
      ensures capacity >= newSize && capacity >= old(capacity)
    {
      if newSize <= capacity {
        return;
      }
      var newAllocated := GrowthPolicy(newSize);
      var a := new byte[newAllocated];
      forall i | 0 <= i < length {
        a[i] := buffer[i];
      }
      buffer := a;
      capacity := newAllocated;
    }

    /** String_push: appends one byte. */
    method Push(ch: byte)
      requires Valid()
      modifies this, buffer
      ensures Valid() && Contents() == old(Contents()) + [ch]
      ensures buffer == old(buffer) || fresh(buffer)
      ensures capacity >= old(capacity)
    {
      ReAllocate(length + 1);
      buffer[length] := ch;
      length := length + 1;
    }

    /** String_concatenate_inplace: appends the bytes of `other`, which is not changed.
        The two buffers must be distinct: with `other == this` the C loop reads the
        length it is growing and never stops. */
    method ConcatenateInplace(other: Str)
      requires Valid() && other.Valid()
      requires other != this && other.buffer != buffer
      modifies this, buffer
      ensures Valid() && Contents() == old(Contents()) + old(other.Contents())
      ensures other.Contents() == old(other.Contents())
      ensures buffer == old(buffer) || fresh(buffer)
    {
      ReAllocate(length + other.length);
      ghost var before := Contents();
      var i := 0;
      while i < other.length
        invariant 0 <= i <= other.length
        invariant Valid() && length == |before| + i && capacity >= |before| + other.length
        invariant Contents() == before + other.Contents()[..i]
        invariant buffer == old(buffer) || fresh(buffer)
      {
        buffer[length] := other.buffer[i];
        length := length + 1;
        i := i + 1;
      }
      assert other.Contents()[..i] == other.Contents();
    }

    /** String_copy: a fresh buffer holding the same bytes. */
    method Copy() returns (r: Str)
      requires Valid()
      ensures fresh(r) && fresh(r.buffer) && r.Valid()
      ensures r.Contents() == Contents()
    {
      r := new Str.From(Contents());
    }

    /** String_concatenate: a fresh buffer holding this buffer's bytes followed by
        those of `other`; neither input is changed. */
    method Concatenate(other: Str) returns (r: Str)
      requires Valid() && other.Valid()
      ensures fresh(r) && fresh(r.buffer) && r.Valid()
      ensures r.Contents() == Contents() + other.Contents()
    {
      r := Copy();
      r.ReAllocate(length + other.length);
      var i := 0;
      while i < other.length
        invariant 0 <= i <= other.length
        invariant fresh(r) && fresh(r.buffer) && r.Valid()
        invariant r.length == length && r.capacity >= length + other.length
        invariant r.buffer[..length] == Contents()
        invariant r.buffer[length..length + i] == other.Contents()[..i]
      {
        r.buffer[i + length] := other.buffer[i];
        i := i + 1;
      }
      r.length := r.length + other.length;
      assert r.Contents() == r.buffer[..length] + r.buffer[length..length + other.length];
    }

    /** String_repeat: `times` back-to-back copies; a negative count gives an empty
        buffer. */
    method Repeat(times: int) returns (r: Str)
      requires Valid()
      ensures fresh(r) && fresh(r.buffer) && r.Valid()
      ensures r.Contents() == Repeated(Contents(), times)
    {
      if times < 0 {
        r := new Str.New(0);
        return;
      }
      r := new Str.New(length * times);
      var i := 0;
      while i < times
        invariant 0 <= i <= times
        invariant fresh(r) && fresh(r.buffer) && r.Valid()
        invariant r.Contents() == Repeated(Contents(), i)
      {
        r.ConcatenateInplace(this);
        i := i + 1;
      }
    }

    /** String_index: the byte at a possibly negative index; an index outside the
        buffer is an error. */
    function Index(index: int): (r: Result<byte>)
      reads this, buffer
      requires Valid()
      ensures r.Ok? <==> 0 <= index + length && index < length
      ensures r.Ok? && index >= 0 ==> r.value == Contents()[index]
      ensures r.Ok? && index < 0 ==> r.value == Contents()[length + index]
      ensures r.Err? ==> r.error == IndexOutOfRange
    {
      match ResolveIndex(index, length)
      case Err(e) => Err(e)
      case Ok(i) => Ok(buffer[i])
    }

    /** String_slice: normalizes the descriptor against the length, then pushes the
        Len(index) addressed bytes in order into a fresh buffer. */
    method Slice(index: StringIndex) returns (r: Result<Str>)
      requires Valid() && index.step != 0
      requires Normalize(index, length).Ok? ==> InBounds(Normalize(index, length).value, length)
      ensures r.Err? <==> Normalize(index, length).Err?
      ensures r.Err? ==> r.error == IndexOutOfRange
      ensures r.Ok? ==> fresh(r.value) && fresh(r.value.buffer) && r.value.Valid()
      ensures r.Ok? ==> r.value.Contents() == SliceOf(Contents(), Normalize(index, length).value)
    {
      var normalized := Normalize(index, length);
      if normalized.Err? {
        return Err(normalized.error);
      }
      var ix := normalized.value;
      var slice := new Str.New(0);
      var remaining := Len(ix);
      var position := ix.start;
      ghost var want := SliceOf(Contents(), ix);
      ghost var done := 0;
      while remaining > 0
        invariant 0 <= done <= Len(ix) && remaining == Len(ix) - done
        invariant position == Pos(ix, done)
        invariant fresh(slice) && fresh(slice.buffer) && slice.Valid()
        invariant slice.Contents() == want[..done]
      {
        SliceAt(Contents(), ix, done);
        slice.Push(buffer[position]);
        assert want[..done + 1] == want[..done] + [want[done]];
        position := position + ix.step;
        remaining := remaining - 1;
        done := done + 1;
      }
      assert want[..done] == want;
      return Ok(slice);
    }

    /** String_reverse: the slice (length-1, -1, -1). */
    method Reverse() returns (r: Str)
      requires Valid()
      ensures fresh(r) && fresh(r.buffer) && r.Valid()
      ensures r.Contents() == Reversed(Contents())
    {
      ReverseIndexReverses(Contents());
      var sliced := Slice(StringIndex(length - 1, -1, -1));
      r := sliced.value;
    }
  }
}
