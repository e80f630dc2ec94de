/** The slice descriptor `StringIndexT` and negative-index resolution. */
module Slices {
  import opened Errors

  /** StringIndexT: the range start, start+step, ... up to (excluding) stop. */
  datatype StringIndex = StringIndex(start: int, stop: int, step: int)

  /** The value every search returns when nothing is found. */
  const NotFound := StringIndex(0, 0, 1)

  function Abs(x: int): nat { if x < 0 then -x else x }

  /** Euclidean division of naturals leaves a remainder below the divisor. */
  lemma NatDivision(x: nat, y: nat)
    requires y > 0
    ensures 0 <= x - (x / y) * y < y
  {
  }

  /** C's `/`: the quotient is truncated toward zero, so the remainder takes the sign
      of the dividend. */
  function TruncDiv(a: int, b: int): (q: int)
    requires b != 0
    ensures a >= 0 ==> 0 <= a - q * b < Abs(b)
    ensures a < 0 ==> 0 <= q * b - a < Abs(b)
  {
    var n: nat := Abs(a);
    var m: nat := Abs(b);
    NatDivision(n, m);
    var u := n / m;
    if (a >= 0) == (b > 0) then
      assert u * b == (if b > 0 then u * m else -(u * m));
      u
    else
      assert (-u) * b == (if b > 0 then -(u * m) else u * m);
      -u
  }

  /** StringIndex_new: a zero step is refused. */
  function New(start: int, stop: int, step: int): (r: Result<StringIndex>)
    ensures r.Err? <==> step == 0
    ensures r.Err? ==> r.error == InvalidStep
    ensures r.Ok? ==> r.value.start == start && r.value.stop == stop && r.value.step == step
  {
    if step == 0 then Err(InvalidStep) else Ok(StringIndex(start, stop, step))
  }

  /** StringIndex__init__: the variadic `StringIndex(...)` macro with 1, 2 or 3 arguments. */
  function Init(args: seq<int>): (r: Result<StringIndex>)
    ensures |args| == 1 ==> r == Ok(StringIndex(0, args[0], 1))
    ensures |args| == 2 ==> r == Ok(StringIndex(args[0], args[1], 1))
    ensures |args| == 3 ==> r == New(args[0], args[1], args[2])
    ensures |args| == 3 ==> (r.Err? <==> args[2] == 0)
    ensures !(1 <= |args| <= 3) ==> r == Err(InvalidArgumentCount)
  {
    match |args|
    case 1 => New(0, args[0], 1)
    case 2 => New(args[0], args[1], 1)
    case 3 => New(args[0], args[1], args[2])
    case _ => Err(InvalidArgumentCount)
  }

  /** The position a possibly negative index denotes in a buffer of `length` bytes. */
  function Resolved(index: int, length: nat): int
  {
    if index < 0 then index + length else index
  }

  /** negative_index_to_positive as `String_index` uses it: the resolved index must
      address a byte of the buffer. */
  function ResolveIndex(index: int, length: nat): (r: Result<int>)
    ensures r.Ok? <==> 0 <= index + length && index < length
    ensures r.Ok? ==> 0 <= r.value < length && r.value == Resolved(index, length)
    ensures r.Err? ==> r.error == IndexOutOfRange
  {
    var i := if index < 0 then index + length else index;
    if i < 0 || i >= length then Err(IndexOutOfRange) else Ok(i)
  }

  /** negative_index_to_positive as `StringIndex_normalize` uses it: a negative index gets
      `length` added once and must then be non-negative; there is no upper bound check. */
  function ResolveBound(index: int, length: nat): (r: Result<int>)
    ensures r.Ok? <==> index + length >= 0
    ensures r.Ok? ==> 0 <= r.value && r.value == Resolved(index, length)
    ensures r.Ok? && index >= 0 ==> r.value == index
    ensures r.Err? ==> r.error == IndexOutOfRange
  {
    if index >= 0 then Ok(index)
    else if index + length < 0 then Err(IndexOutOfRange)
    else Ok(index + length)
  }

  /** StringIndex_normalize with its guard corrected: only a descriptor running backwards
      to a negative stop (the "before byte 0" marker of `String_reverse`) is left alone;
      every other descriptor has its negative start and stop resolved against `length`. */
  function Normalize(self: StringIndex, length: nat): (r: Result<StringIndex>)
    ensures self.step < 0 && self.stop < 0 ==> r == Ok(self)
    ensures !(self.step < 0 && self.stop < 0) ==>
      (r.Ok? <==> self.start + length >= 0 && self.stop + length >= 0)
    ensures r.Ok? && !(self.step < 0 && self.stop < 0) ==>
      r.value == StringIndex(Resolved(self.start, length), Resolved(self.stop, length), self.step)
      && r.value.start >= 0 && r.value.stop >= 0
  {
    if self.step < 0 && self.stop < 0 then Ok(self)
    else
      match ResolveBound(self.start, length)
      case Err(e) => Err(e)
      case Ok(start) =>
        match ResolveBound(self.stop, length)
        case Err(e) => Err(e)
        case Ok(stop) => Ok(StringIndex(start, stop, self.step))
  }

  /** StringIndex_normalize as written: the guard tests `stop < 0` where its
      documentation speaks of the step, so a negative stop is never resolved. */
  function NormalizeAsWritten(self: StringIndex, length: nat): (r: Result<StringIndex>)
    ensures self.stop < 0 ==> r == Ok(self)
  {
    if self.stop < 0 then Ok(self)
    else
      match ResolveBound(self.start, length)
      case Err(e) => Err(e)
      case Ok(start) =>
        match ResolveBound(self.stop, length)
        case Err(e) => Err(e)
        case Ok(stop) => Ok(StringIndex(start, stop, self.step))
  }

  /** The descriptor (7, -1, 1) over a 13-byte string: the documented rule resolves the
      stop to 12, the code keeps -1 and so yields a negative length. */
  lemma NormalizeDiscrepancy()
    ensures NormalizeAsWritten(StringIndex(7, -1, 1), 13) == Ok(StringIndex(7, -1, 1))
    ensures Len(StringIndex(7, -1, 1)) < 0
    ensures Normalize(StringIndex(7, -1, 1), 13) == Ok(StringIndex(7, 12, 1))
  {
  }

  /** The correction changes only forward descriptors with a negative stop: on every
      other descriptor it answers what the code answers. */
  lemma NormalizeAgreesAsWritten(self: StringIndex, length: nat)
    ensures !(self.step >= 0 && self.stop < 0) ==> Normalize(self, length) == NormalizeAsWritten(self, length)
    ensures self.step >= 0 && self.stop < 0 ==> NormalizeAsWritten(self, length) == Ok(self)
  {
  }

  /** A backward descriptor with a negative start and a non-negative stop is resolved by
      both: (-1, 0, -1) over three bytes becomes (2, 0, -1), two positions, 2 and 1. */
  lemma NormalizeBackward()
    ensures NormalizeAsWritten(StringIndex(-1, 0, -1), 3) == Ok(StringIndex(2, 0, -1))
    ensures Normalize(StringIndex(-1, 0, -1), 3) == Ok(StringIndex(2, 0, -1))
    ensures Len(StringIndex(2, 0, -1)) == 2 && InBounds(StringIndex(2, 0, -1), 3)
  {
    assert Pos(StringIndex(2, 0, -1), 0) == 2 && Pos(StringIndex(2, 0, -1), 1) == 1;
  }

  /** Normalizing twice is the same as normalizing once. */
  lemma NormalizeIdempotent(self: StringIndex, length: nat)
    requires Normalize(self, length).Ok?
    ensures Normalize(Normalize(self, length).value, length) == Normalize(self, length)
  {
  }

  /** StringIndex_equal: field-wise comparison is descriptor equality. */
  function Equal(self: StringIndex, other: StringIndex): (b: bool)
    ensures b <==> self == other
  {
    self.start == other.start && self.stop == other.stop && self.step == other.step
  }

  /** StringIndex_len: the number of positions, (stop - start) / step truncated. */
  function Len(self: StringIndex): (n: int)
    requires self.step != 0
    ensures self.step > 0 && self.start <= self.stop ==>
      n >= 0 && self.start + n * self.step <= self.stop < self.start + (n + 1) * self.step
    ensures self.step < 0 && self.stop <= self.start ==>
      n >= 0 && self.stop <= self.start + n * self.step < self.stop - self.step
  {
    TruncDiv(self.stop - self.start, self.step)
  }

  /** The k-th position a descriptor addresses. */
  function Pos(self: StringIndex, k: int): int
  {
    self.start + k * self.step
  }

  /** Every position a descriptor addresses lies inside a buffer of `length` bytes, and
      its length is not negative. */
  predicate InBounds(self: StringIndex, length: nat)
    requires self.step != 0
  {
    Len(self) >= 0 && forall k :: 0 <= k < Len(self) ==> 0 <= Pos(self, k) < length
  }

  /** A positive-step range inside the buffer addresses exactly the bytes start..stop-1. */
  lemma {:induction false} UnitStepInBounds(self: StringIndex, length: nat)
    requires self.step == 1 && 0 <= self.start <= self.stop <= length
    ensures InBounds(self, length) && Len(self) == self.stop - self.start
  {
    assert Len(self) == self.stop - self.start;
    forall k | 0 <= k < Len(self) ensures 0 <= Pos(self, k) < length {
      assert Pos(self, k) == self.start + k;
    }
  }

  /** The descriptor `String_reverse` uses. */
  function ReverseIndex(length: nat): StringIndex
  {
    StringIndex(length - 1, -1, -1)
  }

  /** (n-1, -1, -1) is left alone by normalization and addresses n-1 down to 0. */
  lemma {:induction false} ReverseIndexInBounds(length: nat)
    ensures Normalize(ReverseIndex(length), length) == Ok(ReverseIndex(length))
    ensures Len(ReverseIndex(length)) == length
    ensures InBounds(ReverseIndex(length), length)
    ensures forall k :: 0 <= k < length ==> Pos(ReverseIndex(length), k) == length - 1 - k
  {
    var ix := ReverseIndex(length);
    assert Len(ix) == length;
    forall k | 0 <= k < length ensures Pos(ix, k) == length - 1 - k {
      assert k * -1 == -k;
    }
  }
}
