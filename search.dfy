/** Substring search (Boyer-Moore-Horspool), single-byte and byte-class search, and
    counting of non-overlapping occurrences. */
module Search {
  import opened Chars
  import opened Errors
  import opened Slices

  /** `sub` occurs in `s` starting at offset p. */
  predicate MatchAt(s: seq<byte>, sub: seq<byte>, p: int)
  {
    0 <= p && p + |sub| <= |s| && s[p..p + |sub|] == sub
  }

  /** Reference search: the leftmost p with lo <= p and p + |sub| <= hi where `sub`
      occurs, trying one offset at a time. */
  function FindFrom(s: seq<byte>, sub: seq<byte>, lo: int, hi: int): Option<int>
    decreases hi - lo
  {
    if lo + |sub| > hi then None
    else if MatchAt(s, sub, lo) then Some(lo)
    else FindFrom(s, sub, lo + 1, hi)
  }

  /** FindFrom answers the leftmost match inside the window, or None when the window
      holds no match. */
  lemma {:induction false} FindFromCorrect(s: seq<byte>, sub: seq<byte>, lo: int, hi: int)
    ensures var r := FindFrom(s, sub, lo, hi);
      r.Some? ==> lo <= r.value && r.value + |sub| <= hi && MatchAt(s, sub, r.value)
    ensures var r := FindFrom(s, sub, lo, hi);
      r.Some? ==> forall p :: lo <= p < r.value ==> !MatchAt(s, sub, p)
    ensures FindFrom(s, sub, lo, hi).None? ==>
      forall p :: lo <= p && p + |sub| <= hi ==> !MatchAt(s, sub, p)
    decreases hi - lo
  {
    if lo + |sub| <= hi && !MatchAt(s, sub, lo) {
      FindFromCorrect(s, sub, lo + 1, hi);
    }
  }

  /** What FindFrom answers is a match inside the window. */
  lemma {:induction false} FindFromBounds(s: seq<byte>, sub: seq<byte>, lo: int, hi: int)
    ensures var r := FindFrom(s, sub, lo, hi);
      r.Some? ==> lo <= r.value && r.value + |sub| <= hi && MatchAt(s, sub, r.value)
    decreases hi - lo
  {
    if lo + |sub| <= hi && !MatchAt(s, sub, lo) {
      FindFromBounds(s, sub, lo + 1, hi);
    }
  }

  /** A match at p inside the window with no match to its left is what FindFrom
      returns. */
  lemma LeftmostIsFound(s: seq<byte>, sub: seq<byte>, lo: int, hi: int, p: int)
    requires lo <= p && p + |sub| <= hi && MatchAt(s, sub, p)
    requires forall q :: lo <= q < p ==> !MatchAt(s, sub, q)
    ensures FindFrom(s, sub, lo, hi) == Some(p)
  {
    FindFromCorrect(s, sub, lo, hi);
  }

  /** A window without a match makes FindFrom answer None. */
  lemma NothingIsFound(s: seq<byte>, sub: seq<byte>, lo: int, hi: int)
    requires forall q :: lo <= q && q + |sub| <= hi ==> !MatchAt(s, sub, q)
    ensures FindFrom(s, sub, lo, hi) == None
  {
    FindFromCorrect(s, sub, lo, hi);
  }

  /** The descriptor a search returns: (p, p+m, 1) for a match at p, else (0, 0, 1). */
  function Located(found: Option<int>, m: nat): (r: StringIndex)
    ensures found.Some? ==> r == StringIndex(found.value, found.value + m, 1)
    ensures found.None? ==> r == NotFound
  {
    match found
    case None => NotFound
    case Some(p) => StringIndex(p, p + m, 1)
  }

  /** The bad-match entry for byte value c after the first n bytes of the pattern:
      max(1, m - k - 1) for the last k < n with pattern[k] == c, or 0 when there is
      none. */
  function TableEntry(pattern: seq<byte>, n: nat, c: int): int
    requires n <= |pattern|
  {
    if n == 0 then 0
    else if pattern[n - 1] as int == c then (if |pattern| - n > 1 then |pattern| - n else 1)
    else TableEntry(pattern, n - 1, c)
  }

  /** An entry is 0 exactly when c is absent, and otherwise never exceeds the distance
      from any occurrence of c to the end of the pattern (nor drops below 1). */
  lemma {:induction false} TableEntryFacts(pattern: seq<byte>, n: nat, c: int)
    requires n <= |pattern|
    ensures TableEntry(pattern, n, c) == 0 <==> forall k :: 0 <= k < n ==> pattern[k] as int != c
    ensures TableEntry(pattern, n, c) != 0 ==> TableEntry(pattern, n, c) >= 1
    ensures forall k :: 0 <= k < n && pattern[k] as int == c ==>
      TableEntry(pattern, n, c) == 1 || TableEntry(pattern, n, c) <= |pattern| - 1 - k
  {
    if n > 0 {
      TableEntryFacts(pattern, n - 1, c);
    }
  }

  /** _construct_bad_match_table on a zero-filled 256-entry table: later occurrences
      overwrite earlier ones. */
  method ConstructBadMatchTable(pattern: seq<byte>) returns (table: array<int>)
    ensures fresh(table) && table.Length == 256
    ensures forall c :: 0 <= c < 256 ==> table[c] == TableEntry(pattern, |pattern|, c)
  {
    table := new int[256](_ => 0);
    var i := 0;
    while i < |pattern|
      invariant 0 <= i <= |pattern|
      invariant forall c :: 0 <= c < 256 ==> table[c] == TableEntry(pattern, i, c)
    {
      table[pattern[i] as int] := if |pattern| - i - 1 > 1 then |pattern| - i - 1 else 1;
      i := i + 1;
    }
  }

  /** _reverse_string_compare_from_starting_point: compares `sub` right to left against
      the bytes of `self` ending at offset `start`. */
  method ReverseCompareFrom(self: seq<byte>, sub: seq<byte>, start: int) returns (b: bool)
    requires 0 <= start - |sub| + 1 && start < |self|
    ensures b <==> MatchAt(self, sub, start - |sub| + 1)
  {
    var i := start;
    var j := |sub| - 1;
    ghost var p := start - |sub| + 1;
    while j >= 0 && self[i] == sub[j]
      invariant -1 <= j < |sub| && i == p + j
      invariant forall t :: j < t < |sub| ==> self[p + t] == sub[t]
    {
      i, j := i - 1, j - 1;
    }
    if j < 0 {
      assert self[p..p + |sub|] == sub;
    } else {
      assert self[p..p + |sub|][j] != sub[j];
    }
    return j < 0;
  }

  /** Shifting the cursor i by the table entry of self[i] never jumps over a match:
      every alignment that ends strictly between i and i + shift disagrees with the
      pattern at offset i, and when self[i] is absent from the pattern no alignment
      ending at i matches either. */
  lemma ShiftIsSafe(self: seq<byte>, sub: seq<byte>, i: int, shift: int)
    requires |sub| >= 1 && 0 <= i < |self|
    requires var e := TableEntry(sub, |sub|, self[i] as int);
      shift == (if e == 0 then |sub| else e)
    ensures forall p :: i < p + |sub| - 1 < i + shift ==> !MatchAt(self, sub, p)
    ensures TableEntry(sub, |sub|, self[i] as int) == 0 ==> !MatchAt(self, sub, i - |sub| + 1)
    ensures shift >= 1
  {
    TableEntryFacts(sub, |sub|, self[i] as int);
  }

  /** String_contains_in_range: Horspool search for `other` inside
      [index.start, index.stop); a step other than 1 is an error. */
  method ContainsInRange(self: seq<byte>, other: seq<byte>, index: StringIndex)
    returns (r: Result<StringIndex>)
    requires index.step == 1 && index.start + |other| - 1 < index.stop ==>
      |other| >= 1 && 0 <= index.start && index.stop <= |self|
    ensures index.step != 1 ==> r == Err(UnsupportedStep)
    ensures index.step == 1 ==> r == Ok(Located(FindFrom(self, other, index.start, index.stop), |other|))
  {
    var table := ConstructBadMatchTable(other);
    if index.step != 1 {
      return Err(UnsupportedStep);
    }
    var m := |other|;
    var i := index.start + m - 1;
    while i < index.stop
      invariant i >= index.start + m - 1
      invariant forall c :: 0 <= c < 256 ==> table[c] == TableEntry(other, m, c)
      invariant i < index.stop ==> m >= 1 && 0 <= index.start && index.stop <= |self|
      invariant forall p :: index.start <= p && p + m <= i ==> !MatchAt(self, other, p)
      decreases index.stop - i
    {
      var shift := table[self[i] as int];
      if shift == 0 {
        shift := m;
      } else {
        var hit := ReverseCompareFrom(self, other, i);
        if hit {
          LeftmostIsFound(self, other, index.start, index.stop, i - m + 1);
          return Ok(StringIndex(i - m + 1, i + 1, 1));
        }
      }
      ShiftIsSafe(self, other, i, shift);
      i := i + shift;
    }
    NothingIsFound(self, other, index.start, index.stop);
    return Ok(NotFound);
  }

  /** String_contains: Horspool search over the whole string. */
  method Contains(self: seq<byte>, other: seq<byte>) returns (r: StringIndex)
    requires |other| >= 1
    ensures r == Located(FindFrom(self, other, 0, |self|), |other|)
  {
    var found := ContainsInRange(self, other, StringIndex(0, |self|, 1));
    r := found.value;
  }

  /** String_contains_char_in_range: the first i in [start, stop) with self[i] == ch,
      as (i, i+1, 1); a step other than 1 is an error. */
  function ContainsCharInRange(self: seq<byte>, ch: byte, index: StringIndex): (r: Result<StringIndex>)
    requires index.step == 1 && index.start < index.stop ==>
      0 <= index.start && index.stop <= |self|
    ensures index.step != 1 ==> r == Err(UnsupportedStep)
    ensures index.step == 1 ==> r == Ok(Located(FindFrom(self, [ch], index.start, index.stop), 1))
  {
    if index.step != 1 then Err(UnsupportedStep)
    else Ok(Located(FirstByteFrom(self, ch, index.start, index.stop), 1))
  }

  /** The scan of String_contains_char_in_range, one byte at a time. */
  function FirstByteFrom(self: seq<byte>, ch: byte, i: int, stop: int): (r: Option<int>)
    requires i < stop ==> 0 <= i && stop <= |self|
    ensures r == FindFrom(self, [ch], i, stop)
    decreases stop - i
  {
    if i >= stop then None
    else
      assert MatchAt(self, [ch], i) <==> self[i] == ch by {
        assert self[i..i + 1] == [self[i]];
      }
      if self[i] == ch then Some(i) else FirstByteFrom(self, ch, i + 1, stop)
  }

  /** String_contains_char: the first occurrence of ch in the whole string. */
  function ContainsChar(self: seq<byte>, ch: byte): (r: StringIndex)
    ensures r.step == 1 && (r == NotFound <==> ch !in self)
    ensures r != NotFound ==> 0 <= r.start && r.stop == r.start + 1 && r.stop <= |self|
    ensures r != NotFound ==> self[r.start] == ch && ch !in self[..r.start]
  {
    var found := FirstByteFrom(self, ch, 0, |self|);
    FindFromCorrect(self, [ch], 0, |self|);
    if found.Some? then
      assert self[found.value..found.value + 1] == [self[found.value]];
      assert forall k :: 0 <= k < found.value ==> self[k] != ch by {
        forall k | 0 <= k < found.value ensures self[k] != ch {
          assert self[k..k + 1] == [self[k]];
          assert !MatchAt(self, [ch], k);
        }
      }
      StringIndex(found.value, found.value + 1, 1)
    else
      assert forall k :: 0 <= k < |self| ==> self[k] != ch by {
        forall k | 0 <= k < |self| ensures self[k] != ch {
          assert self[k..k + 1] == [self[k]];
          assert !MatchAt(self, [ch], k);
        }
      }
      NotFound
  }

  /** Where the scan of String_find_from_char_class_in_range stops: the loop runs while
      i < stop and a countdown from Len(index) has not reached zero (a negative
      countdown never does). */
  function ClassScanEnd(index: StringIndex): int
    requires index.step != 0
  {
    if Len(index) < 0 || index.stop <= index.start + Len(index) then index.stop
    else index.start + Len(index)
  }

  /** The first i in [lo, hi) whose byte is one of `characters`. */
  function FirstInClass(self: seq<byte>, characters: seq<byte>, i: int, hi: int): (r: Option<int>)
    requires i < hi ==> 0 <= i && hi <= |self|
    ensures r.Some? ==> i <= r.value < hi && self[r.value] in characters
    ensures r.Some? ==> forall k :: i <= k < r.value ==> self[k] !in characters
    ensures r.None? ==> forall k :: i <= k < hi ==> self[k] !in characters
    decreases hi - i
  {
    if i >= hi then None
    else if self[i] in characters then Some(i)
    else FirstInClass(self, characters, i + 1, hi)
  }

  /** String_find_from_char_class_in_range as written: on the first byte of `self` that
      belongs to the class it returns where that byte sits inside `characters`, not
      inside `self`. */
  function FindFromCharClassInRangeAsWritten(self: seq<byte>, characters: seq<byte>, index: StringIndex)
    : (r: StringIndex)
    requires index.step != 0
    requires index.start < ClassScanEnd(index) ==> 0 <= index.start && ClassScanEnd(index) <= |self|
    ensures r == NotFound <==> FirstInClass(self, characters, index.start, ClassScanEnd(index)).None?
  {
    match FirstInClass(self, characters, index.start, ClassScanEnd(index))
    case None => NotFound
    case Some(i) => ContainsChar(characters, self[i])
  }

  /** String_find_from_char_class_in_range as documented: the position in `self` of the
      first byte in the scanned range that belongs to the class. */
  function FindFromCharClassInRange(self: seq<byte>, characters: seq<byte>, index: StringIndex)
    : (r: StringIndex)
    requires index.step != 0
    requires index.start < ClassScanEnd(index) ==> 0 <= index.start && ClassScanEnd(index) <= |self|
    ensures r == NotFound <==> forall k :: index.start <= k < ClassScanEnd(index) ==> self[k] !in characters
    ensures r != NotFound ==> r.stop == r.start + 1 && index.start <= r.start < ClassScanEnd(index)
    ensures r != NotFound ==> self[r.start] in characters
    ensures r != NotFound ==> forall k :: index.start <= k < r.start ==> self[k] !in characters
  {
    Located(FirstInClass(self, characters, index.start, ClassScanEnd(index)), 1)
  }

  /** String_find_from_char_class: class search over the whole string. */
  function FindFromCharClass(self: seq<byte>, characters: seq<byte>): (r: StringIndex)
    ensures r == NotFound <==> forall k :: 0 <= k < |self| ==> self[k] !in characters
    ensures r != NotFound ==> 0 <= r.start && r.stop == r.start + 1 && r.stop <= |self|
    ensures r != NotFound ==> self[r.start] in characters && forall k :: 0 <= k < r.start ==> self[k] !in characters
  {
    assert ClassScanEnd(StringIndex(0, |self|, 1)) == |self| by {
      UnitStepInBounds(StringIndex(0, |self|, 1), |self|);
    }
    FindFromCharClassInRange(self, characters, StringIndex(0, |self|, 1))
  }

  /** For "Hello, World!" and the class "Wd" the documented answer is (7, 8, 1); the
      code returns (0, 1, 1), the offset of 'W' inside "Wd". */
  lemma CharClassDiscrepancy()
    ensures FindFromCharClassInRangeAsWritten("Hello, World!", "Wd", StringIndex(0, 13, 1)) == StringIndex(0, 1, 1)
    ensures FindFromCharClass("Hello, World!", "Wd") == StringIndex(7, 8, 1)
  {
    var s: seq<byte> := "Hello, World!";
    var ix := StringIndex(0, 13, 1);
    assert Len(ix) == 13;
    assert ClassScanEnd(ix) == 13;
    assert FirstInClass(s, "Wd", 0, 13) == Some(7);
    assert ContainsChar("Wd", 'W') == StringIndex(0, 1, 1);
  }

  /** The number of non-overlapping occurrences of `sub` met scanning left to right
      from offset `from`. */
  function Occurrences(s: seq<byte>, sub: seq<byte>, from: int): (n: nat)
    requires |sub| >= 1
    ensures n == 0 <==> FindFrom(s, sub, from, |s|).None?
    decreases |s| - from
  {
    match FindFrom(s, sub, from, |s|)
    case None => 0
    case Some(p) =>
      FindFromBounds(s, sub, from, |s|);
      1 + Occurrences(s, sub, p + |sub|)
  }

  /** Occurrences never exceed the number of bytes left, as each consumes |sub| >= 1. */
  lemma {:induction false} OccurrencesBound(s: seq<byte>, sub: seq<byte>, from: int)
    requires |sub| >= 1
    ensures Occurrences(s, sub, from) <= if from <= |s| then |s| - from else 0
    decreases |s| - from
  {
    FindFromCorrect(s, sub, from, |s|);
    match FindFrom(s, sub, from, |s|)
    case None =>
    case Some(p) =>
      OccurrencesBound(s, sub, p + |sub|);
  }

  /** One step of the count: a match at p accounts for one occurrence, and counting
      resumes at its end. */
  lemma OccurrencesStep(s: seq<byte>, sub: seq<byte>, from: int, p: int, next: int)
    requires |sub| >= 1 && FindFrom(s, sub, from, |s|) == Some(p) && next == p + |sub|
    ensures Occurrences(s, sub, from) == 1 + Occurrences(s, sub, next)
  {
  }

  /** String_count: searches again from the end of each match until nothing is found. */
  method Count(self: seq<byte>, sub: seq<byte>) returns (count: nat)
    requires |sub| >= 1
    ensures count == Occurrences(self, sub, 0)
  {
    count := 0;
    var contains := Contains(self, sub);
    if contains.stop == 0 {
      return 0;
    }
    ghost var from := 0;
    while contains.stop != 0
      invariant 0 <= from
      invariant contains == Located(FindFrom(self, sub, from, |self|), |sub|)
      invariant count + Occurrences(self, sub, from) == Occurrences(self, sub, 0)
      decreases |self| - from
    {
      from := CountStep(self, sub, from, contains);
      var next := ContainsInRange(self, sub, StringIndex(contains.stop, |self|, 1));
      contains := next.value;
      count := count + 1;
    }
    FindFromCorrect(self, sub, from, |self|);
  }

  /** The bookkeeping of one round of String_count: the match `contains` reports
      accounts for one occurrence and the next search starts where it ends. */
  lemma CountStep(self: seq<byte>, sub: seq<byte>, from: int, contains: StringIndex) returns (next: int)
    requires |sub| >= 1 && 0 <= from
    requires contains == Located(FindFrom(self, sub, from, |self|), |sub|) && contains.stop != 0
    ensures next == contains.stop && from < next
    ensures Occurrences(self, sub, from) == 1 + Occurrences(self, sub, next)
  {
    var found := FindFrom(self, sub, from, |self|);
    FindFromCorrect(self, sub, from, |self|);
    next := found.value + |sub|;
    OccurrencesStep(self, sub, from, found.value, next);
  }
}
