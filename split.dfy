/** Splitting a string at a delimiter into an iterator of pieces, joining an iterator's
    strings around a delimiter, replacement as split-then-join, and fixed-size chunks. */
module Split {
  import opened Chars
  import opened Errors
  import opened Slices
  import opened Search
  import opened Buffer
  import opened Iterator

  /** The pieces of s[start..] cut at up to `limit` successive leftmost, non-overlapping
      occurrences of `d`: the gaps before each occurrence, then the tail. */
  function SplitFrom(s: seq<byte>, d: seq<byte>, start: int, limit: nat): (pieces: seq<seq<byte>>)
    requires |d| >= 1 && 0 <= start <= |s|
    ensures |pieces| >= 1
    decreases limit
  {
    if limit == 0 then [s[start..]]
    else
      match FindFrom(s, d, start, |s|)
      case None => [s[start..]]
      case Some(p) =>
        FindFromBounds(s, d, start, |s|);
        [s[start..p]] + SplitFrom(s, d, p + |d|, limit - 1)
  }

  /** `xs` with `d` between consecutive strings and nowhere else. */
  function Join(xs: seq<seq<byte>>, d: seq<byte>): seq<byte>
  {
    if |xs| == 0 then []
    else if |xs| == 1 then xs[0]
    else xs[0] + d + Join(xs[1..], d)
  }

  /** Every string of `xs` followed by `d`. */
  function Terminated(xs: seq<seq<byte>>, d: seq<byte>): seq<byte>
  {
    if xs == [] then [] else Terminated(xs[..|xs| - 1], d) + xs[|xs| - 1] + d
  }

  /** Joining is terminating all but the last string, then adding the last one. */
  lemma {:induction false} JoinAsTerminated(xs: seq<seq<byte>>, d: seq<byte>)
    requires |xs| >= 1
    ensures Join(xs, d) == Terminated(xs[..|xs| - 1], d) + xs[|xs| - 1]
    decreases |xs|
  {
    if |xs| > 1 {
      var tail := xs[1..];
      JoinAsTerminated(tail, d);
      TerminatedCons(xs[0], tail[..|tail| - 1], d);
      assert [xs[0]] + tail[..|tail| - 1] == xs[..|xs| - 1];
    }
  }

  lemma {:induction false} TerminatedCons(x: seq<byte>, ys: seq<seq<byte>>, d: seq<byte>)
    ensures Terminated([x] + ys, d) == x + d + Terminated(ys, d)
    decreases |ys|
  {
    if ys != [] {
      var init := ys[..|ys| - 1];
      TerminatedCons(x, init, d);
      assert ([x] + ys)[..|ys|] == [x] + init;
    } else {
      assert ([x] + ys)[..0] == [];
    }
  }

  /** With a match at p and cuts left, the first piece ends at p and splitting resumes
      after the match. */
  lemma SplitUnfold(s: seq<byte>, d: seq<byte>, start: int, limit: nat, p: int)
    requires |d| >= 1 && 0 <= start <= |s| && limit >= 1
    requires FindFrom(s, d, start, |s|) == Some(p)
    ensures start <= p && p + |d| <= |s|
    ensures SplitFrom(s, d, start, limit) == [s[start..p]] + SplitFrom(s, d, p + |d|, limit - 1)
  {
    FindFromBounds(s, d, start, |s|);
  }

  /** Joining a string in front of a non-empty list puts the delimiter between them. */
  lemma JoinStep(x: seq<byte>, rest: seq<seq<byte>>, d: seq<byte>, tail: seq<byte>, whole: seq<byte>)
    requires |rest| >= 1
    requires Join(rest, d) == tail
    requires whole == x + d + tail
    ensures Join([x] + rest, d) == whole
  {
    assert ([x] + rest)[1..] == rest;
  }

  /** A match of d at p cuts s[start..] into the part before, d, and the part after. */
  lemma CutAtMatch(s: seq<byte>, d: seq<byte>, start: int, p: int)
    requires 0 <= start <= p && MatchAt(s, d, p)
    ensures s[start..] == s[start..p] + d + s[p + |d|..]
  {
    assert s[start..] == s[start..p] + s[p..p + |d|] + s[p + |d|..];
  }

  /** Split then join with the same delimiter gives back the input. */
  lemma {:induction false} SplitJoinRoundTrip(s: seq<byte>, d: seq<byte>, start: int, limit: nat)
    requires |d| >= 1 && 0 <= start <= |s|
    ensures Join(SplitFrom(s, d, start, limit), d) == s[start..]
    decreases limit
  {
    if limit > 0 {
      match FindFrom(s, d, start, |s|)
      case None =>
      case Some(p) =>
        SplitUnfold(s, d, start, limit, p);
        var next, fewer := p + |d|, limit - 1;
        SplitJoinRoundTrip(s, d, next, fewer);
        FindFromBounds(s, d, start, |s|);
        CutAtMatch(s, d, start, p);
        JoinStep(s[start..p], SplitFrom(s, d, next, fewer), d, s[next..], s[start..]);
    }
  }

  /** The number of pieces is one more than the number of cuts, which is the smaller of
      the limit and the number of occurrences. */
  lemma {:induction false} SplitPieceCount(s: seq<byte>, d: seq<byte>, start: int, limit: nat)
    requires |d| >= 1 && 0 <= start <= |s|
    ensures |SplitFrom(s, d, start, limit)| ==
      (if limit < Occurrences(s, d, start) then limit else Occurrences(s, d, start)) + 1
    decreases limit
  {
    if limit > 0 {
      match FindFrom(s, d, start, |s|)
      case None =>
        assert SplitFrom(s, d, start, limit) == [s[start..]];
      case Some(p) =>
        var next, fewer := p + |d|, limit - 1;
        SplitUnfold(s, d, start, limit, p);
        SplitPieceCount(s, d, next, fewer);
        OccurrencesStep(s, d, start, p, next);
    }
  }

  /** Every piece but the last is free of the delimiter. */
  lemma {:induction false} SplitPiecesAvoidDelimiter(s: seq<byte>, d: seq<byte>, start: int, limit: nat)
    requires |d| >= 1 && 0 <= start <= |s|
    ensures forall k, q :: 0 <= k < |SplitFrom(s, d, start, limit)| - 1 ==>
      !MatchAt(SplitFrom(s, d, start, limit)[k], d, q)
    decreases limit
  {
    var pieces := SplitFrom(s, d, start, limit);
    if limit > 0 {
      match FindFrom(s, d, start, |s|)
      case None =>
      case Some(p) =>
        FindFromCorrect(s, d, start, |s|);
        SplitPiecesAvoidDelimiter(s, d, p + |d|, limit - 1);
        forall q ensures !MatchAt(s[start..p], d, q) {
          if 0 <= q && q + |d| <= p - start {
            assert s[start..p][q..q + |d|] == s[start + q..start + q + |d|];
            assert !MatchAt(s, d, start + q);
          }
        }
        forall k, q | 0 <= k < |pieces| - 1 ensures !MatchAt(pieces[k], d, q) {
          if k > 0 {
            assert pieces[k] == SplitFrom(s, d, p + |d|, limit - 1)[k - 1];
          }
        }
    }
  }

  /** String_split_limit on the bytes: limit 0 keeps the string whole, -1 means as many
      cuts as there are bytes (that is, unbounded), and anything below -1 is an error. */
  function SplitLimitSpec(s: seq<byte>, d: seq<byte>, limit: int): (r: Result<seq<seq<byte>>>)
    requires limit == -1 || limit > 0 ==> |d| >= 1
    ensures r.Err? <==> limit < -1
    ensures r.Err? ==> r.error == InvalidLimit
    ensures limit == 0 ==> r == Ok([s])
  {
    if limit == 0 then Ok([s])
    else if limit < -1 then Err(InvalidLimit)
    else if limit == -1 then Ok(SplitFrom(s, d, 0, |s|))
    else Ok(SplitFrom(s, d, 0, limit))
  }

  /** With no limit every occurrence is a cut, since there are never more occurrences
      than bytes. */
  lemma UnboundedSplitCutsEverywhere(s: seq<byte>, d: seq<byte>)
    requires |d| >= 1
    ensures SplitLimitSpec(s, d, -1).Ok?
    ensures |SplitLimitSpec(s, d, -1).value| == Occurrences(s, d, 0) + 1
    ensures Join(SplitLimitSpec(s, d, -1).value, d) == s
  {
    SplitPieceCount(s, d, 0, |s|);
    OccurrencesBound(s, d, 0);
    SplitJoinRoundTrip(s, d, 0, |s|);
  }

  /** Every successful split joins back to the input. */
  lemma SplitLimitRoundTrip(s: seq<byte>, d: seq<byte>, limit: int)
    requires |d| >= 1 && limit >= -1
    ensures Join(SplitLimitSpec(s, d, limit).value, d) == s
  {
    if limit == -1 {
      SplitJoinRoundTrip(s, d, 0, |s|);
    } else if limit > 0 {
      SplitJoinRoundTrip(s, d, 0, limit);
    }
  }

  /** Appends to `it` the slice (start, stop) of `self`, as the splitting loops do. */
  method AppendSlice(it: StringIterator, self: Str, start: int, stop: int)
    requires it.Valid() && self.Valid() && 0 <= start <= stop <= self.length
    modifies it, it.strings
    ensures it.Valid() && it.index == old(it.index)
    ensures it.Elements() == old(it.Elements()) + [self.Contents()[start..stop]]
    ensures it.strings == old(it.strings) || fresh(it.strings)
  {
    UnitSliceIsSubsequence(self.Contents(), start, stop);
    var piece := self.Slice(StringIndex(start, stop, 1));
    it.Append(piece.value.Contents());
  }

  /** One round of the split loop: the reported match at p cuts off s[start..p] and
      splitting resumes after it with one cut fewer. */
  lemma SplitStep(s: seq<byte>, d: seq<byte>, start: int, budget: nat, index: StringIndex)
    requires |d| >= 1 && 0 <= start <= |s| && budget >= 1
    requires index == Located(FindFrom(s, d, start, |s|), |d|) && index.stop != 0
    ensures start <= index.start && index.stop == index.start + |d| <= |s|
    ensures SplitFrom(s, d, start, budget) ==
      [s[start..index.start]] + SplitFrom(s, d, index.stop, budget - 1)
  {
    FindFromCorrect(s, d, start, |s|);
  }

  /** When the search fails or the cuts are used up, the tail is the last piece. */
  lemma SplitLast(s: seq<byte>, d: seq<byte>, start: int, budget: nat, index: StringIndex)
    requires |d| >= 1 && 0 <= start <= |s|
    requires index == Located(FindFrom(s, d, start, |s|), |d|)
    requires index.stop == 0 || budget == 0
    ensures SplitFrom(s, d, start, budget) == [s[start..]]
  {
    FindFromCorrect(s, d, start, |s|);
  }

  /** String_split_limit: limit 0 keeps the string whole, limit -1 allows as many cuts
      as there are bytes, a limit below -1 is an error. */
  method SplitLimit(self: Str, delimiter: Str, limit: int) returns (r: Result<StringIterator>)
    requires self.Valid() && delimiter.Valid()
    requires limit == -1 || limit > 0 ==> delimiter.length >= 1
    ensures r.Err? <==> limit < -1
    ensures r.Err? ==> r.error == InvalidLimit
    ensures r.Ok? ==> fresh(r.value) && fresh(r.value.strings) && r.value.Valid() && r.value.index == 0
    ensures r.Ok? ==> r.value.Elements() == SplitLimitSpec(self.Contents(), delimiter.Contents(), limit).value
  {
    if limit == 0 {
      var it := new StringIterator.New();
      it.Append(self.Contents());
      return Ok(it);
    }
    var budget := limit;
    if limit == -1 {
      budget := self.length;
    } else if limit < -1 {
      return Err(InvalidLimit);
    }
    var it := SplitCuts(self, delimiter, budget);
    return Ok(it);
  }

  /** The loop of String_split_limit: while a match is found and cuts remain, the gap
      before the match goes into the iterator and the search resumes after it; the
      tail comes last. */
  method SplitCuts(self: Str, delimiter: Str, budget: nat) returns (it: StringIterator)
    requires self.Valid() && delimiter.Valid() && delimiter.length >= 1
    ensures fresh(it) && fresh(it.strings) && it.Valid() && it.index == 0
    ensures it.Elements() == SplitFrom(self.Contents(), delimiter.Contents(), 0, budget)
  {
    var s := self.Contents();
    var d := delimiter.Contents();
    it := new StringIterator.New();
    var index := Contains(s, d);
    var start := 0;
    var left := budget;
    ghost var whole := SplitFrom(s, d, 0, budget);
    ghost var done: seq<seq<byte>> := [];
    assert done + SplitFrom(s, d, 0, budget) == whole;
    while index.stop != 0 && left != 0
      invariant fresh(it) && fresh(it.strings)
      invariant CutState(self, s, d, it, start, left, index, done, whole)
      decreases left
    {
      start, left, index, done := CutOnce(self, s, d, it, start, left, index, done, whole);
    }
    CutLast(self, s, d, it, start, left, index, done, whole);
  }

  /** The state between two rounds of the String_split_limit loop: `index` is the next
      match at or after `start`, the iterator holds the pieces cut so far, and those
      followed by the pieces still to come make up `whole`. */
  ghost predicate CutState(self: Str, s: seq<byte>, d: seq<byte>, it: StringIterator, start: int,
                           left: nat, index: StringIndex, done: seq<seq<byte>>, whole: seq<seq<byte>>)
    reads self, self.buffer, it, it.strings
  {
    self.Valid() && self.Contents() == s && it.Valid() && it.index == 0 && it.Elements() == done &&
    |d| >= 1 && 0 <= start <= |s| && index == Located(FindFrom(s, d, start, |s|), |d|) &&
    done + SplitFrom(s, d, start, left) == whole
  }

  /** One round of the String_split_limit loop: the gap before the reported match goes
      into the iterator and the search resumes after the match, with one cut fewer. */
  method CutOnce(self: Str, s: seq<byte>, d: seq<byte>, it: StringIterator, start: int, left: nat,
                 index: StringIndex, ghost done: seq<seq<byte>>, ghost whole: seq<seq<byte>>)
    returns (start': int, left': nat, index': StringIndex, ghost done': seq<seq<byte>>)
    requires CutState(self, s, d, it, start, left, index, done, whole)
    requires index.stop != 0 && left != 0
    modifies it, it.strings
    ensures it.strings == old(it.strings) || fresh(it.strings)
    ensures left' < left
    ensures CutState(self, s, d, it, start', left', index', done', whole)
  {
    SplitStep(s, d, start, left, index);
    var piece := s[start..index.start];
    var rest := SplitFrom(s, d, index.stop, left - 1);
    assert (done + [piece]) + rest == done + ([piece] + rest);
    AppendSlice(it, self, start, index.start);
    var r := ContainsInRange(s, d, StringIndex(index.stop, self.length, 1));
    start', left', index', done' := index.stop, left - 1, r.value, done + [piece];
  }

  /** The end of the String_split_limit loop: the tail from the last cut is the last piece. */
  method CutLast(self: Str, s: seq<byte>, d: seq<byte>, it: StringIterator, start: int, left: nat,
                 index: StringIndex, ghost done: seq<seq<byte>>, ghost whole: seq<seq<byte>>)
    requires CutState(self, s, d, it, start, left, index, done, whole)
    requires index.stop == 0 || left == 0
    modifies it, it.strings
    ensures it.Valid() && it.index == 0
    ensures it.strings == old(it.strings) || fresh(it.strings)
    ensures it.Elements() == whole
  {
    SplitLast(s, d, start, left, index);
    AppendSlice(it, self, start, self.length);
    assert s[start..self.length] == s[start..];
  }

  /** String_split: split_limit with the limit -1. */
  method Split(self: Str, delimiter: Str) returns (it: StringIterator)
    requires self.Valid() && delimiter.Valid() && delimiter.length >= 1
    ensures fresh(it) && fresh(it.strings) && it.Valid() && it.index == 0
    ensures it.Elements() == SplitFrom(self.Contents(), delimiter.Contents(), 0, self.length)
  {
    var r := SplitLimit(self, delimiter, -1);
    it := r.value;
  }

  /** String_split_lines_limit: split_limit at "\n". */
  method SplitLinesLimit(self: Str, limit: int) returns (r: Result<StringIterator>)
    requires self.Valid()
    ensures r.Err? <==> limit < -1
    ensures r.Ok? ==> fresh(r.value) && r.value.Valid() && r.value.index == 0
    ensures r.Ok? ==> r.value.Elements() == SplitLimitSpec(self.Contents(), "\n", limit).value
  {
    var newline := new Str.From("\n");
    r := SplitLimit(self, newline, limit);
  }

  /** String_split_lines: every "\n" is a cut. */
  method SplitLines(self: Str) returns (it: StringIterator)
    requires self.Valid()
    ensures fresh(it) && it.Valid() && it.index == 0
    ensures it.Elements() == SplitFrom(self.Contents(), "\n", 0, self.length)
  {
    var newline := new Str.From("\n");
    it := Split(self, newline);
  }

  /** String_split_in_range: split the slice the descriptor selects. */
  method SplitInRange(self: Str, delimiter: Str, index: StringIndex) returns (r: Result<StringIterator>)
    requires self.Valid() && delimiter.Valid() && delimiter.length >= 1 && index.step != 0
    requires Normalize(index, self.length).Ok? ==> InBounds(Normalize(index, self.length).value, self.length)
    ensures r.Err? <==> Normalize(index, self.length).Err?
    ensures r.Ok? ==> fresh(r.value) && r.value.Valid() && r.value.index == 0
    ensures r.Ok? ==> var part := SliceOf(self.Contents(), Normalize(index, self.length).value);
      r.value.Elements() == SplitFrom(part, delimiter.Contents(), 0, |part|)
  {
    var sliced := self.Slice(index);
    if sliced.Err? {
      return Err(sliced.error);
    }
    var it := Split(sliced.value, delimiter);
    return Ok(it);
  }

  /** String_join: the iterator's strings with the delimiter between them, read through
      `Next`, which leaves the cursor at the end. An empty iterator gives the empty
      string (the C code dereferences the missing element). */
  method JoinStrings(it: StringIterator, delimiter: Str) returns (r: Str)
    requires it.Valid() && delimiter.Valid() && it.index == 0
    modifies it
    ensures fresh(r) && fresh(r.buffer) && r.Valid()
    ensures r.Contents() == Join(old(it.Elements()), delimiter.Contents())
    ensures it.Valid() && it.Elements() == old(it.Elements()) && it.index == it.length
  {
    r := new Str.New(0);
    var n := it.length;
    if n == 0 {
      return;
    }
    ghost var xs := it.Elements();
    var i := 0;
    while i < n - 1
      invariant fresh(r) && fresh(r.buffer)
      invariant i <= n - 1 && JoinState(r, it, delimiter, xs, i) && it.length == n
    {
      JoinOnce(r, it, delimiter, xs, i);
      i := i + 1;
    }
    var last := it.Next();
    var piece := new Str.From(last.value);
    r.ConcatenateInplace(piece);
    JoinAsTerminated(xs, delimiter.Contents());
  }

  /** The state between two rounds of the String_join loop: the first i strings have
      been taken from the iterator, each followed by the delimiter. */
  ghost predicate JoinState(r: Str, it: StringIterator, delimiter: Str, xs: seq<seq<byte>>, i: nat)
    reads r, r.buffer, it, it.strings, delimiter, delimiter.buffer
  {
    it.Valid() && it.Elements() == xs && it.index == i && i <= |xs| &&
    delimiter.Valid() && r.Valid() && r != delimiter && r.buffer != delimiter.buffer &&
    r.Contents() == Terminated(xs[..i], delimiter.Contents())
  }

  /** One round of the String_join loop: the next string and then the delimiter. */
  method JoinOnce(r: Str, it: StringIterator, delimiter: Str, ghost xs: seq<seq<byte>>, i: nat)
    requires JoinState(r, it, delimiter, xs, i) && i < |xs| - 1
    modifies r, r.buffer, it
    ensures JoinState(r, it, delimiter, xs, i + 1) && it.length == old(it.length)
    ensures r.buffer == old(r.buffer) || fresh(r.buffer)
  {
    var next := it.Next();
    var piece := new Str.From(next.value);
    r.ConcatenateInplace(piece);
    r.ConcatenateInplace(delimiter);
    assert xs[..i + 1][..i] == xs[..i];
  }

  /** String_replace: split at `sub`, join with `replacement`. */
  method Replace(self: Str, sub: Str, replacement: Str) returns (r: Str)
    requires self.Valid() && sub.Valid() && replacement.Valid() && sub.length >= 1
    ensures fresh(r) && r.Valid()
    ensures r.Contents() == Join(SplitFrom(self.Contents(), sub.Contents(), 0, self.length), replacement.Contents())
  {
    var pieces := Split(self, sub);
    r := JoinStrings(pieces, replacement);
  }

  /** Replacing a substring by itself changes nothing. */
  lemma ReplaceBySelf(s: seq<byte>, sub: seq<byte>)
    requires |sub| >= 1
    ensures Join(SplitFrom(s, sub, 0, |s|), sub) == s
  {
    SplitJoinRoundTrip(s, sub, 0, |s|);
  }

  /** The chunks of s[i..]: `size` bytes each, the last one possibly shorter. */
  function ChunksFrom(s: seq<byte>, size: nat, i: nat): (chunks: seq<seq<byte>>)
    requires size >= 1
    decreases |s| - i
  {
    if i >= |s| then []
    else [s[i..if i + size <= |s| then i + size else |s|]] + ChunksFrom(s, size, i + size)
  }

  /** Chunks are non-empty, at most `size` long, all but the last exactly `size` long,
      and together spell out s[i..]. */
  lemma {:induction false} ChunksFacts(s: seq<byte>, size: nat, i: nat)
    requires size >= 1
    ensures i <= |s| ==> Join(ChunksFrom(s, size, i), []) == s[i..]
    ensures forall k :: 0 <= k < |ChunksFrom(s, size, i)| ==> 1 <= |ChunksFrom(s, size, i)[k]| <= size
    ensures forall k :: 0 <= k < |ChunksFrom(s, size, i)| - 1 ==> |ChunksFrom(s, size, i)[k]| == size
    decreases |s| - i
  {
    if i < |s| {
      ChunksFacts(s, size, i + size);
      var chunks := ChunksFrom(s, size, i);
      var rest := ChunksFrom(s, size, i + size);
      assert chunks[1..] == rest;
      if i + size < |s| {
        assert s[i..] == s[i..i + size] + s[i + size..];
        assert |rest| >= 1;
      } else {
        assert rest == [];
      }
    }
  }

  /** The descriptor String_chunks slices at offset i: (i, i + size) even when that runs
      past the end. */
  function ChunkIndexAsWritten(i: int, size: int): (r: StringIndex)
    ensures r.step == 1 && r.stop - r.start == size
  {
    StringIndex(i, i + size, 1)
  }

  /** The descriptor with its stop clamped to the length. */
  function ChunkIndex(i: int, size: int, length: nat): (r: StringIndex)
    requires 0 <= i < length && size >= 1
    ensures r.step == 1 && InBounds(r, length) && r.start == i
    ensures Len(r) == (if i + size <= length then size else length - i)
  {
    var r := StringIndex(i, if i + size <= length then i + size else length, 1);
    UnitStepInBounds(r, length);
    r
  }

  /** For "Hello" in chunks of 2 the last descriptor is (4, 6, 1), which addresses byte 5
      of a 5-byte string; clamped it is (4, 5, 1). */
  lemma ChunksDiscrepancy()
    ensures !InBounds(ChunkIndexAsWritten(4, 2), 5)
    ensures ChunkIndex(4, 2, 5) == StringIndex(4, 5, 1)
  {
    var ix := ChunkIndexAsWritten(4, 2);
    assert Len(ix) == 2 && Pos(ix, 1) == 5;
  }

  /** String_chunks with the last slice clamped to the end of the string. */
  method Chunks(self: Str, size: int) returns (it: StringIterator)
    requires self.Valid()
    requires self.length > 0 ==> size >= 1
    ensures fresh(it) && it.Valid() && it.index == 0
    ensures self.length > 0 ==> it.Elements() == ChunksFrom(self.Contents(), size, 0)
    ensures self.length == 0 ==> it.Elements() == []
  {
    it := new StringIterator.New();
    if self.length == 0 {
      return;
    }
    var s := self.Contents();
    var i := 0;
    while i < self.length
      invariant fresh(it) && fresh(it.strings)
      invariant ChunkState(self, s, it, size, i)
      decreases |s| - i
    {
      i := ChunkOnce(self, s, it, size, i);
    }
  }

  /** The state between two rounds of the String_chunks loop: the iterator holds the
      chunks before offset i, and those followed by the chunks from i are all of them. */
  ghost predicate ChunkState(self: Str, s: seq<byte>, it: StringIterator, size: int, i: nat)
    reads self, self.buffer, it, it.strings
  {
    self.Valid() && self.Contents() == s && size >= 1 && it.Valid() && it.index == 0 &&
    it.Elements() + ChunksFrom(s, size, i) == ChunksFrom(s, size, 0)
  }

  /** One round of the String_chunks loop: the slice starting at i, clamped to the end. */
  method ChunkOnce(self: Str, s: seq<byte>, it: StringIterator, size: int, i: nat) returns (next: nat)
    requires ChunkState(self, s, it, size, i) && i < self.length
    modifies it, it.strings
    ensures ChunkState(self, s, it, size, next) && next > i
    ensures it.strings == old(it.strings) || fresh(it.strings)
  {
    var ix := ChunkIndex(i, size, self.length);
    AppendSlice(it, self, ix.start, ix.stop);
    next := i + size;
  }
}
