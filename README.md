# string-ext in Dafny

A model of the core of string-ext, a C library of Python-style string operations.
The library works on two structures:

- `StringT` is a growable byte buffer holding `length` bytes in use out of `allocated`.
- `StringIteratorT` is an append-only array of strings with a read cursor.

`StringIndexT` is a Python-style slice descriptor, `(start, stop, step)`.

The operations modelled are:

- building, copying, concatenating, repeating, indexing, slicing and reversing buffers;
- substring search (Boyer-Moore-Horspool), single-byte search and byte-class search, and counting;
- splitting at a delimiter into an iterator, joining an iterator, replacing, and cutting fixed-size chunks;
- prefix, suffix and equality tests;
- the ASCII case transforms (upper, lower, swap, title, capital);
- the byte-class predicates (`is_alphanumeric`, `is_int`, `is_real`, ...);
- trimming, padding, centring and justifying.

`src/string_ext.c` is the canonical implementation. `src/string.c` is an earlier
draft of the same library; it is cited where the model follows it: the bounds-checked
index resolution and `String_equals`.

Layout, one module per file:

| file | module | what it holds |
|---|---|---|
| `chars.dfy` | `Errors`, `Chars` | the abort reasons as values; bytes, the `CHAR_IS_*` / `CHAR_TO_*` macros |
| `slices.dfy` | `Slices` | `StringIndexT`, negative-index resolution, normalisation, C's truncating division |
| `buffer.dfy` | `Buffer` | class `Str` (the `StringT` buffer: an `array<byte>`, `length`, `capacity`) and the functions on bytes its methods are proved against |
| `iterator.dfy` | `Iterator` | class `StringIterator` (the `StringIteratorT` array, its cursor and doubling growth) |
| `search.dfy` | `Search` | the bad-match table, the Horspool loop, byte and byte-class search, `count` |
| `split.dfy` | `Split` | split with a limit, split lines, split in a range, join, replace, chunks |
| `transform.dfy` | `Transform` | case transforms, predicates, trimming, padding and justification |
| `expectations.dfy` | `Expectations` | the expectations of `tests/operations.c` and `main.c`, stated on the model |

Code that changes state in the C library is imperative here:

- buffer and iterator operations are methods on the two classes, with `modifies` frames;
- every loop is a `while` loop with its invariants.

Each method is proved against a function on byte sequences: `Repeated`, `Reversed`,
`SliceOf`, `SplitFrom`, `Join`, `Upper`, `Title`, `Trimmed`, `Centred` and others.
Lemmas beside each function prove what the library promises: round trips,
idempotence, element-wise meaning, lengths and bounds.

The C aborts (`ERR`, `exit`) become `Result` values with an `Error` reason. A
precondition is used only where the C code has undefined behaviour rather than an abort.

## Model

| member | source | states |
|---|---|---|
| Chars.ToUpper | src/string_ext.c:21-22 | a lower-case letter moves down by 32 to its upper-case partner; every other byte is unchanged |
| Chars.ToLower | src/string_ext.c:19-20 | an upper-case letter moves up by 32 to its lower-case partner; every other byte is unchanged |
| Chars.SwapCase | src/string_ext.c:23-24 | lower-case letters move down by 32, upper-case letters up by 32, and non-letters are unchanged |
| Chars.CaseConversions | src/string_ext.c:13-24 | conversions keep letters letters; upper leaves no lower-case byte and lower no upper-case byte; each conversion is idempotent; lower∘upper = lower; swap is an involution that changes exactly the letters |
| Chars.CaseKeepsWhitespace | src/string_ext.c:10-24 | no case conversion turns a byte into or out of whitespace |
| Slices.TruncDiv | src/string_ext.c:193-196 | C division: the quotient is truncated toward zero, so the remainder carries the dividend's sign and is smaller than the divisor |
| Slices.New | src/string_ext.c:159-164 | a zero step is refused with InvalidStep; otherwise the fields are as given |
| Slices.Init | src/string_ext.c:125-155 | one argument means (0, stop, 1), two mean (start, stop, 1), three go through New; any other count is an error |
| Slices.ResolveIndex | src/string.c:33-43 | an index resolves exactly when -length <= index < length, to a position inside the buffer; otherwise IndexOutOfRange |
| Slices.ResolveBound | src/string_ext.c:34-42 | a non-negative index is kept; a negative one has the length added and fails exactly when it stays negative |
| Slices.NormalizeAsWritten | src/string_ext.c:174-184 | a descriptor with negative stop is returned untouched, whatever its step |
| Slices.Normalize | src/string_ext.c:174-184 | a backward descriptor with a negative stop (the end marker `String_reverse` uses) is left alone; every other descriptor has its start and stop resolved against the length, which fails exactly when either is below -length |
| Slices.NormalizeAgreesAsWritten | src/string_ext.c:174-184 | the corrected normalisation answers what the code answers on every descriptor except a forward one with a negative stop, which the code leaves unresolved |
| Slices.NormalizeBackward | src/string_ext.c:174-184 | (-1, 0, -1) over three bytes is resolved to (2, 0, -1) by the code and by the correction alike, a two-position range inside the buffer |
| Slices.NormalizeDiscrepancy | src/string_ext.c:174-184 | (7, -1, 1) over 13 bytes: the code keeps a descriptor of negative length, while the documented rule yields (7, 12, 1) |
| Slices.NormalizeIdempotent | src/string_ext.c:174-184 | normalising a normalised descriptor changes nothing |
| Slices.Equal | src/string_ext.c:187-190 | field-wise comparison holds exactly when the descriptors are equal |
| Slices.Len | src/string_ext.c:193-196 | for a range running in the step's direction, the length n is the number of whole steps that fit: n steps stay within the range and n + 1 overshoot it |
| Slices.UnitStepInBounds | src/string_ext.c:193-196 | a step-1 range inside the buffer addresses only positions inside it, stop - start of them |
| Slices.ReverseIndexInBounds | src/string_ext.c:1068-1071 | normalisation leaves (n-1, -1, -1) unchanged; it has n positions, all in bounds, the k-th being n-1-k |
| Buffer.GrowthPolicy | src/string_ext.c:267-278 | a growth request of n bytes yields a capacity that is a multiple of 4, above n, and at most n + n/8 + 6 |
| Buffer.LastTwoBackward | src/string_ext.c:396-409 | over three bytes, the slice (2, 0, -1) is byte 2 followed by byte 1 |
| Buffer.BackwardSlice | src/string_ext.c:396-409 | slicing "abc" with (-1, 0, -1) normalises to (2, 0, -1) and yields "cb" |
| Buffer.UnitSliceIsSubsequence | src/string_ext.c:396-409 | a step-1 descriptor inside the buffer is left alone by normalisation and slices out exactly s[start..stop] |
| Buffer.ReversedElements | src/string_ext.c:1068-1071 | the reversal has the same length, and byte k is byte n-1-k of the input |
| Buffer.ReversedInvolution | src/string_ext.c:1068-1071 | reversing twice gives the input back |
| Buffer.ReverseIndexReverses | src/string_ext.c:1068-1071 | slicing with (n-1, -1, -1) yields exactly the reversed bytes |
| Buffer.RepeatedElements | src/string_ext.c:471-485 | n repetitions have |s|·n bytes, begin with s and repeat with period |s| |
| Buffer.RepeatedAsWritten | src/string_ext.c:471-485 | for a non-zero count the result is the repetition; for a zero count it still has |s| bytes |
| Buffer.RepeatZeroDiscrepancy | src/string_ext.c:471-485 | repeating " " zero times gives "\0" rather than the empty string, so left-justifying with no fill appends a NUL byte |
| Buffer.Equals | src/string.c:367-375 | true exactly when the two byte sequences are equal |
| Buffer.EqualsAsWritten | src/string_ext.c:309-316 | comparing only self's length against other's NUL-terminated buffer: true exactly when self is a prefix of other |
| Buffer.EqualsDiscrepancy | src/string_ext.c:500-503 | "Hello" equals "Hello, World" as written, though the two differ |
| Buffer.CheckEqualsInRange | src/string_ext.c:1010-1023 | a stop past the end is IndexOutOfRange; an `other` longer than self is false; otherwise the answer is whether self[start..stop] equals the corresponding prefix of `other` |
| Buffer.StartsWithAsWritten | src/string_ext.c:1035-1038 | aborts exactly when the prefix is longer than the string |
| Buffer.StartsWith | src/string_ext.c:1035-1038 | true exactly when the prefix fits and self begins with it |
| Buffer.StartsWithDiscrepancy | src/string_ext.c:1035-1038 | "Hi" against the prefix "Hello": the code aborts with an index error; the intended answer is false |
| Buffer.EndsWith | src/string_ext.c:1050-1054 | true exactly when the suffix fits and self ends with it |
| Buffer.Str.New | src/string_ext.c:207-217 | a fresh, empty buffer whose capacity is the requested size |
| Buffer.Str.From | src/string_ext.c:228-256 | a fresh buffer holding exactly the given bytes, with capacity equal to their length |
| Buffer.Str.ReAllocate | src/string_ext.c:267-278 | contents unchanged; a request within capacity changes nothing; a larger one grows capacity to GrowthPolicy(request) in a fresh array |
| Buffer.Str.Push | src/string_ext.c:341-347 | the contents gain exactly one byte at the end |
| Buffer.Str.ConcatenateInplace | src/string_ext.c:451-457 | the contents gain exactly other's bytes at the end; other is unchanged |
| Buffer.Str.Copy | src/string_ext.c:327-330 | a fresh buffer with the same contents |
| Buffer.Str.Concatenate | src/string_ext.c:424-436 | a fresh buffer holding self's bytes followed by other's |
| Buffer.Str.Repeat | src/string_ext.c:471-485 | a fresh buffer holding `times` copies of the contents, and none for a negative count |
| Buffer.Str.Index | src/string.c:262-267 | succeeds exactly for -length <= index < length, giving byte index or byte length+index; otherwise IndexOutOfRange |
| Buffer.Str.Slice | src/string_ext.c:396-409 | fails exactly when normalisation fails; otherwise a fresh buffer holding the addressed bytes in step order |
| Buffer.Str.Reverse | src/string_ext.c:1068-1071 | a fresh buffer holding the contents reversed |
| Iterator.StringIterator.Remaining | src/string_ext.c:80-84 | the strings not yet handed out are the suffix after the cursor |
| Iterator.StringIterator.New | src/string_ext.c:62-73 | an empty iterator, cursor 0, room for one string |
| Iterator.StringIterator.Append | src/string_ext.c:104-114 | the string goes after the existing ones; the cursor is unchanged; a full array doubles its capacity in a fresh array |
| Iterator.StringIterator.Next | src/string_ext.c:80-84 | hands out the string under the cursor and advances it, or reports None at the end without moving |
| Iterator.StringIterator.Get | src/string_ext.c:87-90 | the string stored first, whatever the cursor |
| Iterator.FromSeq | src/string_ext.c:104-114 | appending the strings one by one to a new iterator leaves exactly those strings, in order, with the cursor at 0 |
| Iterator.StringIterator.Drain | src/string_ext.c:80-84 | calling Next until it reports None yields the remaining strings in insertion order |
| Search.FindFromCorrect | src/string_ext.c:560-584 | the reference search answers the leftmost match inside the window, and None exactly when the window holds none |
| Search.FindFromBounds | src/string_ext.c:560-584 | an answer is a match lying wholly inside the window |
| Search.LeftmostIsFound | src/string_ext.c:560-584 | a match with no match to its left is the answer |
| Search.NothingIsFound | src/string_ext.c:560-584 | a window without a match gives None |
| Search.Located | src/string_ext.c:560-584 | a match at p is reported as (p, p+m, 1), no match as (0, 0, 1) |
| Search.TableEntryFacts | src/string_ext.c:514-519 | a bad-match entry is 0 exactly when the byte is absent from the pattern; otherwise it is at least 1, and for every occurrence of the byte it is 1 or at most that occurrence's distance to the pattern's end |
| Search.ConstructBadMatchTable | src/string_ext.c:514-519 | a fresh 256-entry table whose entry c is the bad-match shift of c |
| Search.ReverseCompareFrom | src/string_ext.c:525-532 | true exactly when sub occurs ending at `start` |
| Search.ShiftIsSafe | src/string_ext.c:560-584 | the Horspool shift is at least 1 and never skips a match |
| Search.ContainsInRange | src/string_ext.c:560-584 | a step other than 1 is refused; otherwise the descriptor of the leftmost match inside [start, stop) |
| Search.Contains | src/string_ext.c:548-551 | the descriptor of the leftmost match in the whole string |
| Search.ContainsCharInRange | src/string_ext.c:627-634 | a step other than 1 is refused; otherwise the descriptor of the first occurrence of the byte in the range |
| Search.FirstByteFrom | src/string_ext.c:627-634 | the byte-by-byte scan agrees with the reference search for a one-byte pattern |
| Search.ContainsChar | src/string_ext.c:604-607 | not found exactly when the byte is absent; otherwise it is the first occurrence of the byte |
| Search.FirstInClass | src/string_ext.c:669-682 | the first position in the scan whose byte is in the class, or None when no byte in the scan is |
| Search.FindFromCharClassInRangeAsWritten | src/string_ext.c:669-682 | reports not found exactly when no byte in the scan is in the class |
| Search.FindFromCharClassInRange | src/string_ext.c:669-682 | not found exactly when no scanned byte is in the class; otherwise a one-byte descriptor at the first scanned position holding a class byte |
| Search.FindFromCharClass | src/string_ext.c:649-653 | the same over the whole string: the first position whose byte is in the class |
| Search.CharClassDiscrepancy | src/string_ext.c:669-682 | "Hello, World!" with class "Wd": the code reports (0, 1, 1), the offset of 'W' in the class; the documented answer is (7, 8, 1) |
| Search.Occurrences | src/string_ext.c:1526-1540 | zero exactly when there is no match from `from` on |
| Search.OccurrencesBound | src/string_ext.c:1526-1540 | there are never more occurrences than bytes left |
| Search.OccurrencesStep | src/string_ext.c:1526-1540 | a match accounts for one occurrence, and counting resumes after it |
| Search.Count | src/string_ext.c:1526-1540 | the number of non-overlapping occurrences met scanning left to right |
| Search.CountStep | src/string_ext.c:1526-1540 | each round of the count loop moves strictly forward and accounts for exactly one occurrence |
| Split.SplitFrom | src/string_ext.c:716-750 | a split yields at least one piece |
| Split.JoinAsTerminated | src/string_ext.c:984-998 | joining is terminating every string but the last with the delimiter, then adding the last |
| Split.TerminatedCons | src/string_ext.c:984-998 | terminating a list puts the first string and a delimiter ahead of the rest |
| Split.SplitUnfold | src/string_ext.c:716-750 | with a match at p and cuts left, the first piece is the gap up to p, and splitting resumes after the delimiter |
| Split.JoinStep | src/string_ext.c:984-998 | joining a string in front of a non-empty list puts the delimiter between them |
| Split.CutAtMatch | src/string_ext.c:716-750 | a match cuts the text into the part before, the delimiter, and the part after |
| Split.SplitJoinRoundTrip | src/string_ext.c:696-701 | joining the pieces with the delimiter gives the input back, whatever the limit |
| Split.SplitPieceCount | src/string_ext.c:716-750 | the number of pieces is one more than the smaller of the limit and the number of occurrences |
| Split.SplitPiecesAvoidDelimiter | src/string_ext.c:716-750 | no piece but the last contains the delimiter |
| Split.SplitLimitSpec | src/string_ext.c:716-750 | a limit below -1 is InvalidLimit; limit 0 keeps the string whole |
| Split.UnboundedSplitCutsEverywhere | src/string_ext.c:765-768 | with limit -1 there is one piece more than there are occurrences, and they join back to the input |
| Split.SplitLimitRoundTrip | src/string_ext.c:716-750 | every successful split joins back to the input |
| Split.SplitStep | src/string_ext.c:716-750 | one round of the split loop cuts off the gap before the reported match and resumes after it |
| Split.SplitLast | src/string_ext.c:716-750 | when the search fails or the cuts are used up, the tail is the last piece |
| Split.AppendSlice | src/string_ext.c:716-750 | the iterator gains exactly the slice, and its cursor is unchanged |
| Split.SplitLimit | src/string_ext.c:716-750 | fails exactly for a limit below -1; otherwise a fresh iterator at cursor 0 holding the pieces of the specification |
| Split.SplitCuts | src/string_ext.c:716-750 | the loop yields exactly the pieces of a split with the given number of cuts |
| Split.CutOnce | src/string_ext.c:716-750 | one loop round keeps the loop state and uses up one cut |
| Split.CutLast | src/string_ext.c:716-750 | after the loop, the iterator holds all the pieces |
| Split.Split | src/string_ext.c:765-768 | the pieces at every occurrence of the delimiter |
| Split.SplitLinesLimit | src/string_ext.c:841-844 | a split at "\n" with the given limit, refusing limits below -1 |
| Split.SplitLines | src/string_ext.c:786-789 | the pieces at every "\n" |
| Split.SplitInRange | src/string_ext.c:899-902 | fails exactly when normalisation fails; otherwise the pieces of the selected slice |
| Split.JoinStrings | src/string_ext.c:984-998 | a fresh buffer holding the iterator's strings with the delimiter between consecutive ones and nowhere else; the iterator is drained |
| Split.JoinOnce | src/string_ext.c:984-998 | one loop round appends the next string and a delimiter, keeping the loop state |
| Split.Replace | src/string_ext.c:696-701 | every occurrence of sub, left to right and without overlap, is replaced |
| Split.ReplaceBySelf | src/string_ext.c:696-701 | replacing a substring by itself changes nothing |
| Split.ChunksFacts | src/string_ext.c:1504-1513 | the chunks join back to the text; each is non-empty and at most `size` long, and all but the last are exactly `size` |
| Split.ChunkIndexAsWritten | src/string_ext.c:1504-1513 | every chunk descriptor spans `size` positions, even past the end |
| Split.ChunkIndex | src/string_ext.c:1504-1513 | the clamped descriptor starts at i, stays inside the buffer and covers `size` positions or what remains |
| Split.ChunksDiscrepancy | src/string_ext.c:1504-1513 | "Hello" in chunks of 2: the last descriptor (4, 6, 1) leaves the buffer; the clamped one is (4, 5, 1) |
| Split.Chunks | src/string_ext.c:1504-1513 | a fresh iterator holding the chunks of the text, or nothing for an empty text |
| Split.ChunkOnce | src/string_ext.c:1504-1513 | one loop round appends the next clamped chunk and moves strictly forward |
| Transform.Mapped | src/string_ext.c:1085-1094 | mapping keeps the length |
| Transform.MapInPlace | src/string_ext.c:1085-1094 | every byte of the buffer is replaced by its image, in place |
| Transform.ToUpperString | src/string_ext.c:1085-1094 | a fresh buffer holding the upper-cased contents |
| Transform.ToLowerString | src/string_ext.c:1108-1116 | a fresh buffer holding the lower-cased contents |
| Transform.SwapCaseString | src/string_ext.c:1184-1192 | a fresh buffer holding the case-swapped contents |
| Transform.UpperFacts | src/string_ext.c:1085-1094 | same length; non-letters unchanged; no lower-case letter left; idempotent; lower-casing afterwards equals lower-casing alone |
| Transform.LowerFacts | src/string_ext.c:1108-1116 | same length; non-letters unchanged; no upper-case letter left; idempotent; upper-casing afterwards equals upper-casing alone |
| Transform.SwappedFacts | src/string_ext.c:1184-1192 | same length; a byte changes exactly when it is a letter; swapping twice gives the input back |
| Transform.Title | src/string_ext.c:1130-1146 | title casing keeps the length |
| Transform.TitleAsWritten | src/string_ext.c:1130-1146 | the code's title casing keeps the length |
| Transform.TitleDiscrepancy | src/string_ext.c:1130-1146 | " foo" stays " foo" under the code but becomes " Foo" as documented; the two agree on every string that does not begin with whitespace |
| Transform.TitleAt | src/string_ext.c:1130-1146 | byte k is upper-cased exactly when it opens a word; whitespace and word starts are kept |
| Transform.TitleFacts | src/string_ext.c:1130-1146 | whitespace kept; only word-opening bytes change; no word opens with a lower-case letter; idempotent |
| Transform.TitleInPlace | src/string_ext.c:1130-1146 | the buffer is title-cased in place |
| Transform.ToTitleString | src/string_ext.c:1130-1146 | a fresh buffer holding the title-cased contents |
| Transform.Capital | src/string_ext.c:1161-1170 | capitalising keeps the length |
| Transform.CapitalFacts | src/string_ext.c:1161-1170 | byte 0 agrees with title case and is not lower-case; the rest is unchanged; idempotent |
| Transform.ToCapitalString | src/string_ext.c:1161-1170 | a fresh buffer holding the contents with byte 0 upper-cased |
| Transform.AllFrom | src/string_ext.c:1209-1215 | the scan holds exactly when every byte from i on satisfies the predicate |
| Transform.IsAlphanumericString | src/string_ext.c:1209-1215 | true exactly when every byte is a letter or a digit |
| Transform.IsAlphabeticString | src/string_ext.c:1231-1237 | true exactly when every byte is a letter |
| Transform.IsUppercaseString | src/string_ext.c:1252-1258 | true exactly when no byte is a lower-case letter |
| Transform.IsLowercaseString | src/string_ext.c:1273-1279 | true exactly when no byte is an upper-case letter |
| Transform.IsIntString | src/string_ext.c:1294-1300 | true exactly when every byte is a decimal digit |
| Transform.IsWhitespaceString | src/string_ext.c:1345-1351 | true exactly when every byte is space, tab, newline or carriage return |
| Transform.RealFrom | src/string_ext.c:1317-1330 | the rest of the scan holds exactly when the remaining bytes are digits or dots, with at most one dot overall |
| Transform.IsRealString | src/string_ext.c:1317-1330 | true exactly when every byte is a digit or '.', and no two bytes are dots |
| Transform.PredicateRelations | src/string_ext.c:1209-1351 | every predicate accepts the empty string; an integer string is a real one and alphanumeric; alphabetic implies alphanumeric; upper-cased text is upper-case and lower-cased text is lower-case; a string is both exactly when it has no letter |
| Transform.SkipWhitespace | src/string_ext.c:1382-1388 | the first non-whitespace index from i on, or the length, with only whitespace skipped |
| Transform.SkipWhitespaceBack | src/string_ext.c:1401-1407 | the end of the text once its trailing whitespace is dropped, with only whitespace dropped |
| Transform.TrimmedLeftFacts | src/string_ext.c:1382-1388 | an all-whitespace string is kept whole; otherwise exactly the leading whitespace is dropped; idempotent |
| Transform.TrimmedRightFacts | src/string_ext.c:1401-1407 | an all-whitespace string is kept whole; otherwise exactly the trailing whitespace is dropped; idempotent |
| Transform.TrimmedFacts | src/string_ext.c:1366-1369 | an all-whitespace string is kept whole; otherwise the result is the core between leading and trailing whitespace, starting and ending with non-whitespace |
| Transform.TrimLeft | src/string_ext.c:1382-1388 | a fresh buffer holding the left-trimmed contents |
| Transform.TrimRight | src/string_ext.c:1401-1407 | a fresh buffer holding the right-trimmed contents |
| Transform.TrimWhitespace | src/string_ext.c:1366-1369 | a fresh buffer holding the contents trimmed on both sides |
| Transform.SpacesFacts | src/string_ext.c:1419-1427 | n spaces, none for a negative n |
| Transform.Pad | src/string_ext.c:1419-1427 | a fresh buffer holding left spaces, the contents, then right spaces |
| Transform.CentredFacts | src/string_ext.c:1439-1449 | a string at least `width` long is kept; otherwise the result is `width` long with the text after ⌊margin/2⌋ spaces and before the rest |
| Transform.Centre | src/string_ext.c:1439-1449 | a fresh buffer holding the centred contents |
| Transform.JustifiedFacts | src/string_ext.c:1462-1491 | a string longer than `width` is kept; otherwise the result is `width` long, with the text followed (left) or preceded (right) by spaces only |
| Transform.LeftJustify | src/string_ext.c:1462-1470 | a fresh buffer holding the left-justified contents |
| Transform.RightJustify | src/string_ext.c:1483-1491 | a fresh buffer holding the right-justified contents |
| Expectations.ContainsExpectation | tests/operations.c:141-155 | "l" is found at (2, 3) and "lo" at (3, 5) in "Hello, World" |
| Expectations.ContainsOneExpectation | tests/operations.c:141-155 | "l" is found at (2, 3) in "Hello, World" |
| Expectations.ContainsInRangeExpectation | tests/operations.c:157-173 | within (0, 4), "l" is found at (2, 3) and "lo" is not found |
| Expectations.CountExpectation | tests/operations.c:125-139 | "l" occurs three times in "Hello, World" |
| Expectations.CountPairExpectation | tests/operations.c:125-139 | "lo" occurs once in "Hello, World" |
| Expectations.CompareExpectation | tests/operations.c:37-65 | equality, starts-with and ends-with answer as the tests expect |
| Expectations.ReverseExpectation | tests/operations.c:175-183 | "Hello, World!" reverses to "!dlroW ,olleH" |
| Expectations.SliceExpectation | tests/operations.c:201-210 | StringIndex(4) slices "foo " out of "foo bar" |
| Expectations.RepeatExpectation | tests/operations.c:212-223 | five copies of "foo ", and none for -1 |
| Expectations.JoinExpectation | tests/operations.c:185-199 | "Foo", "Bar", "Spam", "Egg" joined by "-" |
| Expectations.JoinStringsExpectation | tests/operations.c:185-199 | appending "Foo", "Bar", "Spam", "Egg" to an iterator and joining with "-" gives "Foo-Bar-Spam-Egg" |
| Expectations.CopyExpectation | tests/operations.c:6-13 | the copy of "Hello, World" holds "Hello, World" |
| Expectations.ConcatenateExpectation | tests/operations.c:15-24 | "Hello, " concatenated with "World" holds "Hello, World" |
| Expectations.ConcatenateInplaceExpectation | tests/operations.c:26-35 | "Hello, " extended in place by "World" holds "Hello, World", and "World" is unchanged |
| Expectations.CommaSpaceFound | main.c:12 | the only ", " in "Hello, World!" is at 5 |
| Expectations.SplitExpectation | main.c:12 | "Hello, World!" split at ", " gives "Hello" and "World!" |
| Expectations.CaseExpectation | tests/operations.c:225-273 | upper, lower and swapped case of "Foo Bar" |
| Expectations.TitleExpectation | tests/operations.c:245-263 | "foo bar" title-cases to "Foo Bar" (under the code as written too) and capitalises to "Foo bar" |
| Expectations.AlphanumericExpectation | tests/operations.c:67-74 | "Hello 123" is not alphanumeric; "Hello123" is |
| Expectations.UppercaseExpectation | tests/operations.c:76-83 | "HELLO, WORLD" is upper-case; "Hello, World" is not |
| Expectations.LowercaseExpectation | tests/operations.c:85-92 | "hello, world" is lower-case; "Hello, World" is not |
| Expectations.NumberExpectation | tests/operations.c:94-114 | "1024" is an integer and a real; "512.25" only a real; "foo" neither |
| Expectations.WhitespaceExpectation | tests/operations.c:116-123 | " " is whitespace; "Hello, World" is not |
| Expectations.TrimExpectation | tests/operations.c:275-283 | " Foo Bar  " trims to "Foo Bar" |
| Expectations.JustifyExpectation | tests/operations.c:285-313 | centring, left- and right-justifying "Foo Bar" to width 10 |

## Left out

- Memory management is not modelled: `malloc`/`realloc`/`free` failures, leaks, and the `DBG` tracing. Allocation is `new`, and an allocation failure cannot happen.
- Buffer.Str.Repeat: follows the evidently intended behaviour, not the C aliasing. `String_pre_allocated` (src/string_ext.c:287-297) makes the result share `self`'s byte array and leaks the array it allocates. As written, the result can therefore overwrite `self` or run past its allocation. Buffer.RepeatedAsWritten models the value the code yields; the sharing itself is not modelled.
- Buffer.Str.From, Buffer.Str.Copy and Buffer.Str.Concatenate: the C takes the length of the input with `c_string_length`, stopping at the first NUL. `String_copy` is `String_from(self->string)` (src/string_ext.c:328-330), and `String_concatenate` starts from such a copy, so the same applies to every copy, including copies of the buffers `String_slice` builds without a NUL terminator. The model takes the byte sequence as given, that is, it assumes a buffer holds no NUL and is terminated by one. `c_string_length` is not part of this model.
- Buffer.Str.ConcatenateInplace: requires `other` to be a different object from `self` with a different byte array. Both excluded cases are undefined in the C, so there is no result to model:
  - With `other == self`, the loop (src/string_ext.c:455-456) reads the `other->length` it is growing, so for a non-empty string it does not stop and writes past the allocation.
  - With two distinct objects sharing one array, as `String_pre_allocated` makes them, the loop stops after `other->length` rounds, but the writes are not safe. Either the `allocated` that `String_pre_allocated` records (src/string_ext.c:291-295) makes `String_re_allocate` skip the `realloc` (src/string_ext.c:271), and the writes run past the array's real allocation, or the `realloc` frees the array that `other` still reads.
- Buffer.Str.Index: follows the bounds-checked resolution of src/string.c:33-43. In src/string_ext.c:373-378 an index at or past the length is not checked and reads outside the buffer, which has no defined result to model.
- Buffer.Str.Slice: requires the normalised descriptor to have a non-negative length and every position it addresses to lie inside the buffer. `String_slice` reads each position without a check (src/string_ext.c:403-406), and with a negative `slice_length` its `while (slice_length--)` loop runs away. The inputs excluded are:
  - a range running against its step, such as (3, 1, 1) or (1, 3, -1) over 5 bytes;
  - a range that addresses a position at or past the length, such as (0, 6, 1) over 5 bytes; a stop past the length alone is not excluded, so (0, 7, 2) over 5 bytes, which addresses 0, 2 and 4, is accepted;
  - a backward descriptor with a negative stop whose range runs past byte 0, such as (2, -4, -1); the code leaves it unresolved too;
  - a step of 0, where the C division by zero is undefined.
- Split.SplitInRange: requires the same of its descriptor as Buffer.Str.Slice, for the same reason, since it slices first.
- Split.Chunks: requires a chunk size of at least 1 for a non-empty string. With size 0 the C loop (src/string_ext.c:1508) never advances and does not terminate; with a negative size it slices a negative-length range.
- Search.ContainsInRange: requires a window that lies inside the buffer and a non-empty needle when the window is long enough to be scanned, because the Horspool loop reads `self->string[i]` without a bounds check.
- Search.ContainsCharInRange: requires a non-empty window to lie inside the buffer, because the scan reads `self->string[i]` without a bounds check (src/string_ext.c:630-632).
- Search.FindFromCharClassInRange: requires the scanned part of the window to lie inside the buffer, because the scan reads `self->string[i]` without a bounds check (src/string_ext.c:676-677).
- Search.FindFromCharClassInRangeAsWritten: the same requirement as Search.FindFromCharClassInRange, for the same reason.
- Buffer.CheckEqualsInRange: requires, once the range check has passed, a non-negative start and a window no longer than `other`, because the comparison reads both buffers without a check. Its two callers, `String_starts_with` and `String_ends_with`, always meet this.
- Search.Contains, Search.Count, Split.Split, Split.SplitLimit, Split.SplitInRange and Split.Replace: require a non-empty needle or delimiter. With an empty pattern, the Horspool loop in the C code reads before the buffer or does not terminate.
- Iterator.StringIterator.Get: requires a non-empty iterator, because the C code reads `strings[0]` unconditionally.
- Iterator: the iterator holds string values, not references to `StringT` objects, so aliasing between an appended string and later changes to it is not modelled.
- Split.JoinStrings: an empty iterator joins to the empty string. In the C code, the final `StringIterator_next` then returns NULL, which `String_concatenate_inplace` dereferences.
- Split.JoinStrings: requires the cursor at 0. The C loop runs `length - 1` rounds from wherever the cursor is, so a partly consumed iterator makes it pass NULL on.
- The `right_split`, `right_split_limit`, `split_whitespace` and `split_whitespace_limit` family (src/string_ext.c:859-968) is not modelled. The core's splitting is modelled through `split_limit`, of which they are mirror-image or whitespace-class variants.
- `String_format`, `String_to_int`, `String_to_float` and `String_fill` are declared in the headers with no body in the core, so there is nothing to model.
- Integers are unbounded: `ssize_t` and `int` overflow (for example `length * times` in `String_repeat`) is not modelled. Bytes are the unsigned values 0..255; the signedness of C `char` only matters above 127, where the case macros leave bytes alone.
- Buffer.Equals: follows the length-checked `String_equals` of src/string.c:367-375. The one of src/string_ext.c:500-503 compares only `self->length` bytes; Buffer.EqualsAsWritten models it and the Findings table records the difference.
- src/string.c is the earlier draft of the same API. Where it differs, src/string_ext.c is modelled, except for the index resolution (see Buffer.Str.Index) and `String_equals` (see Buffer.Equals):
  - its `String_slice` does not normalise;
  - its bad-match table is filled differently;
  - its `StringIterator_append` tests the NULL result of `realloc` the wrong way round (src/string.c:95), which only matters on allocation failure;
  - its `String_is_numeric` and `String_is_decimal` are `is_int` and `is_real` under other names.
- Input and output (`printf` in `main.c`, the test program's reporting) is not modelled; the test expectations are stated as lemmas instead.

## Findings

| source | as written | input that shows it | evidently intended | confidence | as-written member | corrected member |
|---|---|---|---|---|---|---|
| src/string_ext.c:174-184 | normalisation is skipped when `stop < 0` | (7, -1, 1) over 13 bytes stays (7, -1, 1), a negative-length range | resolve a positive-step descriptor, as the comment says, giving (7, 12, 1); keep the code's answer on every other descriptor, so (-1, 0, -1) still becomes (2, 0, -1). The example in `String_slice`'s doc comment (src/string_ext.c:391-396) contradicts both the comment and this correction: it expects (7, -1) to give "World!" and (0, -1, 2) to give "Hlo ol!", while an exclusive stop of 12 gives "World" and "Hlo ol" | high, not executed | Slices.NormalizeAsWritten, Slices.NormalizeDiscrepancy | Slices.Normalize, Slices.NormalizeAgreesAsWritten |
| src/string_ext.c:669-682 | returns where the matching byte sits in the class string | "Hello, World!" with class "Wd" gives (0, 1, 1) | the position in the searched string, (7, 8, 1), as the doc comment shows | high, not executed | Search.FindFromCharClassInRangeAsWritten, Search.CharClassDiscrepancy | Search.FindFromCharClassInRange |
| src/string_ext.c:1504-1513 | the last chunk is sliced as (i, i + size) with no clamp | "Hello" in chunks of 2: (4, 6, 1) reads the byte after the buffer | clamp the stop to the length: (4, 5, 1) gives "o" | high, not executed | Split.ChunkIndexAsWritten, Split.ChunksDiscrepancy | Split.ChunkIndex |
| src/string_ext.c:471-485 | zero repetitions write the NUL over byte 0 of a buffer that keeps `self`'s length | repeating " " 0 times gives "\0", so left-justifying "foo" to width 3 yields "foo\0" | the empty string | high, not executed | Buffer.RepeatedAsWritten, Buffer.RepeatZeroDiscrepancy | Buffer.Repeated, Buffer.RepeatedElements |
| src/string_ext.c:1035-1038 | the range check on the prefix comes before the length check, so a long prefix aborts | "Hi" starts with "Hello" aborts with "index out of range" | answer false | medium, not executed | Buffer.StartsWithAsWritten, Buffer.StartsWithDiscrepancy | Buffer.StartsWith |
| src/string_ext.c:1130-1146 | the whitespace scan starts at index 1, so the byte after a leading whitespace byte is never upper-cased | " foo" stays " foo" | every byte after whitespace opens a word: " Foo" | medium, not executed | Transform.TitleAsWritten, Transform.TitleDiscrepancy | Transform.Title |
| src/string_ext.c:500-503 | `String_equals` is `String_eq(self, other->string)`, which compares only the first `self->length` bytes | "Hello" against "Hello, World" answers true | equal lengths and equal bytes, as src/string.c:367-375 checks | high, not executed | Buffer.EqualsAsWritten, Buffer.EqualsDiscrepancy | Buffer.Equals |
