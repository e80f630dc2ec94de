/** The expectations of the repository's operation tests (tests/operations.c and
    main.c), stated on the specification functions the methods are proved against. */
module Expectations {
  import opened Chars
  import opened Errors
  import opened Slices
  import opened Search
  import opened Buffer
  import opened Split
  import opened Transform
  import opened Iterator

  /** No match can start in [lo, hi) when the first byte of `sub` does not occur there. */
  lemma NoMatchBetween(s: seq<byte>, sub: seq<byte>, lo: int, hi: int)
    requires |sub| >= 1 && 0 <= lo <= hi <= |s|
    requires sub[0] !in s[lo..hi]
    ensures forall q :: lo <= q < hi ==> !MatchAt(s, sub, q)
  {
    forall q | lo <= q < hi ensures !MatchAt(s, sub, q) {
      assert s[lo..hi][q - lo] == s[q];
      if q + |sub| <= |s| {
        assert s[q..q + |sub|][0] == s[q];
      }
    }
  }

  /** A predicate every byte of `s` satisfies holds of each of them in turn. */
  lemma AllByMembership(s: seq<byte>, p: byte -> bool)
    requires forall c :: c in s ==> p(c)
    ensures AllFrom(s, p, 0)
  {
    forall k | 0 <= k < |s| ensures p(s[k]) {
      assert s[k] in s;
    }
  }

  /** test_contains: "l" is found at 2 and "lo" at 3. */
  lemma ContainsExpectation(s: seq<byte>)
    requires s == "Hello, World"
    ensures Located(FindFrom(s, "l", 0, 12), 1) == StringIndex(2, 3, 1)
    ensures Located(FindFrom(s, "lo", 0, 12), 2) == StringIndex(3, 5, 1)
  {
    ContainsOneExpectation(s);
    NoMatchBetween(s, "lo", 0, 2);
    assert !MatchAt(s, "lo", 2) by { assert s[2..4][1] != 'o'; }
    assert MatchAt(s, "lo", 3) by { assert s[3..5] == "lo"; }
    LeftmostIsFound(s, "lo", 0, 12, 3);
  }

  /** test_contains, its first half: "l" is found at 2. */
  lemma ContainsOneExpectation(s: seq<byte>)
    requires s == "Hello, World"
    ensures Located(FindFrom(s, "l", 0, 12), 1) == StringIndex(2, 3, 1)
  {
    NoMatchBetween(s, "l", 0, 2);
    assert MatchAt(s, "l", 2) by { assert s[2..3] == "l"; }
    LeftmostIsFound(s, "l", 0, 12, 2);
  }

  /** test_contains_in_range: within [0, 4) "l" is found at 2 and "lo" is not found. */
  lemma ContainsInRangeExpectation()
    ensures Located(FindFrom("Hello, World", "l", 0, 4), 1) == StringIndex(2, 3, 1)
    ensures Located(FindFrom("Hello, World", "lo", 0, 4), 2) == NotFound
  {
    var s: seq<byte> := "Hello, World";
    NoMatchBetween(s, "l", 0, 2);
    LeftmostIsFound(s, "l", 0, 4, 2);
    NoMatchBetween(s, "lo", 0, 2);
    assert !MatchAt(s, "lo", 2) by { assert s[2..4][1] != 'o'; }
    NothingIsFound(s, "lo", 0, 4);
  }

  /** test_count: "l" occurs three times. */
  lemma CountExpectation()
    ensures Occurrences("Hello, World", "l", 0) == 3
  {
    var s: seq<byte> := "Hello, World";
    NoMatchBetween(s, "l", 0, 2);
    LeftmostIsFound(s, "l", 0, 12, 2);
    LeftmostIsFound(s, "l", 3, 12, 3);
    NoMatchBetween(s, "l", 4, 10);
    LeftmostIsFound(s, "l", 4, 12, 10);
    NoMatchBetween(s, "l", 11, 12);
    NothingIsFound(s, "l", 11, 12);
    assert Occurrences(s, "l", 11) == 0;
    OccurrencesStep(s, "l", 4, 10, 11);
    OccurrencesStep(s, "l", 3, 3, 4);
    OccurrencesStep(s, "l", 0, 2, 3);
  }

  /** test_count: "lo" occurs once. */
  lemma CountPairExpectation()
    ensures Occurrences("Hello, World", "lo", 0) == 1
  {
    var s: seq<byte> := "Hello, World";
    NoMatchBetween(s, "lo", 0, 2);
    assert !MatchAt(s, "lo", 2) by { assert s[2..4][1] != 'o'; }
    LeftmostIsFound(s, "lo", 0, 12, 3);
    NoMatchBetween(s, "lo", 5, 10);
    assert !MatchAt(s, "lo", 10) by { assert s[10..12][1] != 'o'; }
    NothingIsFound(s, "lo", 5, 12);
    assert Occurrences(s, "lo", 5) == 0;
    OccurrencesStep(s, "lo", 0, 3, 5);
  }

  /** test_equals, test_starts_with and test_ends_with. */
  lemma CompareExpectation()
    ensures Equals("Hello, World", "Hello, World")
    ensures StartsWith("Hello, World", "Hello") && !StartsWith("Hello, World", "World")
    ensures EndsWith("Hello, World", "World") && !EndsWith("Hello, World", "Hello")
  {
    var s: seq<byte> := "Hello, World";
    assert s[..5] == "Hello";
    assert s[7..] == "World";
    assert s[..5] != "World" by { assert s[0] != 'W'; }
    assert s[7..] != "Hello" by { assert s[7] != 'H'; }
  }

  /** test_reverse. */
  lemma ReverseExpectation()
    ensures Reversed("Hello, World!") == "!dlroW ,olleH"
  {
    var s: seq<byte> := "Hello, World!";
    ReversedElements(s);
  }

  /** test_slice: the one-argument descriptor (0, 4, 1) cuts "foo " from "foo bar". */
  lemma SliceExpectation()
    ensures Init([4]) == Ok(StringIndex(0, 4, 1))
    ensures Normalize(StringIndex(0, 4, 1), 7) == Ok(StringIndex(0, 4, 1))
    ensures SliceOf("foo bar", StringIndex(0, 4, 1)) == "foo "
  {
    var s: seq<byte> := "foo bar";
    UnitSliceIsSubsequence(s, 0, 4);
  }

  /** test_repeat: five copies, and none for a negative count. */
  lemma RepeatExpectation()
    ensures Repeated("foo ", 5) == "foo foo foo foo foo "
    ensures Repeated("foo ", -1) == []
  {
  }

  /** test_join, on the bytes. */
  lemma JoinExpectation()
    ensures Join(["Foo", "Bar", "Spam", "Egg"], "-") == "Foo-Bar-Spam-Egg"
  {
  }

  /** test_join, through the iterator: the four strings appended in turn and joined
      with "-". */
  method JoinStringsExpectation() returns (r: Str)
    ensures r.Valid() && r.Contents() == "Foo-Bar-Spam-Egg"
  {
    var it := FromSeq(["Foo", "Bar", "Spam", "Egg"]);
    var delimiter := new Str.From("-");
    r := JoinStrings(it, delimiter);
    JoinExpectation();
  }

  /** test_copy: the copy of "Hello, World" holds the same bytes. */
  method CopyExpectation() returns (copy: Str)
    ensures copy.Valid() && copy.Contents() == "Hello, World"
  {
    var str := new Str.From("Hello, World");
    copy := str.Copy();
  }

  /** test_concatenate: "Hello, " concatenated with "World" holds "Hello, World". */
  method ConcatenateExpectation() returns (concat: Str)
    ensures concat.Valid() && concat.Contents() == "Hello, World"
  {
    var str1 := new Str.From("Hello, ");
    var str2 := new Str.From("World");
    concat := str1.Concatenate(str2);
  }

  /** test_concatenate_inplace: "Hello, " extended in place by "World" holds
      "Hello, World", and "World" is unchanged. */
  method ConcatenateInplaceExpectation() returns (extended: Str, appended: Str)
    ensures extended.Valid() && extended.Contents() == "Hello, World"
    ensures appended.Valid() && appended.Contents() == "World"
  {
    extended := new Str.From("Hello, ");
    appended := new Str.From("World");
    extended.ConcatenateInplace(appended);
  }

  /** The one ", " in main.c's "Hello, World!" is at 5. */
  lemma CommaSpaceFound()
    ensures FindFrom("Hello, World!", ", ", 0, 13) == Some(5)
    ensures FindFrom("Hello, World!", ", ", 7, 13) == None
  {
    var s: seq<byte> := "Hello, World!";
    NoMatchBetween(s, ", ", 0, 5);
    LeftmostIsFound(s, ", ", 0, 13, 5);
    NoMatchBetween(s, ", ", 7, 12);
    NothingIsFound(s, ", ", 7, 13);
  }

  /** The ", " split of main.c. */
  lemma SplitExpectation(s: seq<byte>)
    requires s == "Hello, World!"
    ensures SplitLimitSpec(s, ", ", -1) == Ok(["Hello", "World!"])
  {
    CommaSpaceFound();
    SplitUnfold(s, ", ", 0, 13, 5);
    assert SplitFrom(s, ", ", 7, 12) == [s[7..]];
    assert s[0..5] == "Hello" && s[7..] == "World!";
    var pieces: seq<seq<byte>> := ["Hello", "World!"];
    assert SplitFrom(s, ", ", 0, 13) == [s[0..5]] + [s[7..]] == pieces;
  }

  /** test_to_upper, test_to_lower and test_swap_case. */
  lemma CaseExpectation()
    ensures Upper("Foo Bar") == "FOO BAR"
    ensures Lower("Foo Bar") == "foo bar"
    ensures Swapped("Foo Bar") == "fOO bAR"
  {
    var s: seq<byte> := "Foo Bar";
    var u: seq<byte> := "FOO BAR";
    var l: seq<byte> := "foo bar";
    var w: seq<byte> := "fOO bAR";
    forall k | 0 <= k < 7 ensures Upper(s)[k] == u[k] && Lower(s)[k] == l[k] && Swapped(s)[k] == w[k] {
      assert Upper(s)[k] == ToUpper(s[k]) && Lower(s)[k] == ToLower(s[k]) && Swapped(s)[k] == SwapCase(s[k]);
    }
  }

  /** test_to_title and test_to_capital; the title test passes on the code as written
      as well, since its input does not start with whitespace. */
  lemma TitleExpectation()
    ensures Title("foo bar") == "Foo Bar" && TitleAsWritten("foo bar") == "Foo Bar"
    ensures Capital("foo bar") == "Foo bar"
  {
    var s: seq<byte> := "foo bar";
    var t: seq<byte> := "Foo Bar";
    forall k | 0 <= k < 7 ensures Title(s)[k] == t[k] && TitleAsWritten(s)[k] == t[k] {
      assert Title(s)[k] == if WordStart(s, k) then ToUpper(s[k]) else s[k];
      assert TitleAsWritten(s)[k] == if k == 0 || (k >= 2 && IsWhitespace(s[k - 1])) then ToUpper(s[k]) else s[k];
    }
    assert ToUpper(s[0]) == 'F';
  }

  /** test_is_alphanumeric: a space is neither a letter nor a digit. */
  lemma AlphanumericExpectation(a: seq<byte>, b: seq<byte>)
    requires a == "Hello 123" && b == "Hello123"
    ensures !IsAlphanumericString(a) && IsAlphanumericString(b)
  {
    assert !IsAlphanumeric(a[5]);
    AllByMembership(b, IsAlphanumeric);
  }

  /** test_is_uppercase: punctuation and spaces do not count against it. */
  lemma UppercaseExpectation(a: seq<byte>, b: seq<byte>)
    requires a == "HELLO, WORLD" && b == "Hello, World"
    ensures IsUppercaseString(a) && !IsUppercaseString(b)
  {
    AllByMembership(a, IsUppercase);
    assert 'a' <= b[1] <= 'z';
  }

  /** test_is_lowercase: punctuation and spaces do not count against it. */
  lemma LowercaseExpectation(a: seq<byte>, b: seq<byte>)
    requires a == "hello, world" && b == "Hello, World"
    ensures IsLowercaseString(a) && !IsLowercaseString(b)
  {
    AllByMembership(a, IsLowercase);
    assert 'A' <= b[0] <= 'Z';
  }

  /** test_is_numeric and test_is_decimal: "1024" is an integer and a real literal,
      "512.25" only a real one, "foo" neither. */
  lemma NumberExpectation(i: seq<byte>, r: seq<byte>, f: seq<byte>)
    requires i == "1024" && r == "512.25" && f == "foo"
    ensures IsIntString(i) && !IsIntString(r) && !IsIntString(f)
    ensures IsRealString(r) && IsRealString(i) && !IsRealString(f)
  {
    AllByMembership(i, IsDigit);
    PredicateRelations(i);
    assert r[3] == '.';
    assert RealFrom(r, 4, true) by {
      assert RealFrom(r, 6, true) && RealFrom(r, 5, true);
    }
    assert RealFrom(r, 0, false) by {
      assert RealFrom(r, 3, false) && RealFrom(r, 2, false) && RealFrom(r, 1, false);
    }
    assert f[0] == 'f';
  }

  /** test_is_whitespace. */
  lemma WhitespaceExpectation(a: seq<byte>, b: seq<byte>)
    requires a == " " && b == "Hello, World"
    ensures IsWhitespaceString(a) && !IsWhitespaceString(b)
  {
    AllByMembership(a, IsWhitespace);
    assert b[0] == 'H';
  }

  /** test_trim_whitespace. */
  lemma TrimExpectation()
    ensures Trimmed(" Foo Bar  ") == "Foo Bar"
  {
    var s: seq<byte> := " Foo Bar  ";
    assert SkipWhitespaceBack(s, 10) == 8;
    var right := s[..8];
    assert SkipWhitespace(right, 0) == 1;
  }

  /** test_centre, test_left_justify and test_right_justify. */
  lemma JustifyExpectation()
    ensures Centred("Foo Bar", 10) == " Foo Bar  "
    ensures LeftJustified("Foo Bar", 10) == "Foo Bar   "
    ensures RightJustified("Foo Bar", 10) == "   Foo Bar"
  {
    assert Spaces(1) == " ";
    assert Spaces(2) == "  ";
    assert Spaces(3) == "   ";
  }
}
