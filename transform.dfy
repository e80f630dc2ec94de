/** The case transforms, the byte-class predicates, trimming and padding: the
    operations that build a new buffer from a copy, a slice or a concatenation of
    space-filled buffers. */
module Transform {
  import opened Chars
  import opened Errors
  import opened Slices
  import opened Buffer

  /** `f` applied to every byte of `s`. */
  function Mapped(s: seq<byte>, f: byte -> byte): (r: seq<byte>)
    ensures |r| == |s|
  {
    seq(|s|, i requires 0 <= i < |s| => f(s[i]))
  }

  /** String_to_upper on the bytes. */
  function Upper(s: seq<byte>): seq<byte> { Mapped(s, ToUpper) }

  /** String_to_lower on the bytes. */
  function Lower(s: seq<byte>): seq<byte> { Mapped(s, ToLower) }

  /** String_swap_case on the bytes. */
  function Swapped(s: seq<byte>): seq<byte> { Mapped(s, SwapCase) }

  /** The loop shared by String_to_upper, String_to_lower and String_swap_case: every
      byte of the (copied) buffer is rewritten in place. */
  method MapInPlace(r: Str, f: byte -> byte)
    requires r.Valid()
    modifies r.buffer
    ensures r.Valid() && r.Contents() == Mapped(old(r.Contents()), f)
  {
    ghost var s := r.Contents();
    var i := 0;
    while i < r.length
      invariant 0 <= i <= r.length && r.Valid()
      invariant forall k :: 0 <= k < i ==> r.buffer[k] == f(s[k])
      invariant forall k :: i <= k < r.length ==> r.buffer[k] == s[k]
    {
      r.buffer[i] := f(r.buffer[i]);
      i := i + 1;
    }
  }

  /** String_to_upper: a copy with every lower-case letter made upper-case. */
  method ToUpperString(self: Str) returns (r: Str)
    requires self.Valid()
    ensures fresh(r) && r.Valid() && r.Contents() == Upper(self.Contents())
  {
    r := self.Copy();
    MapInPlace(r, ToUpper);
  }

  /** String_to_lower: a copy with every upper-case letter made lower-case. */
  method ToLowerString(self: Str) returns (r: Str)
    requires self.Valid()
    ensures fresh(r) && r.Valid() && r.Contents() == Lower(self.Contents())
  {
    r := self.Copy();
    MapInPlace(r, ToLower);
  }

  /** String_swap_case: a copy with the case of every letter flipped. */
  method SwapCaseString(self: Str) returns (r: Str)
    requires self.Valid()
    ensures fresh(r) && r.Valid() && r.Contents() == Swapped(self.Contents())
  {
    r := self.Copy();
    MapInPlace(r, SwapCase);
  }

  /** Upper-casing keeps the length, leaves every non-letter alone, leaves no lower-case
      letter behind, and doing it twice is doing it once. */
  lemma UpperFacts(s: seq<byte>)
    ensures |Upper(s)| == |s|
    ensures forall i :: 0 <= i < |s| && !IsAlphabet(s[i]) ==> Upper(s)[i] == s[i]
    ensures forall i :: 0 <= i < |s| ==> !('a' <= Upper(s)[i] <= 'z')
    ensures Upper(Upper(s)) == Upper(s)
    ensures Lower(Upper(s)) == Lower(s)
  {
    forall k | 0 <= k < |s| ensures Upper(Upper(s))[k] == Upper(s)[k] && Lower(Upper(s))[k] == Lower(s)[k] {
      CaseConversions(s[k]);
    }
    forall k | 0 <= k < |s| ensures !('a' <= Upper(s)[k] <= 'z') && (!IsAlphabet(s[k]) ==> Upper(s)[k] == s[k]) {
      CaseConversions(s[k]);
    }
  }

  /** Lower-casing keeps the length, leaves every non-letter alone, leaves no upper-case
      letter behind, and doing it twice is doing it once. */
  lemma LowerFacts(s: seq<byte>)
    ensures |Lower(s)| == |s|
    ensures forall i :: 0 <= i < |s| && !IsAlphabet(s[i]) ==> Lower(s)[i] == s[i]
    ensures forall i :: 0 <= i < |s| ==> !('A' <= Lower(s)[i] <= 'Z')
    ensures Lower(Lower(s)) == Lower(s)
    ensures Upper(Lower(s)) == Upper(s)
  {
    forall k | 0 <= k < |s| ensures Lower(Lower(s))[k] == Lower(s)[k] && Upper(Lower(s))[k] == Upper(s)[k] {
      CaseConversions(s[k]);
    }
    forall k | 0 <= k < |s| ensures !('A' <= Lower(s)[k] <= 'Z') && (!IsAlphabet(s[k]) ==> Lower(s)[k] == s[k]) {
      CaseConversions(s[k]);
    }
  }

  /** Swapping the case changes every letter and nothing else, and swapping twice gives
      back the input. */
  lemma SwappedFacts(s: seq<byte>)
    ensures |Swapped(s)| == |s|
    ensures forall i :: 0 <= i < |s| ==> (Swapped(s)[i] == s[i] <==> !IsAlphabet(s[i]))
    ensures Swapped(Swapped(s)) == s
  {
    forall k | 0 <= k < |s| ensures Swapped(Swapped(s))[k] == s[k] && (Swapped(s)[k] == s[k] <==> !IsAlphabet(s[k])) {
      CaseConversions(s[k]);
    }
  }

  /** String_to_title as its documentation and comment describe it: byte 0 and every
      byte that follows a whitespace byte are upper-cased. */
  function Title(s: seq<byte>): (r: seq<byte>)
    ensures |r| == |s|
  {
    seq(|s|, k requires 0 <= k < |s| => if WordStart(s, k) then ToUpper(s[k]) else s[k])
  }

  /** Byte k opens a word: it is the first byte or follows a whitespace byte. */
  predicate WordStart(s: seq<byte>, k: int)
    requires 0 <= k < |s|
  {
    k == 0 || IsWhitespace(s[k - 1])
  }

  /** String_to_title as written: its loop looks for whitespace from index 1 on, so a
      byte that follows a whitespace byte at index 0 is left as it is. */
  function TitleAsWritten(s: seq<byte>): (r: seq<byte>)
    ensures |r| == |s|
  {
    seq(|s|, k requires 0 <= k < |s| =>
      if k == 0 || (k >= 2 && IsWhitespace(s[k - 1])) then ToUpper(s[k]) else s[k])
  }

  /** The two agree everywhere except on byte 1 after a leading whitespace byte: " foo"
      keeps its lower-case 'f' as written and becomes " Foo" as documented. */
  lemma TitleDiscrepancy()
    ensures TitleAsWritten(" foo") == " foo"
    ensures Title(" foo") == " Foo"
    ensures forall s: seq<byte> :: |s| >= 1 && !IsWhitespace(s[0]) ==> TitleAsWritten(s) == Title(s)
  {
    assert Title(" foo")[1] == 'F';
  }

  /** Byte k of the title-cased string. */
  lemma TitleAt(s: seq<byte>, k: int)
    requires 0 <= k < |s|
    ensures Title(s)[k] == if WordStart(s, k) then ToUpper(s[k]) else s[k]
    ensures IsWhitespace(Title(s)[k]) == IsWhitespace(s[k])
    ensures WordStart(Title(s), k) == WordStart(s, k)
  {
    CaseKeepsWhitespace(s[k]);
    if k > 0 {
      CaseKeepsWhitespace(s[k - 1]);
    }
  }

  /** Title case never turns a byte into or out of whitespace, changes only the bytes
      at the start of a word, leaves none of those lower-case, and is idempotent. */
  lemma TitleFacts(s: seq<byte>)
    ensures forall k :: 0 <= k < |s| ==> (IsWhitespace(Title(s)[k]) <==> IsWhitespace(s[k]))
    ensures forall k :: 0 < k < |s| && !IsWhitespace(s[k - 1]) ==> Title(s)[k] == s[k]
    ensures forall k :: 0 <= k < |s| && (k == 0 || IsWhitespace(s[k - 1])) ==> !('a' <= Title(s)[k] <= 'z')
    ensures Title(Title(s)) == Title(s)
  {
    var t := Title(s);
    forall k | 0 <= k < |s|
      ensures IsWhitespace(t[k]) <==> IsWhitespace(s[k])
      ensures k > 0 && !IsWhitespace(s[k - 1]) ==> t[k] == s[k]
      ensures (k == 0 || IsWhitespace(s[k - 1])) ==> !('a' <= t[k] <= 'z')
      ensures Title(t)[k] == t[k]
    {
      TitleAt(s, k);
      TitleAt(t, k);
      if WordStart(s, k) {
        CaseConversions(s[k]);
      }
    }
  }

  /** The loop of String_to_title, with its scan starting at index 0: upper-case byte
      0, then for each whitespace byte before the last, upper-case the byte after it. */
  method TitleInPlace(r: Str)
    requires r.Valid()
    modifies r.buffer
    ensures r.Valid() && r.Contents() == Title(old(r.Contents()))
  {
    ghost var s := r.Contents();
    if r.length == 0 {
      return;
    }
    r.buffer[0] := ToUpper(r.buffer[0]);
    var i := 0;
    while i < r.length - 1
      invariant 0 <= i < r.length == |s| && r.Valid()
      invariant forall k :: 0 <= k <= i ==> r.buffer[k] == if WordStart(s, k) then ToUpper(s[k]) else s[k]
      invariant forall k :: i < k < r.length ==> r.buffer[k] == s[k]
    {
      CaseKeepsWhitespace(s[i]);
      if IsWhitespace(r.buffer[i]) {
        r.buffer[i + 1] := ToUpper(r.buffer[i + 1]);
      }
      i := i + 1;
    }
  }

  /** String_to_title: a title-cased copy. */
  method ToTitleString(self: Str) returns (r: Str)
    requires self.Valid()
    ensures fresh(r) && r.Valid() && r.Contents() == Title(self.Contents())
  {
    r := self.Copy();
    TitleInPlace(r);
  }

  /** String_to_capital on the bytes: only byte 0 is upper-cased. */
  function Capital(s: seq<byte>): (r: seq<byte>)
    ensures |r| == |s|
  {
    if s == [] then [] else [ToUpper(s[0])] + s[1..]
  }

  /** Capitalising agrees with title case on byte 0, changes nothing after it, and is
      idempotent. */
  lemma CapitalFacts(s: seq<byte>)
    ensures |s| >= 1 ==> Capital(s)[0] == Title(s)[0] && Capital(s)[1..] == s[1..]
    ensures |s| >= 1 ==> !('a' <= Capital(s)[0] <= 'z')
    ensures Capital(Capital(s)) == Capital(s)
  {
  }

  /** String_to_capital: a copy with byte 0 upper-cased. */
  method ToCapitalString(self: Str) returns (r: Str)
    requires self.Valid()
    ensures fresh(r) && r.Valid() && r.Contents() == Capital(self.Contents())
  {
    r := self.Copy();
    if r.length == 0 {
      return;
    }
    r.buffer[0] := ToUpper(r.buffer[0]);
    assert r.Contents() == [ToUpper(self.Contents()[0])] + self.Contents()[1..];
  }

  /** The scan every String_is_* performs: true unless some byte from i on fails `p`. */
  function AllFrom(s: seq<byte>, p: byte -> bool, i: nat): (b: bool)
    requires i <= |s|
    ensures b <==> forall k :: i <= k < |s| ==> p(s[k])
    decreases |s| - i
  {
    if i == |s| then true
    else if !p(s[i]) then false
    else AllFrom(s, p, i + 1)
  }

  /** String_is_alphanumeric. */
  function IsAlphanumericString(s: seq<byte>): (b: bool)
    ensures b <==> forall k :: 0 <= k < |s| ==> IsAlphabet(s[k]) || IsDigit(s[k])
  {
    AllFrom(s, IsAlphanumeric, 0)
  }

  /** String_is_alphabetic. */
  function IsAlphabeticString(s: seq<byte>): (b: bool)
    ensures b <==> forall k :: 0 <= k < |s| ==> IsAlphabet(s[k])
  {
    AllFrom(s, IsAlphabet, 0)
  }

  /** String_is_uppercase: non-letters do not count against it. */
  function IsUppercaseString(s: seq<byte>): (b: bool)
    ensures b <==> forall k :: 0 <= k < |s| ==> !('a' <= s[k] <= 'z')
  {
    AllFrom(s, IsUppercase, 0)
  }

  /** String_is_lowercase: non-letters do not count against it. */
  function IsLowercaseString(s: seq<byte>): (b: bool)
    ensures b <==> forall k :: 0 <= k < |s| ==> !('A' <= s[k] <= 'Z')
  {
    AllFrom(s, IsLowercase, 0)
  }

  /** String_is_int (String_is_numeric in `string.c`): digits only. */
  function IsIntString(s: seq<byte>): (b: bool)
    ensures b <==> forall k :: 0 <= k < |s| ==> '0' <= s[k] <= '9'
  {
    AllFrom(s, IsDigit, 0)
  }

  /** String_is_whitespace: space, tab, newline and carriage return only. */
  function IsWhitespaceString(s: seq<byte>): (b: bool)
    ensures b <==> forall k :: 0 <= k < |s| ==> s[k] in {' ', '\t', '\n', '\r'}
  {
    AllFrom(s, IsWhitespace, 0)
  }

  /** The scan of String_is_real from i on, `dotSeen` telling whether a '.' came before. */
  function RealFrom(s: seq<byte>, i: nat, dotSeen: bool): (b: bool)
    requires i <= |s|
    ensures b <==>
      (forall k :: i <= k < |s| ==> s[k] == '.' || IsDigit(s[k])) &&
      (forall j, k :: i <= j < k < |s| && s[j] == '.' ==> s[k] != '.') &&
      (dotSeen ==> forall k :: i <= k < |s| ==> s[k] != '.')
    decreases |s| - i
  {
    if i == |s| then true
    else if s[i] == '.' then
      if dotSeen then false else RealFrom(s, i + 1, true)
    else if !IsDigit(s[i]) then false
    else RealFrom(s, i + 1, dotSeen)
  }

  /** String_is_real (String_is_decimal in `string.c`): digits with at most one '.'. */
  function IsRealString(s: seq<byte>): (b: bool)
    ensures b <==>
      (forall k :: 0 <= k < |s| ==> s[k] == '.' || '0' <= s[k] <= '9') &&
      (forall j, k :: 0 <= j < k < |s| && s[j] == '.' ==> s[k] != '.')
  {
    RealFrom(s, 0, false)
  }

  /** How the predicates relate: all of them accept the empty string; every integer
      literal is a real literal and is alphanumeric; every alphabetic string is
      alphanumeric; and the case transforms produce strings the case predicates
      accept. */
  lemma PredicateRelations(s: seq<byte>)
    ensures IsAlphanumericString([]) && IsAlphabeticString([]) && IsUppercaseString([]) &&
      IsLowercaseString([]) && IsIntString([]) && IsRealString([]) && IsWhitespaceString([])
    ensures IsIntString(s) ==> IsRealString(s) && IsAlphanumericString(s)
    ensures IsAlphabeticString(s) ==> IsAlphanumericString(s)
    ensures IsUppercaseString(Upper(s)) && IsLowercaseString(Lower(s))
    ensures IsUppercaseString(s) && IsLowercaseString(s) <==> !exists k :: 0 <= k < |s| && IsAlphabet(s[k])
  {
    UpperFacts(s);
    LowerFacts(s);
  }

  /** The first index from i on that holds no whitespace, or |s|. */
  function SkipWhitespace(s: seq<byte>, i: nat): (j: nat)
    requires i <= |s|
    ensures i <= j <= |s|
    ensures forall k :: i <= k < j ==> IsWhitespace(s[k])
    ensures j < |s| ==> !IsWhitespace(s[j])
    decreases |s| - i
  {
    if i == |s| || !IsWhitespace(s[i]) then i else SkipWhitespace(s, i + 1)
  }

  /** The end of s[..j] once its trailing whitespace is dropped, or 0. */
  function SkipWhitespaceBack(s: seq<byte>, j: nat): (i: nat)
    requires j <= |s|
    ensures i <= j
    ensures forall k :: i <= k < j ==> IsWhitespace(s[k])
    ensures i > 0 ==> !IsWhitespace(s[i - 1])
  {
    if j == 0 || !IsWhitespace(s[j - 1]) then j else SkipWhitespaceBack(s, j - 1)
  }

  /** String_trim_left on the bytes: from the first non-whitespace byte on; a string of
      whitespace only comes back unchanged. */
  function TrimmedLeft(s: seq<byte>): seq<byte>
  {
    var j := SkipWhitespace(s, 0);
    if j == |s| then s else s[j..]
  }

  /** String_trim_right on the bytes: up to the last non-whitespace byte; a string of
      whitespace only comes back unchanged. */
  function TrimmedRight(s: seq<byte>): seq<byte>
  {
    var i := SkipWhitespaceBack(s, |s|);
    if i == 0 then s else s[..i]
  }

  /** String_trim_whitespace on the bytes. */
  function Trimmed(s: seq<byte>): seq<byte>
  {
    TrimmedLeft(TrimmedRight(s))
  }

  /** Left trimming drops exactly the leading whitespace run, unless that run is all of
      the string, and trimming again changes nothing. */
  lemma TrimmedLeftFacts(s: seq<byte>)
    ensures IsWhitespaceString(s) ==> TrimmedLeft(s) == s
    ensures !IsWhitespaceString(s) ==>
      var r := TrimmedLeft(s);
      |r| >= 1 && !IsWhitespace(r[0]) && s == s[..|s| - |r|] + r &&
      forall k :: 0 <= k < |s| - |r| ==> IsWhitespace(s[k])
    ensures TrimmedLeft(TrimmedLeft(s)) == TrimmedLeft(s)
  {
    var j := SkipWhitespace(s, 0);
    if j < |s| {
      assert s == s[..j] + s[j..];
      var r := s[j..];
      assert SkipWhitespace(r, 0) == 0;
    }
  }

  /** Right trimming drops exactly the trailing whitespace run, unless that run is all
      of the string, and trimming again changes nothing. */
  lemma TrimmedRightFacts(s: seq<byte>)
    ensures IsWhitespaceString(s) ==> TrimmedRight(s) == s
    ensures !IsWhitespaceString(s) ==>
      var r := TrimmedRight(s);
      |r| >= 1 && !IsWhitespace(r[|r| - 1]) && s == r + s[|r|..] &&
      forall k :: |r| <= k < |s| ==> IsWhitespace(s[k])
    ensures TrimmedRight(TrimmedRight(s)) == TrimmedRight(s)
  {
    var i := SkipWhitespaceBack(s, |s|);
    if i > 0 {
      assert s == s[..i] + s[i..];
      var r := s[..i];
      assert SkipWhitespaceBack(r, |r|) == |r|;
    }
  }

  /** Trimming both sides of a string with some non-whitespace byte leaves a core that
      starts and ends with such a byte, with only whitespace cut on either side. */
  lemma TrimmedFacts(s: seq<byte>)
    ensures IsWhitespaceString(s) ==> Trimmed(s) == s
    ensures !IsWhitespaceString(s) ==>
      exists a, b :: 0 <= a <= b <= |s| && Trimmed(s) == s[a..b] && a < b &&
        !IsWhitespace(s[a]) && !IsWhitespace(s[b - 1]) &&
        (forall k :: 0 <= k < a ==> IsWhitespace(s[k])) &&
        (forall k :: b <= k < |s| ==> IsWhitespace(s[k]))
  {
    TrimmedRightFacts(s);
    if !IsWhitespaceString(s) {
      var b := SkipWhitespaceBack(s, |s|);
      var right := s[..b];
      assert TrimmedRight(s) == right;
      assert !IsWhitespaceString(right) by {
        assert !IsWhitespace(right[b - 1]);
      }
      TrimmedLeftFacts(right);
      var a := SkipWhitespace(right, 0);
      assert Trimmed(s) == s[a..b];
    }
  }

  /** String_trim_left: scan for the first non-whitespace byte and slice from it to the
      end; with none found, a copy. */
  method TrimLeft(self: Str) returns (r: Str)
    requires self.Valid()
    ensures fresh(r) && r.Valid() && r.Contents() == TrimmedLeft(self.Contents())
  {
    ghost var s := self.Contents();
    var i := 0;
    while i < self.length
      invariant 0 <= i <= self.length
      invariant forall k :: 0 <= k < i ==> IsWhitespace(s[k])
    {
      if !IsWhitespace(self.buffer[i]) {
        assert SkipWhitespace(s, 0) == i;
        var ix := Init([i, self.length]);
        UnitSliceIsSubsequence(s, i, self.length);
        var sliced := self.Slice(ix.value);
        assert s[i..self.length] == s[i..];
        return sliced.value;
      }
      i := i + 1;
    }
    assert SkipWhitespace(s, 0) == |s|;
    r := self.Copy();
  }

  /** String_trim_right: scan backwards for the last non-whitespace byte and slice up to
      it (the one-argument descriptor); with none found, a copy. */
  method TrimRight(self: Str) returns (r: Str)
    requires self.Valid()
    ensures fresh(r) && r.Valid() && r.Contents() == TrimmedRight(self.Contents())
  {
    ghost var s := self.Contents();
    var i := self.length - 1;
    while i >= 0
      invariant -1 <= i < self.length
      invariant forall k :: i < k < self.length ==> IsWhitespace(s[k])
    {
      if !IsWhitespace(self.buffer[i]) {
        assert SkipWhitespaceBack(s, |s|) == i + 1;
        var ix := Init([i + 1]);
        UnitSliceIsSubsequence(s, 0, i + 1);
        var sliced := self.Slice(ix.value);
        assert s[0..i + 1] == s[..i + 1];
        return sliced.value;
      }
      i := i - 1;
    }
    assert SkipWhitespaceBack(s, |s|) == 0;
    r := self.Copy();
  }

  /** String_trim_whitespace: right trim, then left trim. */
  method TrimWhitespace(self: Str) returns (r: Str)
    requires self.Valid()
    ensures fresh(r) && r.Valid() && r.Contents() == Trimmed(self.Contents())
  {
    var right := TrimRight(self);
    r := TrimLeft(right);
  }

  /** `n` spaces, as String_repeat(String_from(" "), n) builds them (none for n < 0). */
  function Spaces(n: int): seq<byte>
  {
    Repeated(" ", n)
  }

  lemma {:induction false} SpacesFacts(n: int)
    ensures |Spaces(n)| == if n < 0 then 0 else n
    ensures forall k :: 0 <= k < |Spaces(n)| ==> Spaces(n)[k] == ' '
    decreases n
  {
    if n > 0 {
      SpacesFacts(n - 1);
    }
  }

  /** String_pad on the bytes. */
  function Padded(s: seq<byte>, leftPad: int, rightPad: int): seq<byte>
  {
    Spaces(leftPad) + s + Spaces(rightPad)
  }

  /** String_pad: spaces, then the string, then spaces. */
  method Pad(self: Str, leftPad: int, rightPad: int) returns (r: Str)
    requires self.Valid()
    ensures fresh(r) && r.Valid() && r.Contents() == Padded(self.Contents(), leftPad, rightPad)
  {
    var space := new Str.From(" ");
    var left := space.Repeat(leftPad);
    var leftPadded := left.Concatenate(self);
    var space' := new Str.From(" ");
    var right := space'.Repeat(rightPad);
    r := leftPadded.Concatenate(right);
  }

  /** String_centre on the bytes: a string at least `width` long is kept; otherwise the
      margin is split with its smaller half on the left. */
  function Centred(s: seq<byte>, width: int): seq<byte>
  {
    if |s| >= width then s
    else
      var margin := width - |s|;
      Padded(s, margin / 2, margin - margin / 2)
  }

  /** A centred string is `width` long (or the input when that is longer), holds the
      input at offset margin / 2 and spaces elsewhere, with the two margins differing
      by at most one. */
  lemma CentredFacts(s: seq<byte>, width: int)
    ensures |s| >= width ==> Centred(s, width) == s
    ensures |s| < width ==>
      var r := Centred(s, width);
      var left := (width - |s|) / 2;
      |r| == width && r[left..left + |s|] == s &&
      (forall k :: 0 <= k < left ==> r[k] == ' ') &&
      (forall k :: left + |s| <= k < width ==> r[k] == ' ') &&
      left <= width - |s| - left <= left + 1
  {
    if |s| < width {
      var margin := width - |s|;
      var left := margin / 2;
      SpacesFacts(left);
      SpacesFacts(margin - left);
      var r := Centred(s, width);
      assert r == Spaces(left) + s + Spaces(margin - left);
      assert r[left..left + |s|] == s;
    }
  }

  /** String_centre. */
  method Centre(self: Str, width: int) returns (r: Str)
    requires self.Valid()
    ensures fresh(r) && r.Valid() && r.Contents() == Centred(self.Contents(), width)
  {
    if self.length >= width {
      r := self.Copy();
      return;
    }
    var margin := width - self.length;
    var leftPad := margin / 2;
    r := Pad(self, leftPad, margin - leftPad);
  }

  /** String_left_justify on the bytes: spaces appended up to `width`. */
  function LeftJustified(s: seq<byte>, width: int): seq<byte>
  {
    var fill := width - |s|;
    if fill < 0 then s else s + Spaces(fill)
  }

  /** String_right_justify on the bytes: spaces prepended up to `width`. */
  function RightJustified(s: seq<byte>, width: int): seq<byte>
  {
    var fill := width - |s|;
    if fill < 0 then s else Spaces(fill) + s
  }

  /** Justifying keeps a string longer than `width` as it is; otherwise the result is
      `width` long, the input is its prefix (left) or suffix (right), and the rest is
      spaces. */
  lemma JustifiedFacts(s: seq<byte>, width: int)
    ensures |s| > width ==> LeftJustified(s, width) == s && RightJustified(s, width) == s
    ensures |s| <= width ==>
      var l := LeftJustified(s, width);
      |l| == width && l[..|s|] == s && forall k :: |s| <= k < width ==> l[k] == ' '
    ensures |s| <= width ==>
      var r := RightJustified(s, width);
      |r| == width && r[width - |s|..] == s && forall k :: 0 <= k < width - |s| ==> r[k] == ' '
  {
    SpacesFacts(width - |s|);
    if |s| <= width {
      assert LeftJustified(s, width)[..|s|] == s;
      assert RightJustified(s, width)[width - |s|..] == s;
    }
  }

  /** String_left_justify. */
  method LeftJustify(self: Str, width: int) returns (r: Str)
    requires self.Valid()
    ensures fresh(r) && r.Valid() && r.Contents() == LeftJustified(self.Contents(), width)
  {
    var fill := width - self.length;
    if fill < 0 {
      r := self.Copy();
      return;
    }
    var space := new Str.From(" ");
    var spaces := space.Repeat(fill);
    r := self.Concatenate(spaces);
  }

  /** String_right_justify. */
  method RightJustify(self: Str, width: int) returns (r: Str)
    requires self.Valid()
    ensures fresh(r) && r.Valid() && r.Contents() == RightJustified(self.Contents(), width)
  {
    var fill := width - self.length;
    if fill < 0 {
      r := self.Copy();
      return;
    }
    var space := new Str.From(" ");
    var spaces := space.Repeat(fill);
    r := spaces.Concatenate(self);
  }
}
