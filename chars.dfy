/** The error results and optional values used throughout the model. */
module Errors {
  /** The abort reasons of the C library, surfaced as values instead of `exit`. */
  datatype Error =
    | IndexOutOfRange       // a resolved index falls outside the buffer
    | InvalidStep           // a slice descriptor with step 0
    | InvalidLimit          // a split limit below -1
    | UnsupportedStep       // a windowed search with a step other than 1
    | InvalidArgumentCount  // StringIndex built from a number of arguments other than 1, 2 or 3

  datatype Result<T> = Ok(value: T) | Err(error: Error)

  datatype Option<T> = None | Some(value: T)
}

/** Bytes and the ASCII character classes (the CHAR_IS_* and CHAR_TO_* macros). */
module Chars {
  /** One byte of a `StringT` buffer. The C code indexes its tables with these, so they
      are taken as the unsigned values 0..255. */
  type byte = c: char | c as int < 256 witness '\0'

  predicate IsWhitespace(c: byte) { c == ' ' || c == '\t' || c == '\n' || c == '\r' }

  predicate IsDigit(c: byte) { '0' <= c <= '9' }

  predicate IsAlphabet(c: byte) { 'a' <= c <= 'z' || 'A' <= c <= 'Z' }

  /** A lower-case letter or any byte that is not a letter at all. */
  predicate IsLowercase(c: byte) { 'a' <= c <= 'z' || !IsAlphabet(c) }

  /** An upper-case letter or any byte that is not a letter at all. */
  predicate IsUppercase(c: byte) { 'A' <= c <= 'Z' || !IsAlphabet(c) }

  predicate IsAlphanumeric(c: byte) { IsAlphabet(c) || IsDigit(c) }

  /** Bit 5 (value 0x20) of a byte: the bit that tells ASCII lower from upper case. */
  function CaseBit(c: byte): nat { (c as int / 32) % 2 }

  /** `c & ~0x20`: the byte with bit 5 cleared. */
  function ClearCaseBit(c: byte): byte { (c as int - 32 * CaseBit(c)) as char }

  /** `c | 0x20`: the byte with bit 5 set. */
  function SetCaseBit(c: byte): byte { (c as int + 32 * (1 - CaseBit(c))) as char }

  /** `c ^ 0x20`: the byte with bit 5 flipped. */
  function FlipCaseBit(c: byte): byte { if CaseBit(c) == 1 then ClearCaseBit(c) else SetCaseBit(c) }

  /** Bit 5 is set in every lower-case letter and clear in every upper-case one. */
  lemma CaseBits(c: byte)
    ensures 'a' <= c <= 'z' ==> CaseBit(c) == 1
    ensures 'A' <= c <= 'Z' ==> CaseBit(c) == 0
  {
  }

  /** CHAR_TO_UPPERCASE: clears bit 0x20 of a letter. */
  function ToUpper(c: byte): (r: byte)
    ensures 'a' <= c <= 'z' ==> r as int == c as int - 32
    ensures !('a' <= c <= 'z') ==> r == c
  {
    if IsAlphabet(c) then
      CaseBits(c);
      ClearCaseBit(c)
    else c
  }

  /** CHAR_TO_LOWERCASE: sets bit 0x20 of a letter. */
  function ToLower(c: byte): (r: byte)
    ensures 'A' <= c <= 'Z' ==> r as int == c as int + 32
    ensures !('A' <= c <= 'Z') ==> r == c
  {
    if IsAlphabet(c) then
      CaseBits(c);
      SetCaseBit(c)
    else c
  }

  /** CHAR_SWAP_CASE: flips bit 0x20 of a letter. */
  function SwapCase(c: byte): (r: byte)
    ensures 'a' <= c <= 'z' ==> r as int == c as int - 32
    ensures 'A' <= c <= 'Z' ==> r as int == c as int + 32
    ensures !IsAlphabet(c) ==> r == c
  {
    if IsAlphabet(c) then
      CaseBits(c);
      FlipCaseBit(c)
    else c
  }

  /** A letter stays a letter under every conversion and a non-letter stays what it
      is; upper-casing leaves no lower-case letter, lower-casing no upper-case one;
      converting twice is converting once; swapping twice gives the byte back. */
  lemma CaseConversions(c: byte)
    ensures IsAlphabet(ToUpper(c)) == IsAlphabet(c) && IsAlphabet(ToLower(c)) == IsAlphabet(c)
    ensures !('a' <= ToUpper(c) <= 'z') && !('A' <= ToLower(c) <= 'Z')
    ensures ToUpper(ToUpper(c)) == ToUpper(c) && ToLower(ToLower(c)) == ToLower(c)
    ensures ToLower(ToUpper(c)) == ToLower(c) && ToUpper(ToLower(c)) == ToUpper(c)
    ensures SwapCase(SwapCase(c)) == c
    ensures SwapCase(c) == c <==> !IsAlphabet(c)
  {
  }

  /** The case conversions never turn a byte into or out of whitespace. */
  lemma CaseKeepsWhitespace(c: byte)
    ensures IsWhitespace(ToUpper(c)) == IsWhitespace(c)
    ensures IsWhitespace(ToLower(c)) == IsWhitespace(c)
    ensures IsWhitespace(SwapCase(c)) == IsWhitespace(c)
  {
  }
}
