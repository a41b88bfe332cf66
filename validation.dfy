/**
 * Input validation of the parity demonstrator: the binary-string validator
 * (`validate_binary_input`) and the inclusive range test used when a menu
 * choice is read (`validate_integer_input`).
 */
module Validation {

  /** Shortest and longest accepted bit strings. */
  const MinBits: nat := 4
  const MaxBits: nat := 32

  /** The verdict of the binary validator, one constructor per error kind. */
  datatype Outcome = Valid | Empty | BadChar(c: char) | TooShort | TooLong

  /** The verdict of the integer validator on one line of input. */
  datatype IntOutcome = IntEmpty | NotAnInteger | OutOfRange | Accepted(value: int)

  datatype Option<T> = None | Some(value: T)

  /**
   * The characters Python 3 treats as whitespace (`str.isspace`), which are
   * the ones `str.strip()` removes when called without an argument.
   */
  predicate IsWhitespace(c: char) {
    var n := c as int;
    || (0x09 <= n <= 0x0D)
    || (0x1C <= n <= 0x20)
    || n == 0x85 || n == 0xA0 || n == 0x1680
    || (0x2000 <= n <= 0x200A)
    || n == 0x2028 || n == 0x2029 || n == 0x202F || n == 0x205F || n == 0x3000
  }

  /** Every character of `s` in the index range `[lo, hi)` is whitespace. */
  predicate BlankBetween(s: string, lo: int, hi: int)
    requires 0 <= lo && hi <= |s|
  {
    forall i :: lo <= i < hi ==> IsWhitespace(s[i])
  }

  predicate AllWhitespace(s: string) {
    BlankBetween(s, 0, |s|)
  }

  /** Skips whitespace from index `i` on: the index of the first non-blank at or after `i`, or `|s|`. */
  function SkipLeading(s: string, i: nat): (k: nat)
    requires i <= |s|
    ensures i <= k <= |s| && BlankBetween(s, i, k)
    ensures k == |s| || !IsWhitespace(s[k])
    decreases |s| - i
  {
    if i < |s| && IsWhitespace(s[i]) then SkipLeading(s, i + 1) else i
  }

  /** Skips whitespace backwards from index `j` down to `lo`: the end of the last non-blank, or `lo`. */
  function SkipTrailing(s: string, lo: nat, j: nat): (e: nat)
    requires lo <= j <= |s|
    ensures lo <= e <= j && BlankBetween(s, e, j)
    ensures e == lo || !IsWhitespace(s[e - 1])
  {
    if lo < j && IsWhitespace(s[j - 1]) then SkipTrailing(s, lo, j - 1) else j
  }

  /**
   * Python's `str.strip()`: `s` is `lead + r + trail` with `lead` and
   * `trail` blank and `r` neither starting nor ending with whitespace.
   */
  function Strip(s: string): (r: string)
    ensures |r| <= |s|
    ensures r == [] || (!IsWhitespace(r[0]) && !IsWhitespace(r[|r| - 1]))
    ensures exists k :: 0 <= k <= |s| - |r| && BlankBetween(s, 0, k) && r == s[k..k + |r|] && BlankBetween(s, k + |r|, |s|)
  {
    var k := SkipLeading(s, 0);
    var e := SkipTrailing(s, k, |s|);
    assert e == k || !IsWhitespace(s[k]);
    s[k..e]
  }

  /** The stripped string is empty exactly when the input is empty or blank. */
  lemma StripEmptyIffBlank(s: string)
    ensures Strip(s) == [] <==> AllWhitespace(s)
  {
  }

  /** Stripping twice is the same as stripping once. */
  lemma StripIdempotent(s: string)
    ensures Strip(Strip(s)) == Strip(s)
  {
  }

  predicate IsBit(c: char) {
    c == '0' || c == '1'
  }

  predicate IsBinary(s: string) {
    forall i :: 0 <= i < |s| ==> IsBit(s[i])
  }

  /** `s[i]` is the first character of `s` that is not a bit. */
  predicate IsFirstBadChar(s: string, i: int) {
    0 <= i < |s| && !IsBit(s[i]) && IsBinary(s[..i])
  }

  /** A string the validator accepts once stripped. */
  predicate IsBitString(s: string) {
    IsBinary(s) && MinBits <= |s| <= MaxBits
  }

  /**
   * `validate_binary_input`: empty or blank input first, then the first
   * character of the stripped string that is not a bit, then too short,
   * then too long; otherwise valid.
   */
  method ValidateBinaryInput(data: string) returns (r: Outcome)
    ensures r == Empty <==> AllWhitespace(data)
    ensures r.BadChar? <==> !AllWhitespace(data) && !IsBinary(Strip(data))
    ensures r.BadChar? ==> exists i :: IsFirstBadChar(Strip(data), i) && Strip(data)[i] == r.c
    ensures r == TooShort <==> !AllWhitespace(data) && IsBinary(Strip(data)) && |Strip(data)| < MinBits
    ensures r == TooLong <==> IsBinary(Strip(data)) && |Strip(data)| > MaxBits
    ensures r == Valid <==> IsBitString(Strip(data))
  {
    StripEmptyIffBlank(data);
    if |data| == 0 || Strip(data) == "" {
      return Empty;
    }
    var t := Strip(data);
    var i := 0;
    while i < |t|
      invariant 0 <= i <= |t|
      invariant IsBinary(t[..i])
    {
      if !IsBit(t[i]) {
        assert IsFirstBadChar(t, i);
        return BadChar(t[i]);
      }
      assert t[..i + 1] == t[..i] + [t[i]];
      i := i + 1;
    }
    assert t[..i] == t;
    if |t| < MinBits {
      return TooShort;
    }
    if |t| > MaxBits {
      return TooLong;
    }
    return Valid;
  }

  /** The inclusive range test of `validate_integer_input`. */
  predicate InRange(v: int, lo: int, hi: int)
    ensures InRange(v, lo, hi) <==> lo <= v <= hi
  {
    !(v < lo || v > hi)
  }

  /**
   * One pass of `validate_integer_input` on the line `raw`; `parsed` is what
   * `int()` made of the stripped line (`None` when it raised `ValueError`).
   */
  function CheckIntegerInput(raw: string, parsed: Option<int>, lo: int, hi: int): (r: IntOutcome)
    ensures r == IntEmpty <==> AllWhitespace(raw)
    ensures r == NotAnInteger <==> !AllWhitespace(raw) && parsed.None?
    ensures r == OutOfRange <==> !AllWhitespace(raw) && parsed.Some? && (parsed.value < lo || parsed.value > hi)
    ensures r.Accepted? <==> !AllWhitespace(raw) && parsed.Some? && lo <= parsed.value <= hi
    ensures r.Accepted? ==> r.value == parsed.value
  {
    StripEmptyIffBlank(raw);
    if |raw| == 0 || Strip(raw) == "" then IntEmpty
    else if parsed.None? then NotAnInteger
    else if !InRange(parsed.value, lo, hi) then OutOfRange
    else Accepted(parsed.value)
  }

  /**
   * The menu reads its choice with the range 1 to 5: on a non-blank line the
   * integer check accepts exactly the five choices the menu dispatches on.
   */
  lemma MenuChoiceRange(raw: string, v: int)
    requires !AllWhitespace(raw)
    ensures CheckIntegerInput(raw, Some(v), 1, 5).Accepted? <==> v in {1, 2, 3, 4, 5}
    ensures CheckIntegerInput(raw, Some(v), 1, 5).Accepted? ==> CheckIntegerInput(raw, Some(v), 1, 5).value == v
  {
  }
}
