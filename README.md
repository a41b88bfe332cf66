# Even/odd parity finder — verified model

This project models the computational core of a small parity-bit
demonstrator (`prac_cn_expanded.py`): the validator that decides whether a
line typed by the user is an acceptable bit string, the range test used for
menu choices, the even and odd parity generators with the details record
they return, and the transmitted frame `data + str(parity_bit)` that the
reports and charts show.

- `validation.dfy`, module `Validation`: Python's `str.strip()` (with the
  29 code points Python 3 treats as whitespace), the binary validator as a
  method with the source's scanning loop and early returns, its outcome as
  the datatype `Outcome = Valid | Empty | BadChar(c) | TooShort | TooLong`,
  and one pass of the integer validator as the function `CheckIntegerInput`.
- `validation.dfy` states every verdict of the binary validator as an
  if-and-only-if over the input and its stripped form, so the fixed order of its checks
  (empty, first bad character, too short, too long) is part of the contract.
- `parity.dfy`, module `Parity`: `str.count('1')`, both generators, the
  frame, and the lemmas that the frame has an even (odd) number of ones, that
  the two bits are complements, that the counts match the multiplicities of
  `'1'` and `'0'`, and that inverting any single bit of a frame built from
  validated data changes the parity of its ones (the error-detection purpose
  named in the file header).

`validate_binary_input` returns only a verdict. Its caller
`get_binary_input` strips the line before validating it and returns the
stripped line (prac_cn_expanded.py:30-33). `StripIdempotent` shows that the
validator's own strip then changes nothing.

## Model

| member | source | states |
|---|---|---|
| `Validation.Strip` | prac_cn_expanded.py:15-17 | the stripped string is the input minus a blank prefix and a blank suffix, and neither starts nor ends with whitespace |
| `Validation.StripEmptyIffBlank` | prac_cn_expanded.py:15 | the stripped string is empty exactly when the input is empty or all whitespace |
| `Validation.StripIdempotent` | prac_cn_expanded.py:30-31 | stripping an already stripped line changes nothing, so the caller's strip before validation is harmless |
| `Validation.ValidateBinaryInput` | prac_cn_expanded.py:13-25 | empty iff blank input; bad character iff non-blank and the stripped string has a non-bit, and then it names the first one; too short iff non-blank, all bits and shorter than 4; too long iff all bits and longer than 32; valid iff the stripped string is 4 to 32 bits |
| `Validation.CheckIntegerInput` | prac_cn_expanded.py:42-49 | a blank line is rejected first, then a line `int()` refused, then a value outside `[min, max]`; otherwise the parsed value is accepted |
| `Validation.InRange` | prac_cn_expanded.py:46 | the negated out-of-range test of line 46 holds exactly when `lo <= v <= hi`, the form `CheckIntegerInput`'s ensures use |
| `Validation.MenuChoiceRange` | prac_cn_expanded.py:219-244 | for a non-blank line read with the menu's range 1 to 5, the integer check accepts exactly the five choices the menu dispatches on (so 7 is rejected and 3 accepted) |
| `Parity.CountOnes` | prac_cn_expanded.py:59 | counts the `'1'` characters: at most the length, and equal to the multiplicity of `'1'` by `CountOnesIsMultiplicity` |
| `Parity.CountOnesIsMultiplicity` | prac_cn_expanded.py:59 | the counted ones equal the multiplicity of `'1'` in the data |
| `Parity.CountOnesAppend` | prac_cn_expanded.py:127 | the ones of a concatenation are the ones of its parts |
| `Parity.GenerateEvenParity` | prac_cn_expanded.py:57-70 | the bit is 0 or 1 and makes ones plus bit even; the record keeps the data, ones plus zeros is the length, and its bit is the returned bit |
| `Parity.GenerateOddParity` | prac_cn_expanded.py:89-102 | the bit is 0 or 1 and makes ones plus bit odd; the record keeps the data, ones plus zeros is the length, and its bit is the returned bit |
| `Parity.ZerosCountOfBitString` | prac_cn_expanded.py:59-60 | for validated data the zero count of both reports is the number of `'0'` characters |
| `Parity.TransmittedFrame` | prac_cn_expanded.py:127 | the frame is one longer than the data, has the data as prefix and the parity bit as its last character |
| `Parity.BitChar` | prac_cn_expanded.py:127 | `str(bit)` of a parity bit is a bit character, inverted by `CharBit` |
| `Parity.CharBit` | prac_cn_expanded.py:128 | reading a bit character back as an integer inverts `str(bit)` |
| `Parity.OnesInFrame` | prac_cn_expanded.py:127 | a frame carries the ones of the data plus the parity bit |
| `Parity.EvenFrameHasEvenOnes` | prac_cn_expanded.py:83 | the transmitted even-parity frame has an even number of ones |
| `Parity.OddFrameHasOddOnes` | prac_cn_expanded.py:115 | the transmitted odd-parity frame has an odd number of ones |
| `Parity.ParityBitsComplement` | prac_cn_expanded.py:213-214 | for the same data the even and odd bits add up to 1 and both count the same ones |
| `Parity.FlipAt` | prac_cn_expanded.py:3 | a one-bit error changes exactly the chosen position to the other bit |
| `Parity.FlipChangesOnesByOne` | prac_cn_expanded.py:3 | inverting one bit changes the number of ones by exactly one |
| `Parity.EvenParityDetectsSingleError` | prac_cn_expanded.py:3 | inverting any one bit of an even-parity frame of validated data leaves an odd number of ones |
| `Parity.OddParityDetectsSingleError` | prac_cn_expanded.py:3 | inverting any one bit of an odd-parity frame of validated data leaves an even number of ones |
| `Parity.WorkedExamples` | prac_cn_expanded.py:57-102 | "1011" has three ones and frames "10111" (even) and "10110" (odd); "0000" gets even bit 0 and odd bit 1 |

## Left out

- The text of every error message and the `explanation` entry of the details record: only error kinds and the numeric fields are modelled.
- `int()` parsing in `validate_integer_input`: it accepts signs, underscores and surrounding whitespace; `CheckIntegerInput` takes its result as a parameter (`None` for `ValueError`).
- The retry loops of `get_binary_input` and `validate_integer_input` and the menu loop of `main`: they are driven by interactive `input()` and only dispatch to printing.
- `display_even_parity`, `display_odd_parity`, `display_menu` and the banners: console output only; the frame they print is `TransmittedFrame`.
- `create_even_parity_graph` and `create_odd_parity_graph`: matplotlib rendering; only the frame they draw is modelled.
- `TransmittedFrame`: takes only bits 0 and 1, the only values the generators produce; `str()` of other integers is not modelled.
- Python strings may hold lone surrogate code points, which a Dafny `char` cannot; such input is not modelled.
