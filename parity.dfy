/**
 * The parity calculator of the demonstrator: `generate_even_parity`,
 * `generate_odd_parity` and the transmitted frame `data + str(parity_bit)`
 * that the reports and charts show.
 */
module Parity {
  import opened Validation

  /**
   * What both generators return beside the bit (the `details` dictionary);
   * its human-readable `explanation` entry is not modelled.
   */
  datatype ParityDetails = ParityDetails(data: string, onesCount: nat, zerosCount: nat, parityBit: int)

  /** `data.count('1')`. */
  function CountOnes(s: string): (n: nat)
    ensures n <= |s|
  {
    if s == [] then 0 else (if s[0] == '1' then 1 else 0) + CountOnes(s[1..])
  }

  /** `str(bit)` for a parity bit. */
  function BitChar(bit: int): (c: char)
    requires bit == 0 || bit == 1
    ensures IsBit(c)
  {
    if bit == 0 then '0' else '1'
  }

  /** The inverse of `BitChar`: the value `int(c)` of a bit character. */
  function CharBit(c: char): (bit: int)
    requires IsBit(c)
    ensures (bit == 0 || bit == 1) && BitChar(bit) == c
  {
    if c == '0' then 0 else 1
  }

  /** `generate_even_parity`: the bit that makes the total number of ones even. */
  function GenerateEvenParity(data: string): (r: (int, ParityDetails))
    ensures r.0 == 0 || r.0 == 1
    ensures r.1.data == data && r.1.parityBit == r.0
    ensures r.1.onesCount == CountOnes(data)
    ensures r.1.onesCount + r.1.zerosCount == |data|
    ensures (r.1.onesCount + r.0) % 2 == 0
  {
    var onesCount := CountOnes(data);
    var zerosCount := |data| - onesCount;
    var parityBit := if onesCount % 2 == 0 then 0 else 1;
    (parityBit, ParityDetails(data, onesCount, zerosCount, parityBit))
  }

  /** `generate_odd_parity`: the bit that makes the total number of ones odd. */
  function GenerateOddParity(data: string): (r: (int, ParityDetails))
    ensures r.0 == 0 || r.0 == 1
    ensures r.1.data == data && r.1.parityBit == r.0
    ensures r.1.onesCount == CountOnes(data)
    ensures r.1.onesCount + r.1.zerosCount == |data|
    ensures (r.1.onesCount + r.0) % 2 == 1
  {
    var onesCount := CountOnes(data);
    var zerosCount := |data| - onesCount;
    var parityBit := if onesCount % 2 == 0 then 1 else 0;
    (parityBit, ParityDetails(data, onesCount, zerosCount, parityBit))
  }

  /** The transmitted frame `data + str(parity_bit)`: the data followed by one bit character. */
  function TransmittedFrame(data: string, bit: int): (f: string)
    requires bit == 0 || bit == 1
    ensures |f| == |data| + 1
    ensures f[..|data|] == data
    ensures IsBit(f[|data|]) && CharBit(f[|data|]) == bit
  {
    data + [BitChar(bit)]
  }

  /** `count('1')` agrees with the multiplicity of `'1'` in the string. */
  lemma {:induction false} CountOnesIsMultiplicity(s: string)
    ensures CountOnes(s) == multiset(s)['1']
  {
    if s != [] {
      assert s == [s[0]] + s[1..];
      CountOnesIsMultiplicity(s[1..]);
    }
  }

  /** Counting ones distributes over concatenation. */
  lemma {:induction false} CountOnesAppend(a: string, b: string)
    ensures CountOnes(a + b) == CountOnes(a) + CountOnes(b)
  {
    if a == [] {
      assert a + b == b;
    } else {
      assert (a + b)[1..] == a[1..] + b;
      CountOnesAppend(a[1..], b);
    }
  }

  /** In a string of bits, the characters that are not ones are exactly the zeros. */
  lemma {:induction false} ZerosAreTheRest(s: string)
    requires IsBinary(s)
    ensures |s| - CountOnes(s) == multiset(s)['0']
  {
    if s != [] {
      assert s == [s[0]] + s[1..];
      assert IsBinary(s[1..]) by {
        forall i | 0 <= i < |s[1..]| ensures IsBit(s[1..][i]) {
          assert s[1..][i] == s[i + 1];
        }
      }
      ZerosAreTheRest(s[1..]);
    }
  }

  /** For validated data both reports count the `'0'` characters as zeros. */
  lemma ZerosCountOfBitString(data: string)
    requires IsBinary(data)
    ensures GenerateEvenParity(data).1.zerosCount == multiset(data)['0']
    ensures GenerateOddParity(data).1.zerosCount == multiset(data)['0']
  {
    ZerosAreTheRest(data);
  }

  /** A frame carries the ones of its data plus its parity bit. */
  lemma OnesInFrame(data: string, bit: int)
    requires bit == 0 || bit == 1
    ensures CountOnes(TransmittedFrame(data, bit)) == CountOnes(data) + bit
  {
    CountOnesAppend(data, [BitChar(bit)]);
  }

  /** The even-parity frame holds an even number of ones. */
  lemma EvenFrameHasEvenOnes(data: string)
    ensures CountOnes(TransmittedFrame(data, GenerateEvenParity(data).0)) % 2 == 0
  {
    OnesInFrame(data, GenerateEvenParity(data).0);
  }

  /** The odd-parity frame holds an odd number of ones. */
  lemma OddFrameHasOddOnes(data: string)
    ensures CountOnes(TransmittedFrame(data, GenerateOddParity(data).0)) % 2 == 1
  {
    OnesInFrame(data, GenerateOddParity(data).0);
  }

  /** For the same data the even and the odd parity bits are complements. */
  lemma ParityBitsComplement(data: string)
    ensures GenerateEvenParity(data).0 + GenerateOddParity(data).0 == 1
    ensures GenerateEvenParity(data).1.onesCount == GenerateOddParity(data).1.onesCount
  {
  }

  /** The frame with the bit at position `i` inverted, as a one-bit transmission error would leave it. */
  function FlipAt(f: string, i: nat): (g: string)
    requires i < |f| && IsBit(f[i])
    ensures |g| == |f| && IsBit(g[i]) && g[i] != f[i]
    ensures forall j :: 0 <= j < |f| && j != i ==> g[j] == f[j]
  {
    f[..i] + [if f[i] == '0' then '1' else '0'] + f[i + 1..]
  }

  /** Inverting one bit changes the number of ones by exactly one. */
  lemma FlipChangesOnesByOne(f: string, i: nat)
    requires i < |f| && IsBit(f[i])
    ensures CountOnes(FlipAt(f, i)) == if f[i] == '1' then CountOnes(f) - 1 else CountOnes(f) + 1
  {
    var c := if f[i] == '0' then '1' else '0';
    assert f == f[..i] + [f[i]] + f[i + 1..];
    CountOnesAppend(f[..i] + [f[i]], f[i + 1..]);
    CountOnesAppend(f[..i], [f[i]]);
    CountOnesAppend(f[..i] + [c], f[i + 1..]);
    CountOnesAppend(f[..i], [c]);
  }

  /** A single inverted bit anywhere in an even-parity frame of validated data makes its count of ones odd. */
  lemma EvenParityDetectsSingleError(data: string, i: nat)
    requires IsBinary(data) && i <= |data|
    ensures var f := TransmittedFrame(data, GenerateEvenParity(data).0);
            IsBit(f[i]) && CountOnes(FlipAt(f, i)) % 2 == 1
  {
    var f := TransmittedFrame(data, GenerateEvenParity(data).0);
    if i < |data| {
      assert f[i] == f[..|data|][i];
    }
    EvenFrameHasEvenOnes(data);
    FlipChangesOnesByOne(f, i);
  }

  /** A single inverted bit anywhere in an odd-parity frame of validated data makes its count of ones even. */
  lemma OddParityDetectsSingleError(data: string, i: nat)
    requires IsBinary(data) && i <= |data|
    ensures var f := TransmittedFrame(data, GenerateOddParity(data).0);
            IsBit(f[i]) && CountOnes(FlipAt(f, i)) % 2 == 0
  {
    var f := TransmittedFrame(data, GenerateOddParity(data).0);
    if i < |data| {
      assert f[i] == f[..|data|][i];
    }
    OddFrameHasOddOnes(data);
    FlipChangesOnesByOne(f, i);
  }

  /** The worked examples: "1011" has three ones and "0000" none. */
  lemma WorkedExamples()
    ensures GenerateEvenParity("1011").1.onesCount == 3
    ensures TransmittedFrame("1011", GenerateEvenParity("1011").0) == "10111"
    ensures TransmittedFrame("1011", GenerateOddParity("1011").0) == "10110"
    ensures GenerateEvenParity("0000").0 == 0 && GenerateOddParity("0000").0 == 1
  {
  }
}
