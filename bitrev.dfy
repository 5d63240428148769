/**
 * The 8-bit bit reversal `reverse_byte` of the wavetable converter.
 *
 * The converter renders the byte as an 8-digit binary string, reverses the
 * string and parses it back. The model keeps that shape: `Digits` is the
 * zero-padded binary rendering, `Reverse` the string reversal and
 * `FromDigits` the parse. `Bit` is the independent reference for "bit k".
 */
module BitReverse {

  /** A value in the range 0..255, as Python's `bytes` accepts it. */
  type Byte = b: int | 0 <= b < 256

  function Pow2(k: nat): (p: nat)
    ensures p >= 1
  {
    if k == 0 then 1 else 2 * Pow2(k - 1)
  }

  /** Bit k of x, counting from the least significant bit. */
  function Bit(x: nat, k: nat): (b: nat)
    ensures b < 2
  {
    if k == 0 then x % 2 else Bit(x / 2, k - 1)
  }

  /** Every digit of d is a binary digit. */
  predicate IsBinary(d: seq<nat>) {
    forall i | 0 <= i < |d| :: d[i] < 2
  }

  /** The w lowest bits of x, most significant first: `'{:0wb}'.format(x)` when x < 2^w. */
  function Digits(x: nat, w: nat): (d: seq<nat>)
    ensures |d| == w
  {
    if w == 0 then [] else Digits(x / 2, w - 1) + [x % 2]
  }

  /** A digit string read most significant digit first: `int(d, 2)`. */
  function FromDigits(d: seq<nat>): nat
  {
    if d == [] then 0 else 2 * FromDigits(d[..|d| - 1]) + d[|d| - 1]
  }

  /** The string reversal `d[::-1]`. */
  function Reverse(d: seq<nat>): (r: seq<nat>)
    ensures |r| == |d|
    ensures forall i | 0 <= i < |d| :: r[i] == d[|d| - 1 - i]
  {
    seq(|d|, i requires 0 <= i < |d| => d[|d| - 1 - i])
  }

  lemma {:induction false} DigitsAreBinary(x: nat, w: nat)
    ensures IsBinary(Digits(x, w))
  {
    if w > 0 {
      DigitsAreBinary(x / 2, w - 1);
    }
  }

  /** Digit w-1-k of the rendering is bit k of the value. */
  lemma {:induction false} DigitsAt(x: nat, w: nat, k: nat)
    requires k < w
    ensures Digits(x, w)[w - 1 - k] == Bit(x, k)
  {
    if k > 0 {
      DigitsAt(x / 2, w - 1, k - 1);
    }
  }

  /** A binary string of width w parses to a value below 2^w. */
  lemma {:induction false} FromDigitsBound(d: seq<nat>)
    requires IsBinary(d)
    ensures FromDigits(d) < Pow2(|d|)
  {
    if d != [] {
      FromDigitsBound(d[..|d| - 1]);
    }
  }

  /** Parsing the rendering of x gives x back when x fits in w bits. */
  lemma {:induction false} FromDigitsOfDigits(x: nat, w: nat)
    requires x < Pow2(w)
    ensures FromDigits(Digits(x, w)) == x
  {
    if w > 0 {
      var d := Digits(x, w);
      assert d == Digits(x / 2, w - 1) + [x % 2];
      assert d[..w - 1] == Digits(x / 2, w - 1) && d[w - 1] == x % 2;
      assert x / 2 < Pow2(w - 1) by {
        assert Pow2(w) == 2 * Pow2(w - 1);
      }
      FromDigitsOfDigits(x / 2, w - 1);
      assert FromDigits(d) == 2 * FromDigits(d[..w - 1]) + d[w - 1];
    }
  }

  /** Rendering a parsed binary string at its own width gives the string back. */
  lemma {:induction false} DigitsOfFromDigits(d: seq<nat>)
    requires IsBinary(d)
    ensures Digits(FromDigits(d), |d|) == d
  {
    if d != [] {
      var init := d[..|d| - 1];
      assert IsBinary(init);
      DigitsOfFromDigits(init);
      var v := FromDigits(d);
      assert v / 2 == FromDigits(init) && v % 2 == d[|d| - 1];
    }
  }

  /**
   * `reverse_byte`: a negative argument is first moved up by 256, then its
   * low 8 bits are rendered, reversed and parsed.
   */
  function ReverseByte(v: int): (r: Byte)
    ensures r == FromDigits(Reverse(Digits(v % 256, 8)))
  {
    var b := if v < 0 then 256 + v else v;
    assert b % 256 == v % 256;
    var reversed := Reverse(Digits(b % 256, 8));
    DigitsAreBinary(b % 256, 8);
    FromDigitsBound(reversed);
    FromDigits(reversed)
  }

  /** Bit k of the result is bit 7-k of the argument's low byte (`b & 0xFF`). */
  lemma ReverseByteBits(v: int, k: nat)
    requires k < 8
    ensures Bit(ReverseByte(v), k) == Bit(v % 256, 7 - k)
  {
    var d := Digits(v % 256, 8);
    var reversed := Reverse(d);
    DigitsAreBinary(v % 256, 8);
    assert IsBinary(reversed);
    DigitsOfFromDigits(reversed);
    assert Digits(ReverseByte(v), 8) == reversed;
    DigitsAt(ReverseByte(v), 8, k);
    assert reversed[7 - k] == d[k];
    DigitsAt(v % 256, 8, 7 - k);
  }

  /** Only the low byte of the argument matters; in particular a negative b in -256..-1 acts as b + 256. */
  lemma ReverseByteLowByte(v: int)
    ensures ReverseByte(v) == ReverseByte(v % 256)
    ensures -256 <= v < 0 ==> ReverseByte(v) == ReverseByte(v + 256)
  {
    assert (v % 256) % 256 == v % 256;
    assert -256 <= v < 0 ==> v + 256 == v % 256;
  }

  /** On a byte value the rendering needs no adjustment. */
  lemma ReverseByteOfByte(x: Byte)
    ensures ReverseByte(x) == FromDigits(Reverse(Digits(x, 8)))
  {
    assert x % 256 == x;
  }

  /** Reversing twice restores every byte value. */
  lemma ReverseByteInvolution(x: Byte)
    ensures ReverseByte(ReverseByte(x)) == x
  {
    var d := Digits(x, 8);
    DigitsAreBinary(x, 8);
    var rd := Reverse(d);
    assert IsBinary(rd);
    FromDigitsBound(rd);
    var r: Byte := FromDigits(rd);
    ReverseByteOfByte(x);
    DigitsOfFromDigits(rd);
    assert Reverse(rd) == d;
    ReverseByteOfByte(r);
    FromDigitsOfDigits(x, 8);
  }

  /** The rendering of the space character 0x20, reversed. */
  lemma SpaceDigitsReversed()
    ensures Reverse(Digits(0x20, 8)) == [0, 0, 0, 0, 0, 1, 0, 0]
  {
    var d: seq<nat> := [0, 0, 1, 0, 0, 0, 0, 0];
    assert Digits(0x20, 8) == d;
  }

  /** Appending a digit doubles the value and adds the digit. */
  lemma FromDigitsSnoc(d: seq<nat>, x: nat)
    ensures FromDigits(d + [x]) == 2 * FromDigits(d) + x
  {
    assert (d + [x])[..|d|] == d;
  }

  lemma FromDigitsOfFour()
    ensures FromDigits([0, 0, 0, 0, 0, 1, 0, 0]) == 0x04
  {
    var zeros: seq<nat> := [0, 0, 0, 0, 0];
    assert FromDigits(zeros) == 0 by {
      var z0: seq<nat> := [];
      FromDigitsSnoc(z0, 0);
      FromDigitsSnoc(z0 + [0], 0);
      FromDigitsSnoc(z0 + [0] + [0], 0);
      FromDigitsSnoc(z0 + [0] + [0] + [0], 0);
      FromDigitsSnoc(z0 + [0] + [0] + [0] + [0], 0);
      assert z0 + [0] + [0] + [0] + [0] + [0] == zeros;
    }
    FromDigitsSnoc(zeros, 1);
    FromDigitsSnoc(zeros + [1], 0);
    FromDigitsSnoc(zeros + [1] + [0], 0);
    assert zeros + [1] + [0] + [0] == [0, 0, 0, 0, 0, 1, 0, 0];
  }

  /** The name records start with two reversed spaces: 0x20 reverses to 0x04. */
  lemma ReverseSpace()
    ensures ReverseByte(0x20) == 0x04
  {
    ReverseByteOfByte(0x20);
    SpaceDigitsReversed();
    FromDigitsOfFour();
  }
}
