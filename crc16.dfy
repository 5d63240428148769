/**
 * The 16-bit frame check sequence of RFC 1662, Appendix C.2 (the
 * CRC-16/IBM-SDLC or X.25 parameterisation): generator polynomial 0x1021
 * processed least significant bit first (0x8408 reflected), initial
 * register 0xFFFF, final ones' complement. The patcher obtains it from
 * `crccheck.crc.Crc16IbmSdlc`; this module computes it bit by bit.
 */
module Crc16 {

  const InitialFcs: bv16 := 0xFFFF
  /** The register value a receiver finds after a frame followed by its check sequence. */
  const GoodFcs: bv16 := 0xF0B8
  const ReflectedPolynomial: bv16 := 0x8408

  /** One shift of the register, subtracting the polynomial when a one bit falls out. */
  function ShiftBit(fcs: bv16): bv16 {
    if fcs & 1 == 1 then (fcs >> 1) ^ ReflectedPolynomial else fcs >> 1
  }

  /** The register after the eight shifts of one octet. */
  function Shift8(fcs: bv16): bv16 {
    ShiftBit(ShiftBit(ShiftBit(ShiftBit(ShiftBit(ShiftBit(ShiftBit(ShiftBit(fcs))))))))
  }

  /** The register after one more octet. */
  function UpdateFcs(fcs: bv16, octet: bv8): bv16 {
    Shift8(fcs ^ (octet as bv16))
  }

  /** Entry i of the 256-entry table `fcstab` that RFC 1662 generates. */
  function TableEntry(i: bv8): bv16 {
    Shift8(i as bv16)
  }

  /** The register after a sequence of octets, first octet first. */
  function Fcs(fcs: bv16, data: seq<bv8>): bv16 {
    if data == [] then fcs else UpdateFcs(Fcs(fcs, data[..|data| - 1]), data[|data| - 1])
  }

  /** `Crc16IbmSdlc.calc(data)`. */
  function Crc(data: seq<bv8>): bv16 {
    !Fcs(InitialFcs, data)
  }

  /** `crc.to_bytes(2, 'little')`. */
  function LittleEndian(crc: bv16): (r: seq<bv8>)
    ensures |r| == 2
  {
    [(crc & 0xFF) as bv8, (crc >> 8) as bv8]
  }

  /** Eight shifts act on the low octet alone and move the high octet down. */
  lemma Shift8Split(v: bv16)
    ensures Shift8(v) == Shift8(v & 0xFF) ^ (v >> 8)
  {
  }

  /** The table entry of a register's low octet. */
  lemma TableEntryOfLowOctet(v: bv16)
    ensures TableEntry((v & 0xFF) as bv8) == Shift8(v & 0xFF)
  {
    var low := v & 0xFF;
    assert (low as bv8) as bv16 == low;
  }

  /** Folding in an octet leaves the high octet of the register alone. */
  lemma FoldOctet(fcs: bv16, octet: bv8)
    ensures (fcs ^ (octet as bv16)) >> 8 == fcs >> 8
  {
  }

  /** The bitwise update agrees with the table-driven update `(fcs >> 8) ^ fcstab[(fcs ^ c) & 0xff]` of RFC 1662. */
  lemma UpdateIsTableDriven(fcs: bv16, octet: bv8)
    ensures UpdateFcs(fcs, octet) == (fcs >> 8) ^ TableEntry(((fcs ^ (octet as bv16)) & 0xFF) as bv8)
  {
    var v := fcs ^ (octet as bv16);
    Shift8Split(v);
    FoldOctet(fcs, octet);
    TableEntryOfLowOctet(v);
    assert Shift8(v & 0xFF) ^ (fcs >> 8) == (fcs >> 8) ^ Shift8(v & 0xFF);
  }

  /** The register over a concatenation continues from the register over the first part. */
  lemma {:induction false} FcsConcat(fcs: bv16, a: seq<bv8>, b: seq<bv8>)
    ensures Fcs(fcs, a + b) == Fcs(Fcs(fcs, a), b)
  {
    if b != [] {
      assert (a + b)[..|a + b| - 1] == a + b[..|b| - 1];
      FcsConcat(fcs, a, b[..|b| - 1]);
    } else {
      assert a + b == a;
    }
  }

  /** Feeding a register's own complement in, low octet first, always leaves the good-FCS constant. */
  lemma ComplementLeavesGood(fcs: bv16)
    ensures UpdateFcs(UpdateFcs(fcs, LittleEndian(!fcs)[0]), LittleEndian(!fcs)[1]) == GoodFcs
  {
  }

  /**
   * Data followed by its check sequence, low octet first, passes the
   * receiver's check of RFC 1662: the register ends at 0xF0B8.
   */
  lemma CheckSequenceVerifies(data: seq<bv8>)
    ensures Fcs(InitialFcs, data + LittleEndian(Crc(data))) == GoodFcs
  {
    var tail := LittleEndian(Crc(data));
    FcsConcat(InitialFcs, data, tail);
    var f := Fcs(InitialFcs, data);
    assert tail[..1] == [tail[0]] && [tail[0]][..0] == [];
    assert Fcs(f, tail[..1]) == UpdateFcs(f, tail[0]);
    ComplementLeavesGood(f);
  }

  /** The standard check value: the ASCII octets "123456789" give 0x906E. */
  lemma CheckValue()
    ensures Crc([0x31, 0x32, 0x33, 0x34, 0x35, 0x36, 0x37, 0x38, 0x39]) == 0x906E
  {
    var data: seq<bv8> := [0x31, 0x32, 0x33, 0x34, 0x35, 0x36, 0x37, 0x38, 0x39];
    assert data[..1][..0] == [];
    assert Fcs(InitialFcs, data[..1]) == 0x2F8D;
    assert data[..2][..1] == data[..1];
    assert Fcs(InitialFcs, data[..2]) == 0x4D53;
    assert data[..3][..2] == data[..2];
    assert Fcs(InitialFcs, data[..3]) == 0x634B;
    assert data[..4][..3] == data[..3];
    assert Fcs(InitialFcs, data[..4]) == 0x8B13;
    assert data[..5][..4] == data[..4];
    assert Fcs(InitialFcs, data[..5]) == 0x44BF;
    assert data[..6][..5] == data[..5];
    assert Fcs(InitialFcs, data[..6]) == 0x198D;
    assert data[..7][..6] == data[..6];
    assert Fcs(InitialFcs, data[..7]) == 0x1AC8;
    assert data[..8][..7] == data[..7];
    assert Fcs(InitialFcs, data[..8]) == 0xF795;
    assert data[..9][..8] == data[..8];
    assert Fcs(InitialFcs, data[..9]) == 0x6F91;
    assert data[..9] == data;
  }
}
