/**
 * Decoding of the ESP-NOW payload sent by the clutch-paddle client:
 * bytes 0-1 hold the left clutch and bytes 2-3 the right clutch, each a
 * little-endian uint16_t carrying a 12-bit ADC reading. Anything after
 * byte 3 is ignored.
 */
module Packet {
  import opened Types

  /** Largest value of the 12-bit ADC range. */
  const MaxRaw: uint16 := 4095

  /** Number of payload bytes the decoder reads. */
  const PayloadSize: int := 4

  /** `(hi << 8) | lo`, evaluated as the C code does it, on bits. The value
      always fits in 16 bits, so the truncation to uint16_t loses nothing. */
  function Le16(lo: byte, hi: byte): (v: uint16)
    ensures v as int == lo as int + 256 * hi as int
  {
    var bits := ((hi as bv16) << 8) | (lo as bv16);
    Le16Value(lo, hi);
    bits as uint16
  }

  lemma Le16Value(lo: byte, hi: byte)
    ensures (((hi as bv16) << 8) | (lo as bv16)) as int == lo as int + 256 * hi as int
  {
    var h: bv16 := hi as bv16;
    var l: bv16 := lo as bv16;
    ByteToBits(hi);
    ByteToBits(lo);
    ShiftOrIsAdd(h, l);
    WideningSum(h, l);
  }

  /** A byte survives the trip to bv16 and back. */
  lemma ByteToBits(b: byte)
    ensures (b as bv16) as int == b as int && b as bv16 < 256
  {
  }

  /** With `l` below 256, the low byte of `h << 8` is free, so `|` adds. */
  lemma ShiftOrIsAdd(h: bv16, l: bv16)
    requires h < 256 && l < 256
    ensures (h << 8) | l == h * 256 + l
  {
  }

  /** `h * 256 + l` does not overflow 16 bits when both are bytes. */
  lemma WideningSum(h: bv16, l: bv16)
    requires h < 256 && l < 256
    ensures (h * 256 + l) as int == h as int * 256 + l as int
  {
  }

  /** Clamp to the 12-bit range 0..4095. */
  function Clamp12(v: uint16): (r: uint16)
    ensures r <= MaxRaw && r <= v
    ensures v <= MaxRaw ==> r == v
    ensures v > MaxRaw ==> r == MaxRaw
  {
    if v > MaxRaw then MaxRaw else v
  }

  /** The raw little-endian pair in bytes 0-3, before clamping. */
  function DecodeRaw(payload: seq<byte>): (r: Report)
    requires |payload| >= PayloadSize
    ensures r.left as int == payload[0] as int + 256 * payload[1] as int
    ensures r.right as int == payload[2] as int + 256 * payload[3] as int
  {
    Report(Le16(payload[0], payload[1]), Le16(payload[2], payload[3]))
  }

  /** The pair forwarded for a payload of at least four bytes. */
  function Decode(payload: seq<byte>): (r: Report)
    requires |payload| >= PayloadSize
    ensures r.left <= MaxRaw && r.right <= MaxRaw
  {
    var raw := DecodeRaw(payload);
    Report(Clamp12(raw.left), Clamp12(raw.right))
  }

  /** What the sending client puts on the air for a (left, right) pair. */
  function Encode(r: Report): (payload: seq<byte>)
    ensures |payload| == PayloadSize
  {
    [(r.left % 256) as byte, (r.left / 256) as byte,
     (r.right % 256) as byte, (r.right / 256) as byte]
  }

  /** A value inside the 12-bit range. */
  predicate InRange(r: Report) {
    r.left <= MaxRaw && r.right <= MaxRaw
  }

  /** Decoding an encoded pair gives it back, whatever trails the four bytes. */
  lemma DecodeRawEncode(r: Report, trailing: seq<byte>)
    ensures DecodeRaw(Encode(r) + trailing) == r
  {
    var p := Encode(r) + trailing;
    assert p[..PayloadSize] == Encode(r);
    assert p[0] as int + 256 * p[1] as int == r.left as int;
    assert p[2] as int + 256 * p[3] as int == r.right as int;
  }

  /** For in-range pairs, the clamped decoder inverts the encoder. */
  lemma DecodeEncode(r: Report, trailing: seq<byte>)
    requires InRange(r)
    ensures Decode(Encode(r) + trailing) == r
  {
    DecodeRawEncode(r, trailing);
  }

  /** Re-encoding a decoded pair reproduces the four bytes that were read. */
  lemma EncodeDecodeRaw(payload: seq<byte>)
    requires |payload| >= PayloadSize
    ensures Encode(DecodeRaw(payload)) == payload[..PayloadSize]
  {
    var r := DecodeRaw(payload);
    SplitBytes(payload[0], payload[1], r.left);
    SplitBytes(payload[2], payload[3], r.right);
    var e := Encode(r);
    assert forall i :: 0 <= i < PayloadSize ==> e[i] == payload[..PayloadSize][i];
  }

  /** The low and high byte of `lo + 256 * hi` are `lo` and `hi`. */
  lemma SplitBytes(lo: byte, hi: byte, v: uint16)
    requires v as int == lo as int + 256 * hi as int
    ensures v % 256 == lo as uint16 && v / 256 == hi as uint16
  {
    var q, m := v as int / 256, v as int % 256;
    assert v as int == 256 * q + m && 0 <= m < 256;
    assert 256 * (q - hi as int) == lo as int - m;
  }

  /** Bytes at index 4 and beyond never affect the decoded pair. */
  lemma DecodeIgnoresTail(p: seq<byte>, q: seq<byte>)
    requires |p| >= PayloadSize && |q| >= PayloadSize
    requires p[..PayloadSize] == q[..PayloadSize]
    ensures Decode(p) == Decode(q)
  {
    assert p[0] == q[0] && p[1] == q[1] && p[2] == q[2] && p[3] == q[3] by {
      assert forall i :: 0 <= i < PayloadSize ==> p[..PayloadSize][i] == p[i] && q[..PayloadSize][i] == q[i];
    }
  }

  /** The clamped value is the largest in-range value not above the input. */
  lemma ClampIsNearest(v: uint16, w: uint16)
    requires w <= MaxRaw && w <= v
    ensures w <= Clamp12(v)
  {
  }
}
