/** The 160-byte vector record that the Python writer packs and the C++ searcher overlays:
    two 64-bit masks at 0, 128 int8 at 16, a 32-bit id at 144, 12 bytes of padding. */
module TapeRecord {
  import opened ByteStrings

  const RECORD_BYTES: nat := 160

  datatype Record = Record(mask0: nat, mask1: nat, vector: seq<int>, id: nat)

  /** Every field fits its slot. */
  ghost predicate Fits(r: Record) {
    && r.mask0 < Pow256(8) && r.mask1 < Pow256(8) && r.id < Pow256(4)
    && |r.vector| == 128 && forall i :: 0 <= i < 128 ==> -128 <= r.vector[i] <= 127
  }

  function Int8ToByte(v: int): byte { v % 256 }

  function ByteToInt8(b: byte): int { if b < 128 then b else b - 256 }

  function Encode(r: Record): (b: seq<byte>)
    requires |r.vector| == 128
    ensures |b| == RECORD_BYTES
  {
    ToLe(r.mask0, 8) + ToLe(r.mask1, 8)
    + seq(128, i requires 0 <= i < 128 => Int8ToByte(r.vector[i]))
    + ToLe(r.id, 4) + seq(12, _ => 0)
  }

  /** The struct overlay: each field read at its own offset. */
  function Decode(b: seq<byte>): Record
    requires |b| == RECORD_BYTES
  {
    Record(FromLe(b[0..8]), FromLe(b[8..16]),
           seq(128, i requires 0 <= i < 128 => ByteToInt8(b[16 + i])), FromLe(b[144..148]))
  }

  /** What the writer packs is what the searcher reads: every field survives, at its own offset. */
  lemma RecordRoundTrip(r: Record)
    requires Fits(r)
    ensures Decode(Encode(r)) == r
  {
    hide ToLe, FromLe;
    var b := Encode(r);
    assert b[0..8] == ToLe(r.mask0, 8);
    assert b[8..16] == ToLe(r.mask1, 8);
    assert b[144..148] == ToLe(r.id, 4);
    assert forall i :: 0 <= i < 128 ==> b[16 + i] == Int8ToByte(r.vector[i]);
    LeRoundTrip(r.mask0, 8);
    LeRoundTrip(r.mask1, 8);
    LeRoundTrip(r.id, 4);
    assert Decode(b).vector == r.vector;
  }

  /** The packed record, byte by byte, as the struct of the searcher has it: both masks and the row number
      least significant byte first, coordinates in two's complement, zeroes at the end. */
  lemma RecordBytes(r: Record, k: nat)
    requires |r.vector| == 128 && k < RECORD_BYTES
    ensures Pow256(k % 8) > 0
    ensures Encode(r)[k] ==
            if k < 8 then r.mask0 / Pow256(k % 8) % 256
            else if k < 16 then r.mask1 / Pow256(k % 8) % 256
            else if k < 144 then r.vector[k - 16] % 256
            else if k < 148 then r.id / Pow256(k % 8) % 256
            else 0
  {
    hide ToLe, Pow256;
    LeByte(r.mask0, 8, k % 8);
    if k < 8 {
      assert k % 8 == k;
    } else if k < 16 {
      assert k % 8 == k - 8;
      LeByte(r.mask1, 8, k - 8);
    } else if 144 <= k < 148 {
      assert k % 8 == k - 144;
      LeByte(r.id, 4, k - 144);
    }
  }
}
