/** The on-disk form of the free space map: one bit per ID, most significant bit first,
    8192-byte blocks stored under a key made of the block number and a fixed prefix.
    Everything here is about how that layout represents a set of IDs. */
module FsmLayout {
  import opened Collections

  const U32_MAX: nat := 0xffff_ffff
  const BLOCK_SIZE_IDS: nat := 65536
  const BLOCK_SIZE_BYTES: nat := 8192
  const FAST_SIZE: nat := 1024
  /** The bytes `_fsm` read as a big-endian 32-bit word. */
  const FSM_KEY_PREFIX: nat := 0x5f66_736d

  type Blocks = map<nat, seq<bv8>>

  function BlockOf(id: nat): nat { id / BLOCK_SIZE_IDS }

  function ByteOf(id: nat): nat { id % BLOCK_SIZE_IDS / 8 }

  function BitOf(id: nat): nat { id % BLOCK_SIZE_IDS % 8 }

  /** `block_id << 32 | prefix`: the prefix fits in the low word, so the disjunction is a sum. */
  function BlockKey(block: nat): nat { block * U32_LIMIT + FSM_KEY_PREFIX }

  /** The shift `7 - bidx` as a byte-wide amount. */
  function ShiftOf(bidx: nat): bv8
    requires bidx < 8
  {
    if bidx == 0 then 7 else if bidx == 1 then 6 else if bidx == 2 then 5 else if bidx == 3 then 4
    else if bidx == 4 then 3 else if bidx == 5 then 2 else if bidx == 6 then 1 else 0
  }

  predicate BitUsed(byte: bv8, bidx: nat)
    requires bidx < 8
  {
    (byte >> ShiftOf(bidx)) & 1 == 1
  }

  /** The byte that `update_status` leaves behind. */
  function UpdateByte(used: bool, byte: bv8, bidx: nat): bv8
    requires bidx < 8
  {
    var mask: bv8 := 1 << ShiftOf(bidx);
    var value: bv8 := (if used then 1 else 0) << ShiftOf(bidx);
    (byte & !mask) | value
  }

  /** The flag that `update_status` returns. */
  predicate StatusChanges(used: bool, byte: bv8, bidx: nat)
    requires bidx < 8
  {
    var mask: bv8 := 1 << ShiftOf(bidx);
    (used && byte & mask == 0) || (!used && byte & mask != 0)
  }

  lemma UpdateByteSet(byte: bv8, i: nat, j: nat)
    requires i < 8 && j < 8
    ensures BitUsed(UpdateByte(true, byte, i), j) == (i == j || BitUsed(byte, j))
  {
  }

  lemma UpdateByteClear(byte: bv8, i: nat, j: nat)
    requires i < 8 && j < 8
    ensures BitUsed(UpdateByte(false, byte, i), j) == (i != j && BitUsed(byte, j))
  {
  }

  /** `update_status` reports a change exactly when the bit differs from the requested value. */
  lemma StatusChangesIff(used: bool, byte: bv8, i: nat)
    requires i < 8
    ensures StatusChanges(used, byte, i) <==> BitUsed(byte, i) != used
  {
  }

  /** Updating one bit of a byte sets that bit and keeps the other seven. */
  lemma UpdateByteBits(used: bool, byte: bv8, i: nat, j: nat)
    requires i < 8 && j < 8
    ensures BitUsed(UpdateByte(used, byte, i), j) == if i == j then used else BitUsed(byte, j)
  {
    if used {
      UpdateByteSet(byte, i, j);
    } else {
      UpdateByteClear(byte, i, j);
    }
  }

  /** The place value of a bit: the first of a byte weighs 128, the last 1. */
  function Weight(i: nat): nat
    requires i < 8
  {
    [128, 64, 32, 16, 8, 4, 2, 1][i]
  }

  function Value(byte: bv8): int { byte as int }

  function Digit(byte: bv8, i: nat): (d: int)
    requires i < 8
    ensures 0 <= d <= 1 && (d == 1 <==> BitUsed(byte, i))
  {
    if BitUsed(byte, i) then 1 else 0
  }

  /** The value of a byte is the sum of the weights of its used bits. */
  lemma ByteValue(byte: bv8)
    ensures Value(byte) == 128 * Digit(byte, 0) + 64 * Digit(byte, 1) + 32 * Digit(byte, 2) + 16 * Digit(byte, 3)
                           + 8 * Digit(byte, 4) + 4 * Digit(byte, 5) + 2 * Digit(byte, 6) + Digit(byte, 7)
  {
  }

  lemma Digits(v: int, d0: int, d1: int, d2: int, d3: int, d4: int, d5: int, d6: int, d7: int)
    requires v == 128 * d0 + 64 * d1 + 32 * d2 + 16 * d3 + 8 * d4 + 4 * d5 + 2 * d6 + d7
    requires 0 <= d0 <= 1 && 0 <= d1 <= 1 && 0 <= d2 <= 1 && 0 <= d3 <= 1
    requires 0 <= d4 <= 1 && 0 <= d5 <= 1 && 0 <= d6 <= 1 && 0 <= d7 <= 1
    ensures v / 128 % 2 == d0 && v / 64 % 2 == d1 && v / 32 % 2 == d2 && v / 16 % 2 == d3
    ensures v / 8 % 2 == d4 && v / 4 % 2 == d5 && v / 2 % 2 == d6 && v % 2 == d7
  {
    assert v / 2 == 64 * d0 + 32 * d1 + 16 * d2 + 8 * d3 + 4 * d4 + 2 * d5 + d6;
    assert v / 4 == 32 * d0 + 16 * d1 + 8 * d2 + 4 * d3 + 2 * d4 + d5;
    assert v / 8 == 16 * d0 + 8 * d1 + 4 * d2 + 2 * d3 + d4;
    assert v / 16 == 8 * d0 + 4 * d1 + 2 * d2 + d3;
    assert v / 32 == 4 * d0 + 2 * d1 + d2;
    assert v / 64 == 2 * d0 + d1;
    assert v / 128 == d0;
  }

  /** Bit `i` of a byte, counted from the left, is the digit of weight 2^(7 - i) of its value. */
  lemma BitIsDigit(byte: bv8, i: nat)
    requires i < 8
    ensures BitUsed(byte, i) <==> Value(byte) / Weight(i) % 2 == 1
  {
    hide BitUsed, Value, Digit;
    ByteValue(byte);
    Digits(Value(byte), Digit(byte, 0), Digit(byte, 1), Digit(byte, 2), Digit(byte, 3),
           Digit(byte, 4), Digit(byte, 5), Digit(byte, 6), Digit(byte, 7));
  }

  /** By how much the value of a byte moves when a bit of the given weight is written. */
  function Moved(was: bool, used: bool, weight: int): int {
    if was == used then 0 else if used then weight else -weight
  }

  /** Writing a status bit moves the value of the byte by the weight of the bit, if the bit changes. */
  lemma UpdateMovesValue(used: bool, byte: bv8, i: nat)
    requires i < 8
    ensures Value(UpdateByte(used, byte, i)) == Value(byte) + Moved(BitUsed(byte, i), used, Weight(i))
  {
    hide UpdateByte, BitUsed, Value, Digit, Weight, WeightedSum, Moved;
    var after := UpdateByte(used, byte, i);
    ByteSum(byte);
    ByteSum(after);
    var was, now := DigitsOf(byte), DigitsOf(after);
    forall j: nat | j < 8
      ensures now[j] == if j == i then (if used then 1 else 0) else was[j]
    {
      UpdateByteBits(used, byte, i, j);
    }
    OneDigitMoves(was, now, i);
  }

  function DigitsOf(byte: bv8): (d: seq<int>)
    ensures |d| == 8 && forall j :: 0 <= j < 8 ==> d[j] == Digit(byte, j)
  {
    seq(8, j requires 0 <= j < 8 => Digit(byte, j))
  }

  function WeightedSum(d: seq<int>): int
    requires |d| == 8
  {
    128 * d[0] + 64 * d[1] + 32 * d[2] + 16 * d[3] + 8 * d[4] + 4 * d[5] + 2 * d[6] + d[7]
  }

  lemma ByteSum(byte: bv8)
    ensures Value(byte) == WeightedSum(DigitsOf(byte))
  {
    hide Value, Digit;
    ByteValue(byte);
  }

  lemma OneDigitMoves(a: seq<int>, b: seq<int>, i: nat)
    requires |a| == |b| == 8 && i < 8 && forall j :: 0 <= j < 8 && j != i ==> b[j] == a[j]
    requires 0 <= a[i] <= 1 && 0 <= b[i] <= 1
    ensures WeightedSum(b) == WeightedSum(a) + Moved(a[i] == 1, b[i] == 1, Weight(i))
  {
    match i
    case 0 =>
    case 1 =>
    case 2 =>
    case 3 =>
    case 4 =>
    case 5 =>
    case 6 =>
    case 7 =>
  }

  /** The `0xff` shortcut of the refill scan skips exactly the bytes with no free bit. */
  lemma FullByte(byte: bv8)
    ensures byte == 0xff <==> forall i: nat :: i < 8 ==> BitUsed(byte, i)
  {
    assert (byte == 0xff) == (BitUsed(byte, 0) && BitUsed(byte, 1) && BitUsed(byte, 2) && BitUsed(byte, 3)
      && BitUsed(byte, 4) && BitUsed(byte, 5) && BitUsed(byte, 6) && BitUsed(byte, 7));
  }

  lemma ZeroByte(i: nat)
    requires i < 8
    ensures !BitUsed(0, i)
  {
  }

  /** Distinct IDs occupy distinct bits: the index triple determines the ID. */
  lemma IndexesDetermineId(a: nat, b: nat)
    requires BlockOf(a) == BlockOf(b) && ByteOf(a) == ByteOf(b) && BitOf(a) == BitOf(b)
    ensures a == b
  {
    assert a % BLOCK_SIZE_IDS == ByteOf(a) * 8 + BitOf(a);
    assert b % BLOCK_SIZE_IDS == ByteOf(b) * 8 + BitOf(b);
  }

  lemma BlockKeyInjective(a: nat, b: nat)
    requires BlockKey(a) == BlockKey(b)
    ensures a == b
  {
  }

  /** Membership of `id` in the set of used IDs that the blocks represent. */
  predicate Used(blocks: Blocks, id: nat) {
    BlockKey(BlockOf(id)) in blocks && UsedIn(blocks[BlockKey(BlockOf(id))], id)
  }

  predicate UsedIn(block: seq<bv8>, id: nat) {
    |block| == BLOCK_SIZE_BYTES && BitUsed(block[ByteOf(id)], BitOf(id))
  }

  /** The stored form, in arithmetic: an ID is used exactly if its block is there whole and, in the byte at an
      eighth of its number within the block, the digit of its place is one. */
  lemma UsedInBytes(blocks: Blocks, id: nat)
    ensures Used(blocks, id) <==>
              var key := (id / 65536) * 0x1_0000_0000 + 0x5f66_736d;
              && key in blocks && |blocks[key]| == 8192
              && Value(blocks[key][id % 65536 / 8]) / Weight(id % 8) % 2 == 1
  {
    assert id % 65536 % 8 == id % 8;
    var key := BlockKey(BlockOf(id));
    if key in blocks && |blocks[key]| == BLOCK_SIZE_BYTES {
      BitIsDigit(blocks[key][ByteOf(id)], BitOf(id));
    }
    hide BitUsed, Weight, Value;
  }

  /** What a read-modify-write leaves in the store: one byte of one block, moved by the weight of the ID. */
  lemma WithBitInBytes(blocks: Blocks, id: nat, used: bool)
    requires BlockKey(BlockOf(id)) in blocks && |blocks[BlockKey(BlockOf(id))]| == BLOCK_SIZE_BYTES
    ensures var key, at := (id / 65536) * 0x1_0000_0000 + 0x5f66_736d, id % 65536 / 8;
            var before, after := blocks[key], WithBit(blocks, id, used);
            && after.Keys == blocks.Keys && (forall k :: k in blocks && k != key ==> after[k] == blocks[k])
            && |after[key]| == 8192 && (forall b :: 0 <= b < 8192 && b != at ==> after[key][b] == before[b])
            && Value(after[key][at]) == Value(before[at]) + Moved(Used(blocks, id), used, Weight(id % 8))
  {
    assert id % 65536 % 8 == id % 8;
    UpdateMovesValue(used, blocks[BlockKey(BlockOf(id))][ByteOf(id)], BitOf(id));
    hide UpdateByte, BitUsed, Weight, Value;
  }

  /** The key prefix is the text `_fsm`, most significant byte first. */
  lemma PrefixIsText()
    ensures FSM_KEY_PREFIX == (('_' as nat * 256 + 'f' as nat) * 256 + 's' as nat) * 256 + 'm' as nat
  {
  }

  /** The eight IDs from a multiple of eight on are the bits of one byte. */
  lemma ByteHolds(blocks: Blocks, from: nat, k: nat)
    requires from % 8 == 0 && k < 8
    requires BlockKey(BlockOf(from)) in blocks && |blocks[BlockKey(BlockOf(from))]| == BLOCK_SIZE_BYTES
    ensures Used(blocks, from + k) == BitUsed(blocks[BlockKey(BlockOf(from))][ByteOf(from)], k)
  {
    IndexesOfByte(from, k);
    hide BlockOf, ByteOf, BitOf, BlockKey, BitUsed;
  }

  lemma IndexesOfByte(from: nat, k: nat)
    requires from % 8 == 0 && k < 8
    ensures BlockOf(from + k) == BlockOf(from) && ByteOf(from + k) == ByteOf(from) && BitOf(from + k) == k
  {
    var b, m := from / BLOCK_SIZE_IDS, from % BLOCK_SIZE_IDS / 8;
    assert from % BLOCK_SIZE_IDS == 8 * m;
    assert from + k == BLOCK_SIZE_IDS * b + (8 * m + k);
  }

  lemma ByteWithin(block: nat, i: nat)
    requires i < BLOCK_SIZE_BYTES
    ensures BlockOf(block * BLOCK_SIZE_IDS + 8 * i) == block && ByteOf(block * BLOCK_SIZE_IDS + 8 * i) == i
    ensures (block * BLOCK_SIZE_IDS + 8 * i) % 8 == 0
  {
  }

  /** Every stored value is a whole block. */
  ghost predicate WholeBlocks(blocks: Blocks) {
    forall k :: k in blocks ==> |blocks[k]| == BLOCK_SIZE_BYTES
  }

  /** Stored values are whole blocks, and no block lies beyond the 32-bit IDs. */
  ghost predicate WellFormed(blocks: Blocks) {
    WholeBlocks(blocks) && forall b: nat :: BlockKey(b) in blocks ==> b < BLOCK_SIZE_IDS
  }

  /** Blocks `0 .. n` are stored. */
  ghost predicate Stored(blocks: Blocks, n: nat) { forall b: nat :: b < n ==> BlockKey(b) in blocks }

  /** Every used ID lies in one of the blocks `0 .. n`. */
  ghost predicate Within(blocks: Blocks, n: nat) { forall x: nat :: Used(blocks, x) ==> BlockOf(x) < n }

  ghost predicate Covers(blocks: Blocks, n: nat) { WholeBlocks(blocks) && Stored(blocks, n) && Within(blocks, n) }

  /** Where a scan for stored blocks from `b` on ends, if none of its existence reads fails. */
  function FirstMissing(blocks: Blocks, b: nat): nat
    decreases BLOCK_SIZE_IDS - b
  {
    if b < BLOCK_SIZE_IDS && BlockKey(b) in blocks then FirstMissing(blocks, b + 1) else b
  }

  lemma {:induction false} FirstMissingIs(blocks: Blocks, b: nat)
    requires b <= BLOCK_SIZE_IDS
    ensures b <= FirstMissing(blocks, b) <= BLOCK_SIZE_IDS
    ensures forall c: nat :: b <= c < FirstMissing(blocks, b) ==> BlockKey(c) in blocks
    ensures FirstMissing(blocks, b) < BLOCK_SIZE_IDS ==> BlockKey(FirstMissing(blocks, b)) !in blocks
    decreases BLOCK_SIZE_IDS - b
  {
    hide BlockKey;
    if b < BLOCK_SIZE_IDS && BlockKey(b) in blocks {
      FirstMissingIs(blocks, b + 1);
    }
  }

  /** A scan with no failed read sees every used ID, and at least the blocks counted before it. */
  lemma ScanCovers(blocks: Blocks, n: nat)
    requires Covers(blocks, n) && n <= BLOCK_SIZE_IDS
    ensures n <= FirstMissing(blocks, 0) <= BLOCK_SIZE_IDS && Covers(blocks, FirstMissing(blocks, 0))
  {
    hide BlockKey, Used, BlockOf;
    FirstMissingIs(blocks, 0);
  }

  function ZeroBlock(): seq<bv8> { seq(BLOCK_SIZE_BYTES, _ => 0) }

  /** The effect of the read-modify-write in `mark_id` on one block. */
  function BlockWith(block: seq<bv8>, id: nat, used: bool): seq<bv8>
    requires |block| == BLOCK_SIZE_BYTES
  {
    block[ByteOf(id) := UpdateByte(used, block[ByteOf(id)], BitOf(id))]
  }

  /** The effect of the read-modify-write in `mark_id` on the whole store. */
  function WithBit(blocks: Blocks, id: nat, used: bool): Blocks
    requires BlockKey(BlockOf(id)) in blocks && |blocks[BlockKey(BlockOf(id))]| == BLOCK_SIZE_BYTES
  {
    var key := BlockKey(BlockOf(id));
    blocks[key := BlockWith(blocks[key], id, used)]
  }

  lemma BlockWithBits(block: seq<bv8>, id: nat, used: bool, other: nat)
    requires |block| == BLOCK_SIZE_BYTES && BlockOf(other) == BlockOf(id)
    ensures UsedIn(BlockWith(block, id, used), other) == if other == id then used else UsedIn(block, other)
  {
    if ByteOf(other) == ByteOf(id) {
      UpdateByteBits(used, block[ByteOf(id)], BitOf(id), BitOf(other));
      if BitOf(other) == BitOf(id) {
        IndexesDetermineId(other, id);
      }
    }
  }

  /** One read-modify-write changes the membership of exactly one ID, across all blocks. */
  lemma WithBitMembership(blocks: Blocks, id: nat, used: bool, other: nat)
    requires BlockKey(BlockOf(id)) in blocks && |blocks[BlockKey(BlockOf(id))]| == BLOCK_SIZE_BYTES
    ensures Used(WithBit(blocks, id, used), other) == if other == id then used else Used(blocks, other)
  {
    if BlockOf(other) == BlockOf(id) {
      BlockWithBits(blocks[BlockKey(BlockOf(id))], id, used, other);
    } else if BlockKey(BlockOf(other)) == BlockKey(BlockOf(id)) {
      BlockKeyInjective(BlockOf(other), BlockOf(id));
    }
  }

  lemma ZeroBlockUnused(id: nat)
    ensures !UsedIn(ZeroBlock(), id)
  {
    ZeroByte(BitOf(id));
  }

  /** Writing a zero block under a key that holds no used ID changes no membership. */
  lemma AddZeroBlock(blocks: Blocks, b: nat, id: nat)
    requires BlockOf(id) == b ==> !Used(blocks, id)
    ensures Used(blocks[BlockKey(b) := ZeroBlock()], id) == Used(blocks, id)
  {
    if BlockOf(id) == b {
      ZeroBlockUnused(id);
    } else if BlockKey(BlockOf(id)) == BlockKey(b) {
      BlockKeyInjective(BlockOf(id), b);
    }
  }
}
