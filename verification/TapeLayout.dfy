/** The tape: clusters of records, each padded to whole chunks, one after another, and the segment
    table that tells the searcher where each cluster starts. */
module TapeLayout {
  import opened ByteStrings
  import opened TapeRecord

  datatype Cluster = Cluster(cls: int, records: seq<Record>)

  datatype Segment = Segment(numVectors: nat, byteOffset: nat, lengthBytes: nat)

  /** An entry of the segment table: where a cluster lies, and its scale and zero point per dimension. */
  datatype ClusterInfo = ClusterInfo(segment: Segment, scale: seq<real>, zp: seq<real>)

  ghost predicate AllFit(rs: seq<Record>) { forall r :: r in rs ==> Fits(r) }

  /** The packed records of one cluster. */
  function Pack(rs: seq<Record>): (b: seq<byte>)
    requires AllFit(rs)
    ensures |b| == RECORD_BYTES * |rs|
  {
    if rs == [] then []
    else
      assert rs[|rs| - 1] in rs;
      Pack(rs[..|rs| - 1]) + Encode(rs[|rs| - 1])
  }

  function Padding(n: nat, chunk: nat): nat
    requires chunk > 0
  {
    (chunk - n % chunk) % chunk
  }

  function SegmentBytes(rs: seq<Record>, chunk: nat): seq<byte>
    requires chunk > 0 && AllFit(rs)
  {
    Pack(rs) + seq(Padding(|Pack(rs)|, chunk), _ => 0)
  }

  ghost predicate Writable(cs: seq<Cluster>) {
    && (forall c :: c in cs ==> AllFit(c.records))
    && forall i, j :: 0 <= i < j < |cs| ==> cs[i].cls != cs[j].cls
  }

  /** The whole file. */
  ghost function TapeOf(cs: seq<Cluster>, chunk: nat): seq<byte>
    requires chunk > 0 && forall c :: c in cs ==> AllFit(c.records)
  {
    if cs == [] then []
    else
      assert cs[|cs| - 1] in cs;
      TapeOf(cs[..|cs| - 1], chunk) + SegmentBytes(cs[|cs| - 1].records, chunk)
  }

  /** Where cluster `i` starts. */
  ghost function Offset(cs: seq<Cluster>, chunk: nat, i: nat): nat
    requires chunk > 0 && (forall c :: c in cs ==> AllFit(c.records)) && i <= |cs|
  {
    |TapeOf(cs[..i], chunk)|
  }

  /** The table entry of cluster `i`. */
  ghost function EntryOf(cs: seq<Cluster>, chunk: nat, i: nat): Segment
    requires chunk > 0 && (forall c :: c in cs ==> AllFit(c.records)) && i < |cs|
  {
    assert cs[i] in cs;
    Segment(|cs[i].records|, Offset(cs, chunk, i), |SegmentBytes(cs[i].records, chunk)|)
  }

  lemma EmptyTape(cs: seq<Cluster>, chunk: nat)
    requires chunk > 0
    ensures TapeOf(cs[..0], chunk) == []
  {
  }

  /** Append one cluster to the file: its packed records, then zeroes up to the next chunk boundary. */
  method WriteCluster(tape: seq<byte>, currentOffset: nat, rs: seq<Record>, chunk: nat)
    returns (tape': seq<byte>, segment: Segment)
    requires chunk > 0 && AllFit(rs) && currentOffset == |tape|
    ensures tape' == tape + SegmentBytes(rs, chunk)
    ensures segment == Segment(|rs|, |tape|, |SegmentBytes(rs, chunk)|)
  {
    hide Pack, AllFit, Padding;
    var blob := Pack(rs);
    var padding := Padding(|blob|, chunk);
    tape' := tape + blob;
    tape' := tape' + seq(padding, _ => 0);
    segment := Segment(|rs|, currentOffset, |blob| + padding);
  }

  lemma TapeGrows(cs: seq<Cluster>, chunk: nat, n: nat)
    requires chunk > 0 && (forall c :: c in cs ==> AllFit(c.records)) && n < |cs|
    ensures AllFit(cs[n].records)
    ensures TapeOf(cs[..n + 1], chunk) == TapeOf(cs[..n], chunk) + SegmentBytes(cs[n].records, chunk)
    ensures EntryOf(cs, chunk, n)
            == Segment(|cs[n].records|, |TapeOf(cs[..n], chunk)|, |SegmentBytes(cs[n].records, chunk)|)
  {
    hide Pack, AllFit, SegmentBytes;
    assert cs[n] in cs && cs[..n + 1][..n] == cs[..n];
  }

  // ---------------------------------------------------------------- shape of the file

  lemma PaddingAligns(n: nat, chunk: nat)
    requires chunk > 0
    ensures (n + Padding(n, chunk)) % chunk == 0 && Padding(n, chunk) < chunk
  {
    var q, r := n / chunk, n % chunk;
    assert n == q * chunk + r;
    if r == 0 {
      DivModIs(chunk, 1, 0, chunk);
    } else {
      DivModIs(chunk - r, 0, chunk - r, chunk);
      assert n + (chunk - r) == (q + 1) * chunk;
      DivModIs(n + (chunk - r), q + 1, 0, chunk);
    }
  }

  lemma AlignedSum(a: nat, b: nat, m: nat)
    requires m > 0 && a % m == 0 && b % m == 0
    ensures (a + b) % m == 0
  {
    var s, t := a / m, b / m;
    assert a == s * m && b == t * m;
    assert (s + t) * m == s * m + t * m;
    DivModIs(a + b, s + t, 0, m);
  }

  /** Segments start and end on chunk boundaries, follow one another without gap or overlap, and end
      where the file ends. */
  lemma {:induction false} SegmentsTile(cs: seq<Cluster>, chunk: nat, i: nat)
    requires chunk > 0 && (forall c :: c in cs ==> AllFit(c.records)) && i < |cs|
    ensures cs[i] in cs
    ensures var len := |SegmentBytes(cs[i].records, chunk)|;
            && Offset(cs, chunk, 0) == 0 && Offset(cs, chunk, |cs|) == |TapeOf(cs, chunk)|
            && Offset(cs, chunk, i + 1) == Offset(cs, chunk, i) + len
            && Offset(cs, chunk, i) % chunk == 0 && len % chunk == 0
            && RECORD_BYTES * |cs[i].records| <= len < RECORD_BYTES * |cs[i].records| + chunk
  {
    hide Pack, AllFit;
    assert cs[i] in cs;
    assert cs[..i + 1][..i] == cs[..i] && cs[..|cs|] == cs;
    PaddingAligns(RECORD_BYTES * |cs[i].records|, chunk);
    if i > 0 {
      SegmentsTile(cs, chunk, i - 1);
      AlignedSum(Offset(cs, chunk, i - 1), |SegmentBytes(cs[i - 1].records, chunk)|, chunk);
    }
  }

  lemma {:induction false} OffsetsOrdered(cs: seq<Cluster>, chunk: nat, i: nat, j: nat)
    requires chunk > 0 && (forall c :: c in cs ==> AllFit(c.records)) && i <= j <= |cs|
    ensures TapeOf(cs[..i], chunk) <= TapeOf(cs[..j], chunk)
    ensures Offset(cs, chunk, i) <= Offset(cs, chunk, j)
    decreases j - i
  {
    if i < j {
      OffsetsOrdered(cs, chunk, i, j - 1);
      assert cs[..j][..j - 1] == cs[..j - 1];
    }
  }

  /** A segment read at its table entry is the packed cluster. */
  lemma SegmentAt(cs: seq<Cluster>, chunk: nat, i: nat)
    requires chunk > 0 && (forall c :: c in cs ==> AllFit(c.records)) && i < |cs|
    ensures cs[i] in cs
    ensures var off, bytes := Offset(cs, chunk, i), SegmentBytes(cs[i].records, chunk);
            off + |bytes| <= |TapeOf(cs, chunk)| && TapeOf(cs, chunk)[off..off + |bytes|] == bytes
  {
    hide SegmentBytes;
    assert cs[i] in cs;
    assert cs[..i + 1][..i] == cs[..i] && cs[..|cs|] == cs;
    OffsetsOrdered(cs, chunk, i + 1, |cs|);
    var bytes, before, upto := SegmentBytes(cs[i].records, chunk), TapeOf(cs[..i], chunk), TapeOf(cs[..i + 1], chunk);
    assert upto == before + bytes;
    hide TapeOf;
    var tape := TapeOf(cs, chunk);
    assert tape[0..0 + |upto|] == upto;
    SubSlice(tape, 0, upto, |before|, |upto|);
    assert upto[|before|..|upto|] == bytes;
  }

  lemma {:induction false} PackAt(rs: seq<Record>, v: nat)
    requires AllFit(rs) && v < |rs|
    ensures rs[v] in rs && Pack(rs)[RECORD_BYTES * v..RECORD_BYTES * v + RECORD_BYTES] == Encode(rs[v])
  {
    assert rs[v] in rs;
    var n := |rs| - 1;
    if v < n {
      PackAt(rs[..n], v);
      assert Pack(rs)[..RECORD_BYTES * n] == Pack(rs[..n]);
      assert Pack(rs)[RECORD_BYTES * v..RECORD_BYTES * v + RECORD_BYTES]
        == Pack(rs[..n])[RECORD_BYTES * v..RECORD_BYTES * v + RECORD_BYTES];
    }
  }

  /** Record `v` of a buffer that holds a segment from `at` on. */
  function RecordIn(buffer: seq<byte>, at: nat, v: nat): Record
    requires at + RECORD_BYTES * v + RECORD_BYTES <= |buffer|
  {
    Decode(buffer[at + RECORD_BYTES * v..at + RECORD_BYTES * v + RECORD_BYTES])
  }

  /** Wherever a segment has been copied to, its `v`-th record decodes to the cluster's `v`-th vector. */
  lemma RecordsReadBack(buffer: seq<byte>, at: nat, rs: seq<Record>, chunk: nat, v: nat)
    requires chunk > 0 && AllFit(rs) && v < |rs|
    requires var bytes := SegmentBytes(rs, chunk); at + |bytes| <= |buffer| && buffer[at..at + |bytes|] == bytes
    ensures at + RECORD_BYTES * v + RECORD_BYTES <= |buffer|
    ensures RecordIn(buffer, at, v) == rs[v]
  {
    hide Pack, Encode, Decode, Fits;
    PackAt(rs, v);
    RecordRoundTrip(rs[v]);
    var bytes, pack := SegmentBytes(rs, chunk), Pack(rs);
    var lo, hi := RECORD_BYTES * v, RECORD_BYTES * v + RECORD_BYTES;
    assert bytes[0..0 + |pack|] == pack;
    SubSlice(bytes, 0, pack, lo, hi);
    SubSlice(buffer, at, bytes, lo, hi);
  }
}
