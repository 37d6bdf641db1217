/** The caller-owned output buffers of a search: distances, and IDs as length-prefixed byte strings. */
module ResultBuffer {
  import opened Collections
  import opened ByteStrings

  const PREFIX: nat := 4

  /** An ID as it is laid out: its length as a 32-bit little-endian word, then its bytes. */
  function Prefixed(id: seq<byte>): seq<byte> { ToLe(LengthWord(id), PREFIX) + id }

  /** `id.len() as u32` */
  function LengthWord(id: seq<byte>): nat { |id| % U32_LIMIT }

  /** A sequence of IDs as it is laid out. */
  function Layout(ids: seq<seq<byte>>): seq<byte> {
    if ids == [] then [] else Layout(ids[..|ids| - 1]) + Prefixed(ids[|ids| - 1])
  }

  lemma LayoutAppend(ids: seq<seq<byte>>, id: seq<byte>)
    ensures Layout(ids + [id]) == Layout(ids) + Prefixed(id)
  {
    hide Prefixed;
    assert (ids + [id])[..|ids|] == ids;
  }

  /** Write the length word and then the bytes. */
  method WriteId(ids: array<byte>, at: nat, id: seq<byte>)
    requires at + PREFIX + |id| <= ids.Length
    modifies ids
    ensures ids[..at + PREFIX + |id|] == old(ids[..at]) + Prefixed(id)
    ensures ids[at + PREFIX + |id|..] == old(ids[at + PREFIX + |id|..])
  {
    var prefix := ToLe(LengthWord(id), PREFIX);
    CopyInto(ids, at, prefix);
    CopyInto(ids, at + PREFIX, id);
    assert ids[..at + PREFIX + |id|] == old(ids[..at]) + prefix + id;
    assert old(ids[..at]) + prefix + id == old(ids[..at]) + Prefixed(id);
  }

  datatype BufferState = Available | Full

  class SearchResults {
    const ids: array<byte>
    const dists: array<real>
    var index: nat
    var idIndex: nat
    /** The IDs accepted so far. */
    ghost var accepted: seq<seq<byte>>
    ghost var distances: seq<real>

    constructor (ids: array<byte>, dists: array<real>)
      ensures Valid() && accepted == [] && distances == [] && this.ids == ids && this.dists == dists
    {
      this.ids, this.dists := ids, dists;
      index, idIndex := 0, 0;
      accepted, distances := [], [];
    }

    /** The used parts of both buffers are exactly the accepted IDs and their distances. */
    ghost predicate Valid()
      reads this, ids, dists
    {
      && index <= dists.Length && idIndex <= ids.Length
      && |accepted| == |distances| == index
      && ids[..idIndex] == Layout(accepted)
      && dists[..index] == distances
    }

    /** There is a free distance slot and room for the prefix and the bytes. */
    predicate Fits(id: seq<byte>)
      reads this
    {
      index < dists.Length && idIndex + PREFIX + |id| <= ids.Length
    }

    /** Append to the used distances. */
    method WriteDistance(distance: real)
      requires index < dists.Length && dists[..index] == distances
      modifies this`index, this`distances, dists
      ensures index == old(index) + 1 && distances == old(distances) + [distance] && dists[..index] == distances
    {
      dists[index] := distance;
      index := index + 1;
      distances := distances + [distance];
    }

    /** Accept a result if it fits, change nothing if it does not; report whether the buffers are full. */
    method Push(id: seq<byte>, distance: real) returns (r: BufferState)
      requires Valid()
      modifies this, ids, dists
      ensures Valid()
      ensures !old(Fits(id)) ==> r == Full && accepted == old(accepted) && distances == old(distances)
                                 && ids[..] == old(ids[..]) && dists[..] == old(dists[..])
      ensures old(Fits(id)) ==> accepted == old(accepted) + [id] && distances == old(distances) + [distance]
                                && (r == Full <==> index == dists.Length || idIndex == ids.Length)
      ensures old(Fits(id)) ==> ids[idIndex..] == old(ids[..])[idIndex..]
    {
      if index >= dists.Length || idIndex + PREFIX + |id| > ids.Length {
        return Full;
      }
      hide Layout, Prefixed;
      LayoutAppend(accepted, id);
      WriteId(ids, idIndex, id);
      WriteDistance(distance);
      idIndex := idIndex + PREFIX + |id|;
      accepted := accepted + [id];
      r := if index >= dists.Length || idIndex >= ids.Length then Full else Available;
    }

    /** Push until the buffers report full; returns how many were accepted. The accepted ones are a
        prefix of the input. */
    method Extend(items: seq<(seq<byte>, real)>) returns (n: nat)
      requires Valid()
      modifies this, ids, dists
      ensures Valid() && n <= |items| && n == index - old(index)
      ensures accepted == old(accepted) + Ids(items[..n]) && distances == old(distances) + Ds(items[..n])
      ensures n < |items| ==> index == dists.Length || idIndex == ids.Length
                              || idIndex + PREFIX + |items[n].0| > ids.Length
    {
      var initial := index;
      n := 0;
      while n < |items|
        invariant Valid() && n <= |items| && index == initial + n
        invariant accepted == old(accepted) + Ids(items[..n]) && distances == old(distances) + Ds(items[..n])
        decreases |items| - n
      {
        var had := index;
        var r := Push(items[n].0, items[n].1);
        if index > had {
          assert Ids(items[..n + 1]) == Ids(items[..n]) + [items[n].0];
          assert Ds(items[..n + 1]) == Ds(items[..n]) + [items[n].1];
          n := n + 1;
        }
        if r == Full { break; }
      }
    }
  }

  function Ids(items: seq<(seq<byte>, real)>): seq<seq<byte>> { seq(|items|, i requires 0 <= i < |items| => items[i].0) }

  function Ds(items: seq<(seq<byte>, real)>): seq<real> { seq(|items|, i requires 0 <= i < |items| => items[i].1) }

  // ---------------------------------------------------------------- reading back

  /** The reader of the search tests: `count` times a length word and that many bytes; all of the buffer
      must be consumed. */
  method ParseIds(buffer: seq<byte>, count: nat, ghost ids: seq<seq<byte>>) returns (result: seq<seq<byte>>)
    requires buffer == Layout(ids) && count == |ids| && Short(ids)
    ensures result == ids
  {
    result := [];
    var offset := 0;
    for n := 0 to count
      invariant offset == |Layout(ids[..n])| <= |buffer|
      invariant result == ids[..n]
    {
      LayoutAt(ids, n);
      var len := FromLe(buffer[offset..offset + PREFIX]);
      offset := offset + PREFIX;
      result := result + [buffer[offset..offset + len]];
      offset := offset + len;
    }
    assert ids[..count] == ids;
    assert offset == |buffer|;
  }

  /** Lengths fit the 32-bit prefix. */
  ghost predicate Short(ids: seq<seq<byte>>) { forall i :: 0 <= i < |ids| ==> |ids[i]| < U32_LIMIT }

  lemma {:induction false} LayoutSplit(ids: seq<seq<byte>>, n: nat)
    requires n <= |ids|
    ensures Layout(ids[..n]) <= Layout(ids)
    decreases |ids| - n
  {
    if n < |ids| {
      LayoutSplit(ids[..|ids| - 1], n);
      assert ids[..|ids| - 1][..n] == ids[..n];
    } else {
      assert ids[..n] == ids;
    }
  }

  /** The `n`-th ID starts where the layout of those before it ends. */
  lemma LayoutAt(ids: seq<seq<byte>>, n: nat)
    requires n < |ids| && Short(ids)
    ensures var at := |Layout(ids[..n])|;
            && at + PREFIX + |ids[n]| == |Layout(ids[..n + 1])| <= |Layout(ids)|
            && FromLe(Layout(ids)[at..at + PREFIX]) == |ids[n]|
            && Layout(ids)[at + PREFIX..at + PREFIX + |ids[n]|] == ids[n]
  {
    hide ToLe, FromLe;
    var at, word := |Layout(ids[..n])|, ToLe(|ids[n]|, PREFIX);
    assert ids[..n + 1][..n] == ids[..n];
    LayoutSplit(ids, n + 1);
    assert Layout(ids[..n + 1]) == Layout(ids[..n]) + word + ids[n];
    Pieces(Layout(ids), Layout(ids[..n]), word, ids[n]);
    assert Pow256(4) == U32_LIMIT by { assert Pow256(2) == 65536; }
    LeRoundTrip(|ids[n]|, PREFIX);
  }

  lemma Pieces(whole: seq<byte>, a: seq<byte>, b: seq<byte>, c: seq<byte>)
    requires a + b + c <= whole
    ensures whole[|a|..|a| + |b|] == b && whole[|a| + |b|..|a| + |b| + |c|] == c
  {
    var front := a + b + c;
    assert whole[..|front|] == front;
    assert whole[|a|..|a| + |b|] == front[|a|..|a| + |b|] == b;
    assert whole[|a| + |b|..|a| + |b| + |c|] == front[|a| + |b|..|a| + |b| + |c|] == c;
  }

  /** The layout determines the IDs: two accepted sequences with equal bytes and equal counts are equal. */
  lemma {:induction false} LayoutInjective(a: seq<seq<byte>>, b: seq<seq<byte>>)
    requires Short(a) && Short(b) && |a| == |b| && Layout(a) == Layout(b)
    ensures a == b
  {
    AgreeUpTo(a, b, |a|);
    assert a[..|a|] == a && b[..|b|] == b;
  }

  lemma {:induction false} AgreeUpTo(a: seq<seq<byte>>, b: seq<seq<byte>>, n: nat)
    requires Short(a) && Short(b) && |a| == |b| && Layout(a) == Layout(b) && n <= |a|
    ensures a[..n] == b[..n]
  {
    hide Layout, FromLe;
    if n > 0 {
      AgreeUpTo(a, b, n - 1);
      LayoutAt(a, n - 1);
      LayoutAt(b, n - 1);
      assert a[..n] == a[..n - 1] + [a[n - 1]] && b[..n] == b[..n - 1] + [b[n - 1]];
    }
  }
}
