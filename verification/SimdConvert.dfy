/** The generic slice conversion: eight vector chunks per round, then single chunks, then one last chunk
    that overlaps what is already done so that it ends exactly at the end of the slice. */
module SimdConvert {
  import opened ByteStrings

  const UNROLL: nat := 8

  /** Load `width` elements at `at`, convert them, store them at `at`. */
  method ConvertChunk<From, To>(f: From -> To, dst: array<To>, src: array<From>, at: nat, width: nat)
    requires at + width <= dst.Length == src.Length
    requires dst as object != src as object
    modifies dst
    ensures forall j :: 0 <= j < dst.Length ==> dst[j] == if at <= j < at + width then f(src[j]) else old(dst[j])
  {
    for k := 0 to width
      invariant forall j :: 0 <= j < dst.Length ==> dst[j] == if at <= j < at + k then f(src[j]) else old(dst[j])
    {
      dst[at + k] := f(src[at + k]);
    }
  }

  /** The unrolled body: eight chunks one after the other. */
  method ConvertEight<From, To>(f: From -> To, dst: array<To>, src: array<From>, at: nat, width: nat)
    requires at + UNROLL * width <= dst.Length == src.Length
    requires dst as object != src as object
    modifies dst
    ensures forall j :: 0 <= j < dst.Length ==> dst[j] == if at <= j < at + UNROLL * width then f(src[j]) else old(dst[j])
  {
    ConvertChunk(f, dst, src, at, width);
    ConvertChunk(f, dst, src, at + width, width);
    ConvertChunk(f, dst, src, at + 2 * width, width);
    ConvertChunk(f, dst, src, at + 3 * width, width);
    ConvertChunk(f, dst, src, at + 4 * width, width);
    ConvertChunk(f, dst, src, at + 5 * width, width);
    ConvertChunk(f, dst, src, at + 6 * width, width);
    ConvertChunk(f, dst, src, at + 7 * width, width);
  }

  /** For every length and every positive width, every destination element ends as the conversion of the
      source element at its own index. Lengths that differ are rejected before anything is written. */
  method SimdConvert<From, To>(f: From -> To, dst: array<To>, src: array<From>, width: nat) returns (ok: bool)
    requires width > 0 && dst as object != src as object
    modifies dst
    ensures ok <==> dst.Length == src.Length
    ensures ok ==> forall j :: 0 <= j < dst.Length ==> dst[j] == f(src[j])
    ensures !ok ==> dst[..] == old(dst[..])
  {
    var len := dst.Length;
    if len != src.Length {
      return false;
    }
    ok := true;
    if len < width {
      ConvertChunk(f, dst, src, 0, len);
      return;
    }
    var i := 0;
    ghost var chunks := 0;
    while i + UNROLL * width <= len
      invariant 0 <= i <= len && i == chunks * width && 0 <= chunks
      invariant forall j :: 0 <= j < i ==> dst[j] == f(src[j])
      decreases len - i
    {
      ConvertEight(f, dst, src, i, width);
      MoreChunks(chunks, UNROLL, width);
      i := i + UNROLL * width;
      chunks := chunks + UNROLL;
    }
    while i + width <= len
      invariant 0 <= i <= len && i == chunks * width && 0 <= chunks
      invariant forall j :: 0 <= j < i ==> dst[j] == f(src[j])
      decreases len - i
    {
      ConvertChunk(f, dst, src, i, width);
      MoreChunks(chunks, 1, width);
      i := i + width;
      chunks := chunks + 1;
    }
    if i != len {
      TailOffset(len, width, chunks, i);
      var offset := i - (width - len % width);
      ConvertChunk(f, dst, src, offset, width);
    }
  }

  lemma MoreChunks(chunks: nat, more: nat, width: nat)
    ensures (chunks + more) * width == chunks * width + more * width
  {
  }

  /** After whole chunks up to `i`, the remainder is `len % width` and the last chunk ends at `len`. */
  lemma TailOffset(len: nat, width: nat, chunks: nat, i: nat)
    requires width > 0 && i == chunks * width && i <= len < i + width && width <= len
    ensures len % width == len - i
    ensures i != len ==> 0 <= i - (width - len % width) && i - (width - len % width) + width == len
  {
    DivModIs(len, chunks, len - i, width);
    MultipleIsLarge(chunks, width);
  }
}
