/** The chunks of a Umem: bounds, disjointness and descriptors. */
module Chunks {
  import opened Options
  import opened Words

  /** `UmemChunk`: `length` bytes at `offset` from the start of the area. */
  datatype Chunk = Chunk(offset: nat, length: nat)

  /** `XdpDesc`. */
  datatype Desc = Desc(addr: nat, len: U32, options: U32)

  /** `Umem::frame`; the area is `area` bytes, the configured frame size is `pitch`. */
  function Frame(area: nat, pitch: U32, idx: U32): Option<Chunk> {
    var offset := pitch * idx;
    // `checked_sub` yields None below zero, which compares less than every Some.
    if area < pitch || area - pitch < offset then None
    else Some(Chunk(offset, pitch))
  }

  /** `Umem::len_frames`; the frame size is asserted positive when the Umem is made. */
  function LenFrames(area: nat, pitch: U32): U32
    requires pitch > 0
  {
    if area / pitch < MODULUS then area / pitch else MODULUS - 1
  }

  function AsXdpWithLen(c: Chunk, len: U32): Desc { Desc(c.offset, len, 0) }

  /** `UmemChunk::as_xdp`, with its truncating cast of the length. */
  function AsXdp(c: Chunk): Desc { AsXdpWithLen(c, Low(c.length)) }

  /** The bytes that a descriptor names. */
  ghost predicate InArea(area: nat, d: Desc) { d.addr + d.len <= area }

  ghost predicate Apart(a: Desc, b: Desc) { a.addr + a.len <= b.addr || b.addr + b.len <= a.addr }

  lemma Product(a: int, b: int)
    ensures a * (b + 1) == a * b + a
  {
  }

  /** A frame exists exactly when its last byte is inside the area. */
  lemma FrameExactly(area: nat, pitch: U32, idx: U32)
    ensures Frame(area, pitch, idx).Some? <==> pitch * (idx + 1) <= area
  {
    Product(pitch, idx);
    assert pitch * idx >= 0;
  }

  lemma ProductOrder(d: nat, a: int, b: int)
    requires a <= b
    ensures d * a <= d * b
  {
    if a < b {
      Distributes(d, b, a);
      AtLeastOnce(d, b - a);
    }
  }

  lemma QuotientExactly(area: nat, d: nat, k: nat)
    requires d > 0
    ensures d * k <= area <==> k <= area / d
  {
    var q := DivisionParts(area, d);
    DivisionUnique(d, q, area % d, area / d, area % d);
    if k <= q {
      ProductOrder(d, k, q);
    } else {
      ProductOrder(d, q + 1, k);
      Product(d, q);
    }
  }

  /**
   `len_frames` counts the frames, except that it saturates: index 2^32 - 1 still names a frame when the
   area holds 2^32 of them.
   */
  lemma FramesCounted(area: nat, pitch: U32, idx: U32)
    requires pitch > 0
    ensures Frame(area, pitch, idx).Some?
            <==> idx < LenFrames(area, pitch) || (idx == MODULUS - 1 && area / pitch >= MODULUS)
  {
    FrameExactly(area, pitch, idx);
    QuotientExactly(area, pitch, idx + 1);
  }

  /** The cast of `as_xdp` loses nothing: the descriptor covers exactly the frame, inside the area. */
  lemma WholeFrame(area: nat, pitch: U32, idx: U32)
    requires Frame(area, pitch, idx).Some?
    ensures var d := AsXdp(Frame(area, pitch, idx).value);
            InArea(area, d) && d == Desc(pitch * idx, pitch, 0)
  {
    FrameExactly(area, pitch, idx);
    LowOfWord(pitch);
    hide Low;
  }

  /** Cut to any length up to the frame size, a descriptor names that many bytes from the start of its frame. */
  lemma CutDescriptor(area: nat, pitch: U32, idx: U32, m: U32)
    requires Frame(area, pitch, idx).Some? && m <= pitch
    ensures var d := AsXdpWithLen(Frame(area, pitch, idx).value, m);
            d == Desc(pitch * idx, m, 0) && InArea(area, d)
  {
    FrameExactly(area, pitch, idx);
    Product(pitch, idx);
  }

  /**
   Descriptors of different frames never share a byte, whatever lengths they are cut to, up to the frame
   size that the debug assertion of `as_xdp_with_len` demands.
   */
  lemma DescriptorsApart(area: nat, pitch: U32, i: U32, j: U32, m: U32, n: U32)
    requires i != j && Frame(area, pitch, i).Some? && Frame(area, pitch, j).Some?
    requires m <= pitch && n <= pitch
    ensures Apart(AsXdpWithLen(Frame(area, pitch, i).value, m), AsXdpWithLen(Frame(area, pitch, j).value, n))
  {
    if i < j {
      ProductOrder(pitch, i + 1, j);
      Product(pitch, i);
    } else {
      ProductOrder(pitch, j + 1, i);
      Product(pitch, j);
    }
  }
}
