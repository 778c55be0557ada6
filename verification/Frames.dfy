// Stream frames and the protocol constants shared by the transport modules.
module Frames {
  import opened Common

  type Byte = b: int | 0 <= b < 256

  // Largest value of the 64-bit byte counter.
  const MAX_BYTE_COUNT: nat := 0xFFFF_FFFF_FFFF_FFFF

  // Limit on the number of gaps a frame sorter keeps.
  const MAX_SORTER_GAPS: nat := 2500

  /** A STREAM frame: `data` sits at byte position `offset` of its stream. */
  datatype Frame = Frame(
    streamID: StreamID,
    fin: bool,
    dataLenPresent: bool,
    offset: nat,
    data: seq<Byte>)
  {
    function End(): nat { offset + |data| }

    /** The part of this frame that lies in [lo, hi); every flag is kept. */
    function Slice(lo: nat, hi: nat): Frame
      requires offset <= lo <= hi <= End()
    {
      this.(offset := lo, data := data[lo - offset..hi - offset])
    }

    /** The frame carries exactly the bytes of `source` at its own offset. */
    predicate Agrees(source: seq<Byte>)
    {
      End() <= |source| && data == source[offset..End()]
    }
  }

  // Number of bytes needed for a stream ID on the wire.
  function StreamIDLength(id: StreamID): nat
  {
    if id < 0x100 then 1 else if id < 0x1_0000 then 2 else if id < 0x100_0000 then 3 else 4
  }

  // Number of bytes needed for a stream offset on the wire.
  function OffsetLength(offset: nat): nat
  {
    if offset == 0 then 0
    else if offset < 0x1_0000 then 2
    else if offset < 0x100_0000 then 3
    else if offset < 0x1_0000_0000 then 4
    else if offset < 0x100_0000_0000 then 5
    else if offset < 0x1_0000_0000_0000 then 6
    else if offset < 0x100_0000_0000_0000 then 7
    else 8
  }

  function Pow256(n: nat): nat
  {
    if n == 0 then 1 else 256 * Pow256(n - 1)
  }

  /** The lengths are the least that hold the number: from one byte on for a stream ID and from two on for
      an offset, of which 0 needs none. */
  lemma LengthsMinimal(id: StreamID, offset: nat)
    requires id < 0x1_0000_0000 && offset <= MAX_BYTE_COUNT
    ensures var n := StreamIDLength(id); 1 <= n <= 4 && id < Pow256(n) && (n > 1 ==> id >= Pow256(n - 1))
    ensures var n := OffsetLength(offset);
      && (n == 0 <==> offset == 0)
      && (offset > 0 ==> 2 <= n <= 8 && offset < Pow256(n) && (n > 2 ==> offset >= Pow256(n - 1)))
  {
    assert Pow256(0) == 1 && Pow256(1) == 0x100 && Pow256(2) == 0x1_0000;
    assert Pow256(3) == 0x100_0000 && Pow256(4) == 0x1_0000_0000;
    assert Pow256(5) == 0x100_0000_0000 && Pow256(6) == 0x1_0000_0000_0000;
    assert Pow256(7) == 0x100_0000_0000_0000 && Pow256(8) == MAX_BYTE_COUNT + 1;
  }

  // Length of the frame header; the whole frame is this plus the data.
  function MinLength(f: Frame): nat
  {
    1 + StreamIDLength(f.streamID) + OffsetLength(f.offset) + if f.dataLenPresent then 2 else 0
  }

  function WireLength(f: Frame): nat
  {
    MinLength(f) + |f.data|
  }
}
