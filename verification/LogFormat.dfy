/**
 The log format (`db/log_format.h`, `db/log_writer.cc`): records cut into fragments that never cross
 a block boundary, each with a checksum, a length and a type.
*/
module LogFormat {
  import opened Coding
  import Crc32c

  const BLOCK_SIZE: nat := 32768
  const HEADER_SIZE: nat := 7

  const FULL: Byte := 1
  const FIRST: Byte := 2
  const MIDDLE: Byte := 3
  const LAST: Byte := 4

  type Word32 = x: nat | x < TWO_32

  /** The checksum of a string; `LogChecksum.Value` is the one in use. */
  type Checksum = seq<Byte> -> Word32

  // ---------- layout ----------

  /** Zero bytes before the next fragment: a block with less room than a header is filled up. */
  function Pad(pos: nat): nat {
    if BLOCK_SIZE - pos % BLOCK_SIZE < HEADER_SIZE then BLOCK_SIZE - pos % BLOCK_SIZE else 0
  }

  /** How many bytes fit behind the header of the next fragment. */
  function Room(pos: nat): (n: nat)
    ensures n < 0x1_0000
  {
    BLOCK_SIZE - HEADER_SIZE - if Pad(pos) > 0 then 0 else pos % BLOCK_SIZE
  }

  /** A fragment that takes all the room ends its block. */
  lemma FilledBlock(pos: nat)
    ensures (pos + Pad(pos) + HEADER_SIZE + Room(pos)) % BLOCK_SIZE == 0
    ensures Room(pos + Pad(pos) + HEADER_SIZE + Room(pos)) == BLOCK_SIZE - HEADER_SIZE
  {
    var q := pos / BLOCK_SIZE;
    assert pos + Pad(pos) + HEADER_SIZE + Room(pos) == (q + if Pad(pos) > 0 then 2 else 1) * BLOCK_SIZE;
  }

  /**
   Where fragments are: behind fewer than seven bytes of padding that end a block, and within one block, which the
   fragment fills to its end if it does not have all of the record.
  */
  lemma FragmentPlace(pos: nat, left: nat)
    ensures Pad(pos) < 7 && (Pad(pos) > 0 ==> (pos + Pad(pos)) % 32768 == 0)
    ensures var offset, n := (pos + Pad(pos)) % 32768, FirstSize(pos, left);
      offset + 7 + n <= 32768 && n <= left && (n < left ==> offset + 7 + n == 32768)
  {
    if Pad(pos) > 0 {
      FilledBlock(pos);
      assert pos + Pad(pos) == (pos / BLOCK_SIZE + 1) * BLOCK_SIZE;
    }
  }

  function TypeOf(begin: bool, end: bool): Byte {
    if begin && end then FULL else if begin then FIRST else if end then LAST else MIDDLE
  }

  /** One physical record. */
  function Fragment(crc: Checksum, t: Byte, payload: seq<Byte>): (s: seq<Byte>)
    requires |payload| < 0x1_0000
    ensures |s| == HEADER_SIZE + |payload|
  {
    Fixed(Crc32c.Mask(crc([t] + payload)), 4) + [|payload| % 256, |payload| / 256] + [t] + payload
  }

  /** How much of the data goes into the first fragment. */
  function FirstSize(pos: nat, left: nat): (n: nat)
    ensures n <= left && n < 0x1_0000
  {
    if left < Room(pos) then left else Room(pos)
  }

  /** Where the next fragment ends. */
  function FragmentEnd(pos: nat, left: nat): nat {
    pos + Pad(pos) + HEADER_SIZE + FirstSize(pos, left)
  }

  /** The rest of a record is shorter, or there is room for some of it. */
  lemma Shorter(pos: nat, left: nat)
    requires FirstSize(pos, left) < left
    ensures FirstSize(pos, left) > 0 || (Room(pos) == 0 && Room(FragmentEnd(pos, left)) > 0)
  {
    FilledBlock(pos);
  }

  /** The padding, if any, and the first fragment. */
  function FirstPart(crc: Checksum, pos: nat, data: seq<Byte>, begin: bool): (s: seq<Byte>)
    ensures |s| == Pad(pos) + HEADER_SIZE + FirstSize(pos, |data|)
  {
    var n := FirstSize(pos, |data|);
    Padding(Pad(pos)) + Fragment(crc, TypeOf(begin, n == |data|), data[..n])
  }

  /** The bytes `AddRecord` appends to a file of `pos` bytes. */
  function Laid(crc: Checksum, pos: nat, data: seq<Byte>, begin: bool): (s: seq<Byte>)
    ensures |s| >= HEADER_SIZE
    decreases |data|, if Room(pos) == 0 then 1 else 0
  {
    var n := FirstSize(pos, |data|);
    var first := FirstPart(crc, pos, data, begin);
    if n == |data| then first
    else
      FilledBlock(pos);
      first + Laid(crc, pos + |first|, data[n..], false)
  }

  /** A record is its first fragment and the rest, which is shorter or starts in a fresh block. */
  lemma LaidStep(crc: Checksum, pos: nat, data: seq<Byte>, begin: bool)
    ensures var n, first := FirstSize(pos, |data|), FirstPart(crc, pos, data, begin);
      && (n == |data| ==> Laid(crc, pos, data, begin) == first)
      && (n < |data| ==> Laid(crc, pos, data, begin) == first + Laid(crc, pos + |first|, data[n..], false))
      && (n < |data| ==> n > 0 || (Room(pos) == 0 && Room(pos + |first|) > 0))
  {
    if FirstSize(pos, |data|) < |data| {
      Shorter(pos, |data|);
    }
  }

  /** The file that holds `records`, from position `pos` on. */
  function FileOf(crc: Checksum, pos: nat, records: seq<seq<Byte>>): seq<Byte>
    decreases |records|, pos
  {
    if records == [] then []
    else
      var s := Laid(crc, pos, records[0], true);
      s + FileOf(crc, pos + |s|, records[1..])
  }
}
