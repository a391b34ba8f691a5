/**
 `log::Writer` (`db/log_writer.cc`).
*/
module LogWriter {
  import opened Coding
  import LogChecksum
  import opened LogFormat
  import opened Sequences

  class Writer {
    ghost const crc: Checksum
    const typeCrc: seq<Crc32c.Word>
    var dest: seq<Byte>
    var blockOffset: nat

    ghost predicate Ok()
      reads this
    {
      blockOffset <= BLOCK_SIZE && blockOffset % BLOCK_SIZE == |dest| % BLOCK_SIZE
    }

    /** The table has the checksum of each type, and `crc` is CRC32C. */
    ghost predicate Checks() {
      && |typeCrc| == 5
      && (forall t: Byte | t <= LAST :: typeCrc[t] == LogChecksum.TypeCrc(t))
      && (forall s {:trigger LogChecksum.Value(s)} :: crc(s) == LogChecksum.Value(s))
    }

    /** A writer for a new file, or one that appends to a log of an earlier writer. */
    constructor (dest: seq<Byte>)
      ensures Ok() && Checks() && this.dest == dest
    {
      crc := s => LogChecksum.Value(s);
      typeCrc := seq(5, (t: nat) requires t < 5 => LogChecksum.TypeCrc(t));
      this.dest, blockOffset := dest, |dest| % BLOCK_SIZE;
    }

    /** `AddRecord` with successful I/O. */
    method AddRecord(data: seq<Byte>)
      requires Ok() && Checks()
      modifies this
      ensures Ok() && dest == old(dest) + Laid(crc, |old(dest)|, data, true)
    {
      var left: seq<Byte>, begin := data, true;
      ghost var goal: seq<Byte> := dest + Laid(crc, |dest|, data, true);
      while true
        invariant Ok() && dest + Laid(crc, |dest|, left, begin) == goal
        decreases |left|, if Room(|dest|) == 0 then 1 else 0
      {
        Appended(crc, dest, left, begin);
        var n := AddFragment(left, begin);
        if n == |left| {
          break;
        }
        left, begin := left[n..], false;
      }
    }

    /** One turn of the loop of `AddRecord`: writes `n` bytes of the data. */
    method AddFragment(data: seq<Byte>, begin: bool) returns (n: nat)
      requires Ok() && Checks()
      modifies this
      ensures Ok() && n == FirstSize(old(|dest|), |data|)
      ensures dest == old(dest) + FirstPart(crc, old(|dest|), data, begin)
    {
      ghost var pos := |dest|;
      SkipTrailer();
      var avail := BLOCK_SIZE - blockOffset - HEADER_SIZE;
      n := if |data| < avail then |data| else avail;
      var end := |data| == n;
      var t := if begin && end then FULL else if begin then FIRST else if end then LAST else MIDDLE;
      EmitPhysicalRecord(t, data[..n]);
      Regroup3(old(dest), Padding(Pad(pos)), Fragment(crc, t, data[..n]));
    }

    /** Fills up a block that has no room for a header. */
    method SkipTrailer()
      requires Ok()
      modifies this
      ensures Ok() && dest == old(dest) + Padding(Pad(old(|dest|)))
      ensures BLOCK_SIZE - blockOffset - HEADER_SIZE == Room(old(|dest|))
    {
      var leftover := BLOCK_SIZE - blockOffset;
      if leftover < HEADER_SIZE {
        SameOffset(blockOffset, |dest|, leftover);
        assert leftover > 0 ==> |dest| % BLOCK_SIZE == blockOffset;
        dest := dest + Padding(leftover);
        blockOffset := 0;
      } else {
        assert dest + Padding(0) == dest;
      }
    }

    /** The checksum of type and payload, continued from the table; the payload may be anywhere in memory. */
    method CheckOf(t: Byte, payload: seq<Byte>) returns (check: Word32)
      requires t <= LAST && Checks()
      ensures check == crc([t] + payload)
    {
      var addr: nat := *;
      check := LogChecksum.ValueOfFragment(typeCrc[t], t, payload, addr);
    }

    /** `EmitPhysicalRecord`: header and payload. */
    method EmitPhysicalRecord(t: Byte, payload: seq<Byte>)
      requires blockOffset + HEADER_SIZE + |payload| <= BLOCK_SIZE && blockOffset % BLOCK_SIZE == |dest| % BLOCK_SIZE
      requires t <= LAST && Checks()
      modifies this
      ensures Ok() && dest == old(dest) + Fragment(crc, t, payload)
      ensures blockOffset == old(blockOffset) + HEADER_SIZE + |payload|
    {
      var check := CheckOf(t, payload);
      var buf := Fixed(Crc32c.Mask(check), 4) + [|payload| % 256, |payload| / 256] + [t];
      var n := HEADER_SIZE + |payload|;
      SameOffset(blockOffset, |dest|, n);
      Regroup3(dest, buf, payload);
      dest := (dest + buf) + payload;
      blockOffset := blockOffset + n;
    }
  }

  /** Appending the first part of some data and then the rest is appending the data. */
  lemma Appended(crc: Checksum, dest: seq<Byte>, data: seq<Byte>, begin: bool)
    ensures var n, now := FirstSize(|dest|, |data|), dest + FirstPart(crc, |dest|, data, begin);
      && dest + Laid(crc, |dest|, data, begin)
         == (if n == |data| then now else now + Laid(crc, |now|, data[n..], false))
      && (n < |data| ==> n > 0 || (Room(|dest|) == 0 && Room(|now|) > 0))
  {
    var n, first := FirstSize(|dest|, |data|), FirstPart(crc, |dest|, data, begin);
    LaidStep(crc, |dest|, data, begin);
    if n < |data| {
      var now := dest + first;
      assert |now| == |dest| + |first|;
      var rest := Laid(crc, |now|, data[n..], false);
      assert Laid(crc, |dest|, data, begin) == first + rest;
      Regroup3(dest, first, rest);
    }
  }

  lemma SameOffset(offset: nat, pos: nat, n: nat)
    requires offset % BLOCK_SIZE == pos % BLOCK_SIZE
    ensures (offset + n) % BLOCK_SIZE == (pos + n) % BLOCK_SIZE
  {
  }
}
