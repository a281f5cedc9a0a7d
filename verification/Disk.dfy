/** Reading blocks: ataRead of foki/ata.c, and commonRead and the reading half of iso9660Read of
    foki/fs.c. */
module Disk {
  import opened Base

  const SECTOR_BYTES: int := 512
  const BLOCK_BYTES: int := 2048

  /** The content of the master drive, byte by byte. */
  type Image = int -> byte

  function Block(disk: Image, lba: int): (b: seq<byte>)
    ensures |b| == BLOCK_BYTES
  {
    seq(BLOCK_BYTES, k => disk(BLOCK_BYTES * lba + k))
  }

  /** The word the drive delivers at its k-th read after a command, low byte first. */
  function Word(disk: Image, lba: int, k: int): int {
    var low: int, high: int := disk(SECTOR_BYTES * lba + 2 * k), disk(SECTOR_BYTES * lba + 2 * k + 1);
    low + 256 * high
  }

  /** Bytes from on to below to come from the disk, from byte start on; the others are as before. */
  ghost predicate Filled(now: seq<byte>, before: seq<byte>, disk: Image, start: int, n: int) {
    && |now| == |before| && 0 <= n <= |now|
    && forall k :: 0 <= k < |now| ==> now[k] == if k < n then disk(start + k) else before[k]
  }

  /** ataRead on the master drive. */
  method AtaRead(disk: Image, present: bool, buffer: array<byte>, lba: int, sectorCount: int)
    requires 0 <= sectorCount && SECTOR_BYTES * sectorCount <= buffer.Length
    modifies buffer
    ensures Filled(buffer[..], old(buffer[..]), disk, SECTOR_BYTES * lba,
                   if present then SECTOR_BYTES * sectorCount else 0)
  {
    if !present { return; }
    ghost var before := buffer[..];
    var i := 0;
    while i < sectorCount
      invariant 0 <= i <= sectorCount
      invariant Filled(buffer[..], before, disk, SECTOR_BYTES * lba, SECTOR_BYTES * i)
    {
      var j := 0;
      while j < 256
        invariant 0 <= j <= 256
        invariant Filled(buffer[..], before, disk, SECTOR_BYTES * lba, SECTOR_BYTES * i + 2 * j)
      {
        var w := Word(disk, lba, i * 256 + j);
        buffer[2 * (i * 256 + j)] := w % 256;
        buffer[2 * (i * 256 + j) + 1] := w / 256;
        j := j + 1;
      }
      i := i + 1;
    }
  }

  /** commonRead for the one location it knows; the sector count is truncated to 16 bits. */
  method CommonRead(disk: Image, present: bool, lba: int, count: int, buffer: array<byte>)
    requires 0 <= lba && 0 <= count && BLOCK_BYTES * count <= buffer.Length
    modifies buffer
    ensures Filled(buffer[..], old(buffer[..]), disk, ReadStart(lba),
                   if present then Delivered(count) else 0)
  {
    AtaRead(disk, present, buffer, lba * 4 % ADDRESS_SPACE, count * 4 % 65536);
  }

  /** How many bytes a read of so many blocks delivers. */
  function Delivered(count: int): int {
    SECTOR_BYTES * (count * 4 % 65536)
  }

  /** BYTES_TO_BLOCK, in 32-bit arithmetic. */
  function RoundedUp(bytes: int): int {
    (bytes + BLOCK_BYTES - 1) % ADDRESS_SPACE / BLOCK_BYTES * BLOCK_BYTES
  }

  /** The announced size of a file is a whole number of blocks. It is the least that holds the file if
      and only if the file does not reach into the last block of 4 GiB; else it is zero. */
  lemma RoundedUpIff(bytes: int)
    requires 0 <= bytes < ADDRESS_SPACE
    ensures RoundedUp(bytes) % BLOCK_BYTES == 0 && 0 <= RoundedUp(bytes) < ADDRESS_SPACE
    ensures bytes <= RoundedUp(bytes) < bytes + BLOCK_BYTES <==> bytes <= 0xFFFF_F800
    ensures 0xFFFF_F800 < bytes ==> RoundedUp(bytes) == 0
  {
  }

  /** Where on the disk a read of the blocks from lba on starts: the sector number has 32 bits. */
  function ReadStart(lba: int): int {
    SECTOR_BYTES * (lba * 4 % ADDRESS_SPACE)
  }

  lemma ReadStartIff(lba: int)
    requires 0 <= lba < ADDRESS_SPACE
    ensures ReadStart(lba) == 2048 * (lba % 0x4000_0000)
    ensures ReadStart(lba) == BLOCK_BYTES * lba <==> lba < 0x4000_0000
  {
  }

  /** A file read fills exactly the announced size when that is below 32 MiB, and falls short of it
      otherwise: the 16-bit sector count wraps. */
  lemma ReadFillsIff(size: int)
    requires 0 <= size < ADDRESS_SPACE && size % BLOCK_BYTES == 0
    ensures Delivered((size + 2047) / 2048) == size % 0x200_0000 <= size
    ensures Delivered((size + 2047) / 2048) == size <==> size < 0x200_0000
  {
    var blocks := size / BLOCK_BYTES;
    assert size == BLOCK_BYTES * blocks && (size + 2047) / 2048 == blocks;
  }

  /** The reading half of iso9660Read: for an announced size below 32 MiB, bytes [0, size) of the
      buffer are the file's blocks in disk order and nothing else is written. */
  method ReadExtent(disk: Image, lba: int, size: int, buffer: array<byte>)
    requires 0 <= lba < ADDRESS_SPACE && 0 <= size < ADDRESS_SPACE && size % BLOCK_BYTES == 0 && size <= buffer.Length
    modifies buffer
    ensures Filled(buffer[..], old(buffer[..]), disk, ReadStart(lba), Delivered(size / BLOCK_BYTES))
    ensures lba < 0x4000_0000 && size < 0x200_0000 ==>
              Filled(buffer[..], old(buffer[..]), disk, BLOCK_BYTES * lba, size)
  {
    ReadFillsIff(size);
    ReadStartIff(lba);
    CommonRead(disk, true, lba, (size + 2047) / 2048, buffer);
  }
}
