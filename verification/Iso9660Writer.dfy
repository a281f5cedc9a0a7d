/** A reference writer for directories of ISO 9660, after section 9.1 of ECMA-119. It writes records field
    by field; what it wrote is what the path walk reads. */
module Iso9660Writer {
  import opened Base
  import opened Disk
  import opened Iso9660

  /** The four big-endian bytes of a 32-bit number. */
  function Be32(n: int): seq<byte> {
    [Le32(n)[3], Le32(n)[2], Le32(n)[1], Le32(n)[0]]
  }

  ghost predicate Writable(e: Entry) {
    NameOk(e) && 0 <= e.lba < ADDRESS_SPACE && 0 <= e.size < ADDRESS_SPACE
  }

  /** One record: its length; no extended attributes; extent and data length in both byte orders; date
      and time; flags, with the directory bit; no interleaving; volume 1; the name and, behind a name of
      even length, a padding byte. */
  function Record(e: Entry, date: seq<byte>): seq<byte>
    requires |e.name| < NAME_BYTES && |date| == 7
  {
    [33 + |e.name| + (if |e.name| % 2 == 0 then 1 else 0), 0]
    + Le32(e.lba) + Be32(e.lba) + Le32(e.size) + Be32(e.size)
    + date + [if e.File? then 0 else 2, 0, 0] + [1, 0, 0, 1] + [|e.name|]
    + e.name + (if |e.name| % 2 == 0 then [0] else [])
  }

  function Concat(rs: seq<seq<byte>>): seq<byte> {
    if rs == [] then [] else rs[0] + Concat(rs[1..])
  }

  ghost function Records(entries: seq<Entry>, date: seq<byte>): (rs: seq<seq<byte>>)
    requires |date| == 7 && forall i :: 0 <= i < |entries| ==> Writable(entries[i])
    ensures |rs| == |entries|
    ensures forall i :: 0 <= i < |rs| ==> Writable(entries[i]) && rs[i] == Record(entries[i], date)
  {
    seq(|entries|, i requires 0 <= i < |entries| => assert Writable(entries[i]); Record(entries[i], date))
  }

  /** A directory in one block: its records, then zeros. */
  ghost predicate DirectoryBlock(block: seq<byte>, entries: seq<Entry>, date: seq<byte>) {
    && |date| == 7 && (forall i :: 0 <= i < |entries| ==> Writable(entries[i]))
    && var bytes := Concat(Records(entries, date)); var n := |bytes|;
       n < |block| && block[..n] == bytes && forall k :: n <= k < |block| ==> block[k] == 0
  }

  // ---------- records read back ----------

  lemma FromLe32Here(block: seq<byte>, i: int, n: int)
    requires 0 <= i && i + 4 <= |block| && block[i..i + 4] == Le32(n) && 0 <= n < ADDRESS_SPACE
    ensures FromLe32(block, i) == n
  {
    var four := block[i..i + 4];
    assert four[0] == block[i] && four[1] == block[i + 1] && four[2] == block[i + 2] && four[3] == block[i + 3];
    Le32RoundTrip(n);
  }

  /** The fields of a record, where the standard has them. */
  ghost predicate FieldsOf(r: seq<byte>, e: Entry) {
    var n := |e.name|;
    && 33 + n <= |r| <= 34 + n && |r| == r[0] as int
    && r[2..6] == Le32(e.lba) && r[10..14] == Le32(e.size) && r[32] == n && r[33..33 + n] == e.name
  }

  lemma RecordFields(e: Entry, date: seq<byte>)
    requires Writable(e) && |date| == 7
    ensures FieldsOf(Record(e, date), e)
  {
    var head := [33 + |e.name| + (if |e.name| % 2 == 0 then 1 else 0), 0];
    var a := head + Le32(e.lba) + Be32(e.lba);
    var b := a + Le32(e.size) + Be32(e.size);
    var c := b + date + [if e.File? then 0 else 2, 0, 0] + [1, 0, 0, 1] + [|e.name|];
    assert |a| == 10 && |b| == 18 && |c| == 33;
    assert a[2..6] == Le32(e.lba) && b[10..14] == Le32(e.size) && c[32] == |e.name|;
    assert c[2..6] == Le32(e.lba) && c[10..14] == Le32(e.size);
  }

  /** The bytes stand at an offset of the block, and something follows them. */
  ghost predicate Stands(block: seq<byte>, off: int, bytes: seq<byte>) {
    0 <= off && off + |bytes| < |block| && block[off..off + |bytes|] == bytes
  }

  lemma StandsBoth(block: seq<byte>, off: int, a: seq<byte>, b: seq<byte>, next: int)
    requires Stands(block, off, a + b) && next == off + |a|
    ensures Stands(block, off, a) && Stands(block, next, b)
  {
    assert block[off..off + |a|] == (a + b)[..|a|];
    assert block[next..next + |b|] == (a + b)[|a|..];
  }

  /** A record that stands at an offset reads as its entry. */
  lemma RecordReads(block: seq<byte>, off: int, r: seq<byte>, e: Entry)
    requires Writable(e) && FieldsOf(r, e) && Stands(block, off, r)
    ensures RecordAt(block, off, e) && block[off] as int == |r|
  {
    var n := |e.name|;
    assert forall k :: 0 <= k < |r| ==> r[k] == block[off + k];
    assert block[off] == r[0] && block[off + 32] == r[32];
    assert block[off + 2..off + 6] == r[2..6] && block[off + 10..off + 14] == r[10..14];
    assert block[off + 33..off + 33 + n] == r[33..33 + n];
    FromLe32Here(block, off + 2, e.lba);
    FromLe32Here(block, off + 10, e.size);
  }

  lemma {:induction false} RecordsRead(block: seq<byte>, off: int, rs: seq<seq<byte>>, entries: seq<Entry>, end: int)
    requires |rs| == |entries| && forall i :: 0 <= i < |rs| ==> Writable(entries[i]) && FieldsOf(rs[i], entries[i])
    requires Stands(block, off, Concat(rs)) && end == off + |Concat(rs)| && block[end] == 0
    ensures RecordsAt(block, off, entries)
    decreases |entries|
  {
    if entries != [] {
      var next := off + |rs[0]|;
      StandsBoth(block, off, rs[0], Concat(rs[1..]), next);
      RecordReads(block, off, rs[0], entries[0]);
      assert next == off + block[off] as int;
      RecordsRead(block, next, rs[1..], entries[1..], end);
    }
  }

  // ---------- whole images ----------

  /** The disk has been written with this tree: one block to a directory, no name twice in it. */
  ghost predicate Written(disk: Image, lba: int, entries: seq<Entry>, date: seq<byte>)
    decreases entries
  {
    && 0 <= lba < 0x4000_0000 && DirectoryBlock(Block(disk, lba), entries, date) && Distinct(entries)
    && forall i :: 0 <= i < |entries| && entries[i].Dir? ==> Written(disk, entries[i].lba, entries[i].entries, date)
  }

  /** The root directory's record stands at byte 156 of block 16. */
  ghost predicate WrittenRoot(disk: Image, lba: int, size: int, root: seq<Entry>, date: seq<byte>) {
    && Written(disk, lba, root, date) && 0 <= size < ADDRESS_SPACE && |date| == 7
    && var r := Record(Self([0], lba, size), date);
       |r| == 34 && Block(disk, 16)[156..190] == r
  }

  /** A directory that was written is one that the path walk can read. */
  lemma {:induction false} WrittenHolds(disk: Image, lba: int, entries: seq<Entry>, date: seq<byte>)
    requires Written(disk, lba, entries, date)
    ensures Holds(disk, lba, entries)
    decreases entries
  {
    var block, rs := Block(disk, lba), Records(entries, date);
    assert block[0..|Concat(rs)|] == block[..|Concat(rs)|];
    forall i | 0 <= i < |rs| ensures FieldsOf(rs[i], entries[i]) {
      assert Writable(entries[i]);
      RecordFields(entries[i], date);
    }
    RecordsRead(block, 0, rs, entries, |Concat(rs)|);
    forall i | 0 <= i < |entries| ensures NameOk(entries[i]) { assert Writable(entries[i]); }
    forall i | 0 <= i < |entries| && entries[i].Dir? ensures Holds(disk, entries[i].lba, entries[i].entries) {
      WrittenHolds(disk, entries[i].lba, entries[i].entries, date);
    }
  }

  /** So an image that was written satisfies all that the path walk asks for. */
  lemma WrittenRootHolds(disk: Image, lba: int, size: int, root: seq<Entry>, date: seq<byte>)
    requires WrittenRoot(disk, lba, size, root, date)
    ensures HoldsRoot(disk, root)
  {
    var block := Block(disk, 16);
    WrittenHolds(disk, lba, root, date);
    RecordFields(Self([0], lba, size), date);
    assert block[158..162] == block[156..190][2..6];
    FromLe32Here(block, 158, lba);
  }
}
