/** The path walk of iso9660GetFileInfo (foki/fs.c) against a directory tree. Directory records follow
    section 9.1 of ECMA-119, the root directory record section 8.4.18. */
module Iso9660 {
  import opened Base
  import opened Disk

  const SLASH: byte := 47
  const SEMICOLON: byte := 59
  const ONE: byte := 49
  const NUL: byte := 0
  const NAME_BYTES: int := 32

  const VERSION: seq<byte> := [59, 49]  // ";1"

  /** A directory entry: a file, a directory, or the record of the directory itself or its parent. */
  datatype Entry =
    | File(name: seq<byte>, lba: int, size: int)
    | Dir(name: seq<byte>, lba: int, size: int, entries: seq<Entry>)
    | Self(name: seq<byte>, lba: int, size: int)

  predicate EndsInVersion(name: seq<byte>) {
    2 <= |name| && name[|name| - 2..] == VERSION
  }

  /** File names carry the version ";1", directory names do not; self and parent have the one-byte
      names 0 and 1. */
  ghost predicate NameOk(e: Entry) {
    && 1 <= |e.name| < NAME_BYTES
    && (match e
        case File(name, _, _) => EndsInVersion(name) && NUL !in name
        case Dir(name, _, _, _) => !EndsInVersion(name) && NUL !in name
        case Self(name, _, _) => name == [0] || name == [1])
  }

  // ---------- the image ----------

  /** One directory record of section 9.1 of ECMA-119 at offset off. */
  ghost predicate RecordAt(block: seq<byte>, off: int, e: Entry) {
    && 0 <= off && off + 33 + |e.name| <= |block|
    && 33 + |e.name| <= block[off] as int && off + block[off] as int < |block|
    && FromLe32(block, off + 2) == e.lba
    && FromLe32(block, off + 10) == e.size
    && block[off + 32] as int == |e.name|
    && block[off + 33..off + 33 + |e.name|] == e.name
  }

  /** The records from offset off on are exactly these entries, ended by a zero length byte. */
  ghost predicate RecordsAt(block: seq<byte>, off: int, entries: seq<Entry>)
    decreases |entries|
  {
    if entries == [] then 0 <= off < |block| && block[off] == 0
    else RecordAt(block, off, entries[0]) && RecordsAt(block, off + block[off] as int, entries[1..])
  }

  ghost predicate Distinct(entries: seq<Entry>) {
    forall i, j :: 0 <= i < j < |entries| ==> entries[i].name != entries[j].name
  }

  /** The disk holds the directory tree: each directory fills one block with its records. */
  ghost predicate Holds(disk: Image, lba: int, entries: seq<Entry>)
    decreases entries
  {
    && 0 <= lba < 0x4000_0000
    && RecordsAt(Block(disk, lba), 0, entries)
    && Distinct(entries)
    && (forall i :: 0 <= i < |entries| ==> NameOk(entries[i]))
    && (forall i :: 0 <= i < |entries| && entries[i].Dir? ==> Holds(disk, entries[i].lba, entries[i].entries))
  }

  /** The primary volume descriptor in block 16 holds the root directory record at byte 156. */
  ghost predicate HoldsRoot(disk: Image, root: seq<Entry>) {
    Holds(disk, FromLe32(Block(disk, 16), 158), root)
  }

  // ---------- looking a path up in the tree ----------

  /** The first entry with a name, or the number of entries. */
  function Find(entries: seq<Entry>, name: seq<byte>): (i: int)
    ensures 0 <= i <= |entries|
    ensures i < |entries| ==> entries[i].name == name
    ensures forall k :: 0 <= k < i ==> entries[k].name != name
  {
    if entries == [] || entries[0].name == name then 0 else 1 + Find(entries[1..], name)
  }

  /** The file that a path of directory names and a final file name leads to. */
  function Lookup(entries: seq<Entry>, path: seq<seq<byte>>): Option<Entry>
    requires path != []
    decreases |path|
  {
    var i := Find(entries, if |path| == 1 then path[0] + VERSION else path[0]);
    if i == |entries| then None
    else if |path| == 1 then (if entries[i].File? then Some(entries[i]) else None)
    else if entries[i].Dir? then Lookup(entries[i].entries, path[1..]) else None
  }

  /** A name leads to the file whose entry has the name with ";1" behind it. */
  lemma LookupFile(entries: seq<Entry>, name: seq<byte>, i: int)
    requires Distinct(entries) && 0 <= i < |entries| && entries[i].File?
    requires entries[i].name == name + [';' as int, '1' as int]
    ensures Lookup(entries, [name]) == Some(entries[i])
  {
    Found(entries, i);
  }

  /** A path leads through the directory with its first name, to where the rest leads from there. */
  lemma LookupDirectory(entries: seq<Entry>, path: seq<seq<byte>>, i: int)
    requires Distinct(entries) && 1 < |path| && 0 <= i < |entries| && entries[i].Dir? && entries[i].name == path[0]
    ensures Lookup(entries, path) == Lookup(entries[i].entries, path[1..])
  {
    Found(entries, i);
  }

  lemma Found(entries: seq<Entry>, i: int)
    requires Distinct(entries) && 0 <= i < |entries|
    ensures Find(entries, entries[i].name) == i
  {
  }

  // ---------- paths as text ----------

  ghost predicate PathOk(path: seq<seq<byte>>) {
    && path != []
    && (forall i :: 0 <= i < |path| ==> ComponentOk(path[i]))
    && |path[|path| - 1]| + 2 < NAME_BYTES
  }

  ghost predicate ComponentOk(c: seq<byte>) {
    1 <= |c| < NAME_BYTES && SLASH !in c && NUL !in c && c != [1]
  }

  /** Components joined by slashes. */
  function Joined(path: seq<seq<byte>>): seq<byte>
    requires path != []
  {
    if |path| == 1 then path[0] else path[0] + [SLASH] + Joined(path[1..])
  }

  /** The names the walk looks for: the components, the last with its version. */
  function Wanted(path: seq<seq<byte>>): seq<seq<byte>>
    requires path != []
  {
    path[..|path| - 1] + [path[|path| - 1] + VERSION]
  }

  lemma {:induction false} JoinedWanted(path: seq<seq<byte>>)
    requires path != []
    ensures Joined(Wanted(path)) == Joined(path) + VERSION
    decreases |path|
  {
    if |path| > 1 {
      JoinedWanted(path[1..]);
      assert Wanted(path)[1..] == Wanted(path[1..]);
      assert Wanted(path)[0] == path[0];
    }
  }

  // ---------- C strings ----------

  /** The characters of a C string, up to its NUL. */
  function CString(s: seq<byte>): (r: seq<byte>)
    ensures NUL !in r && r <= s
  {
    if s == [] || s[0] == NUL then [] else [s[0]] + CString(s[1..])
  }

  lemma {:induction false} CStringOf(name: seq<byte>, rest: seq<byte>)
    requires NUL !in name && (rest == [] || rest[0] == NUL)
    ensures CString(name + rest) == name
  {
    if name == [] {
      assert name + rest == rest;
    } else {
      CStringOf(name[1..], rest);
      assert (name + rest)[1..] == name[1..] + rest;
    }
  }

  /** From offset i on there is still a terminated string. */
  ghost predicate Terminated(s: seq<byte>, i: int) {
    0 <= i < |s| && NUL in s[i..]
  }

  lemma CStringNext(s: seq<byte>, i: int)
    requires Terminated(s, i) && s[i] != NUL
    ensures Terminated(s, i + 1) && CString(s[i..]) == [s[i]] + CString(s[i + 1..])
  {
    assert s[i..] == [s[i]] + s[i + 1..];
  }

  lemma CStringsNext(s1: seq<byte>, s2: seq<byte>, i: int)
    requires Terminated(s1, i) && Terminated(s2, i) && s1[i] == s2[i] != NUL
    ensures Terminated(s1, i + 1) && Terminated(s2, i + 1)
    ensures CString(s1[i..]) == CString(s2[i..]) <==> CString(s1[i + 1..]) == CString(s2[i + 1..])
  {
    CStringNext(s1, i);
    CStringNext(s2, i);
  }

  lemma CStringsDecided(s1: seq<byte>, s2: seq<byte>, i: int)
    requires 0 <= i < |s1| && i < |s2| && (s1[i] == NUL || s2[i] == NUL || s1[i] != s2[i])
    ensures CString(s1[i..]) == CString(s2[i..]) <==> s1[i] == s2[i]
  {
    assert s1[i..][0] == s1[i] && s2[i..][0] == s2[i];
  }

  /** strcmp of foki/memory.c returns zero exactly for equal strings. */
  method Strcmp(s1: array<byte>, s2: array<byte>) returns (r: int)
    requires NUL in s1[..] && NUL in s2[..]
    ensures r == 0 <==> CString(s1[..]) == CString(s2[..])
  {
    ghost var t1, t2 := s1[..], s2[..];
    assert t1[0..] == t1 && t2[0..] == t2;
    var i := 0;
    while s1[i] != 0 && s2[i] != 0 && s1[i] == s2[i]
      invariant Terminated(t1, i) && Terminated(t2, i)
      invariant CString(t1) == CString(t2) <==> CString(t1[i..]) == CString(t2[i..])
      decreases |t1| - i
    {
      CStringsNext(t1, t2, i);
      i := i + 1;
    }
    CStringsDecided(t1, t2, i);
    var c1: int, c2: int := s1[i], s2[i];
    r := c1 - c2;
  }

  // ---------- one directory ----------

  ghost predicate NamesOk(entries: seq<Entry>) {
    forall i :: 0 <= i < |entries| ==> NameOk(entries[i])
  }

  /** dirName: the record's name in a zeroed buffer. */
  method LoadName(block: array<byte>, off: int, nameLength: int) returns (dirName: array<byte>)
    requires 0 <= off && 0 <= nameLength < NAME_BYTES && off + 33 + nameLength <= block.Length
    ensures fresh(dirName) && dirName.Length == NAME_BYTES
    ensures dirName[..nameLength] == block[off + 33..off + 33 + nameLength]
    ensures forall k :: nameLength <= k < NAME_BYTES ==> dirName[k] == 0
  {
    dirName := new byte[NAME_BYTES](_ => 0);
    var k := 0;
    while k < nameLength
      invariant 0 <= k <= nameLength
      invariant dirName[..k] == block[off + 33..off + 33 + k]
      invariant forall m :: k <= m < NAME_BYTES ==> dirName[m] == 0
    {
      dirName[k] := block[off + 33 + k];
      k := k + 1;
    }
  }

  /** Reading a name back as a C string: a self or parent record reads as at most one odd byte. */
  lemma LoadedName(dirName: seq<byte>, e: Entry)
    requires NameOk(e) && |dirName| == NAME_BYTES && dirName[..|e.name|] == e.name
    requires forall k :: |e.name| <= k < NAME_BYTES ==> dirName[k] == 0
    ensures NUL in dirName
    ensures !e.Self? ==> CString(dirName) == e.name
    ensures e.Self? ==> CString(dirName) == [] || CString(dirName) == [1]
  {
    var rest := dirName[|e.name|..];
    assert dirName == e.name + rest && rest[0] == NUL;
    assert dirName[|e.name|] == NUL;
    if e.name == [0] { assert CString(dirName) == []; } else { CStringOf(e.name, rest); }
  }

  /** The body of the scan for one record: does its name match the wanted and the final one, is it a
      file, how long is it. stray is the byte in front of the name buffer, which the test for a
      version reads for one-byte names. */
  method ReadRecord(block: array<byte>, off: int, folderName: array<byte>, finalFileName: array<byte>, stray: byte,
                    ghost e: Entry, ghost name: seq<byte>, ghost final: seq<byte>)
    returns (same: bool, isFinal: bool, isFile: bool, size: int, length: int)
    requires RecordAt(block[..], off, e) && NameOk(e) && NUL in folderName[..] && NUL in finalFileName[..]
    requires name == CString(folderName[..]) && name != [] && name != [1] && final == CString(finalFileName[..])
    ensures same <==> e.name == name
    ensures same ==> (isFinal <==> e.name == final)
    ensures EndsInVersion(e.name) ==> isFile
    ensures size == e.size && length == block[off] as int && 0 < length
  {
    ghost var names := (folderName[..], finalFileName[..]);
    length := block[off] as int;
    var nameLength := block[off + 32] as int;
    size := FromLe32(block[..], off + 10);
    var dirName := LoadName(block, off, nameLength);
    assert dirName[..|e.name|] == e.name;
    LoadedName(dirName[..], e);
    assert names == (folderName[..], finalFileName[..]);
    var before := if nameLength >= 2 then dirName[nameLength - 2] else stray;
    isFile := before == SEMICOLON && dirName[nameLength - 1] == ONE;
    assert EndsInVersion(e.name) ==> e.name[|e.name| - 2..][0] == e.name[|e.name| - 2] == dirName[nameLength - 2];
    var order := Strcmp(dirName, folderName);
    same := order == 0;
    order := Strcmp(dirName, finalFileName);
    isFinal := order == 0;
  }

  /** The scan from offset off on, past records with other names, comes to the entry e with this name. */
  ghost predicate LeadsTo(block: seq<byte>, off: int, entries: seq<Entry>, name: seq<byte>, e: Entry)
    decreases |entries|
  {
    && entries != [] && RecordAt(block, off, entries[0]) && NameOk(entries[0])
    && (if entries[0].name == name then entries[0] == e
        else LeadsTo(block, off + block[off] as int, entries[1..], name, e))
  }

  lemma {:induction false} RecordsLead(block: seq<byte>, off: int, entries: seq<Entry>, name: seq<byte>)
    requires RecordsAt(block, off, entries) && NamesOk(entries) && Find(entries, name) < |entries|
    ensures LeadsTo(block, off, entries, name, entries[Find(entries, name)])
    decreases |entries|
  {
    if entries[0].name != name { RecordsLead(block, off + block[off] as int, entries[1..], name); }
  }

  lemma RecordsNext(block: seq<byte>, off: int, next: int, entries: seq<Entry>, name: seq<byte>, e: Entry)
    requires LeadsTo(block, off, entries, name, e) && entries[0].name != name && next == off + block[off] as int
    ensures LeadsTo(block, next, entries[1..], name, e)
    ensures 0 <= next < |block| && block[next] != 0
  {
  }

  /** The do-while loop over one directory block: it stops at the entry whose name is wanted. */
  method ScanDirectory(block: array<byte>, folderName: array<byte>, finalFileName: array<byte>, stray: byte,
                       ghost entries: seq<Entry>)
    returns (lba: int, size: int, foundFile: bool, sawFile: bool)
    requires RecordsAt(block[..], 0, entries) && NamesOk(entries) && NUL in folderName[..] && NUL in finalFileName[..]
    requires CString(folderName[..]) != [] && CString(folderName[..]) != [1]
    requires Find(entries, CString(folderName[..])) < |entries|
    ensures var e := entries[Find(entries, CString(folderName[..]))];
            && lba == e.lba && size == e.size && (EndsInVersion(e.name) ==> sawFile)
            && (foundFile <==> e.name == CString(finalFileName[..]))
  {
    ghost var name, final := CString(folderName[..]), CString(finalFileName[..]);
    ghost var records, rest, wanted, last := block[..], entries, folderName[..], finalFileName[..];
    ghost var target := entries[Find(entries, name)];
    RecordsLead(records, 0, rest, name);
    ghost var leads := LeadsTo(records, 0, rest, name, target);
    var entryOffset, more := 0, true;
    foundFile, sawFile, lba, size := false, false, 0, 0;
    while more
      invariant more && block[..] == records && folderName[..] == wanted && finalFileName[..] == last && !foundFile
      invariant leads && leads == LeadsTo(records, entryOffset, rest, name, target)
      decreases |rest|
    {
      var same, isFinal, isFile, fileSize, length :=
        ReadRecord(block, entryOffset, folderName, finalFileName, stray, rest[0], name, final);
      assert block[..] == records && length == records[entryOffset] as int;
      assert folderName[..] == wanted;
      assert finalFileName[..] == last;
      size := fileSize;
      if isFile { sawFile := true; }
      if same {
        if isFinal { foundFile := true; }
        lba := FromLe32(block[..], entryOffset + 2);
        break;
      }
      ghost var here := entryOffset;
      entryOffset := entryOffset + length;
      RecordsNext(records, here, entryOffset, rest, name, target);
      rest := rest[1..];
      leads := LeadsTo(records, entryOffset, rest, name, target);
      more := block[entryOffset] != 0;
    }
  }

  // ---------- the path ----------

  /** The next component of the path, copied into folderName; j is where it ends. */
  method CopyComponent(processedPath: array<byte>, from: int, folderName: array<byte>, ghost name: seq<byte>)
    returns (j: int)
    requires 0 <= from && from + |name| < processedPath.Length && |name| < NAME_BYTES == folderName.Length
    requires processedPath as object != folderName as object
    requires processedPath[from..from + |name|] == name && SLASH !in name && NUL !in name
    requires processedPath[from + |name|] == SLASH || processedPath[from + |name|] == NUL
    modifies folderName
    ensures j == from + |name| && NUL in folderName[..] && CString(folderName[..]) == name
  {
    j := from;
    forall k | 0 <= k < |name|
      ensures processedPath[from + k] == name[k] && name[k] != SLASH && name[k] != NUL
    {
      assert processedPath[from..from + |name|][k] == processedPath[from + k];
      assert name[k] in name;
    }
    while processedPath[j] != SLASH && processedPath[j] != NUL
      invariant from <= j <= from + |name|
      invariant j < from + |name| ==> processedPath[j] != SLASH && processedPath[j] != NUL
      invariant folderName[..j - from] == name[..j - from]
      decreases from + |name| - j
    {
      assert processedPath[from + (j - from)] == name[j - from];
      folderName[j - from] := processedPath[j];
      j := j + 1;
    }
    assert j == from + |name|;
    folderName[j - from] := NUL;
    assert folderName[..] == name + folderName[|name|..];
    assert folderName[|name|] == NUL;
    CStringOf(name, folderName[|name|..]);
  }

  /** The last component follows the last slash. */
  lemma {:induction false} JoinedEnds(path: seq<seq<byte>>)
    requires PathOk(path)
    ensures var last := path[|path| - 1]; var text := Joined(path);
            && |last| <= |text| && text[|text| - |last|..] == last
            && (|last| < |text| ==> text[|text| - |last| - 1] == SLASH)
            && NUL !in text
    decreases |path|
  {
    assert ComponentOk(path[0]);
    if |path| > 1 {
      var rest := path[1..];
      forall i | 0 <= i < |rest| ensures ComponentOk(rest[i]) { assert rest[i] == path[i + 1]; }
      JoinedEnds(rest);
      assert |Joined(rest)| >= |path[|path| - 1]|;
    }
  }

  /** The name behind the last slash, with the version, is the last name wanted. */
  method FinalName(path: seq<byte>, pathSize: int, processedPath: array<byte>, ghost comps: seq<seq<byte>>)
    returns (finalFileName: array<byte>)
    requires PathOk(comps) && 3 <= pathSize == |path| - 1 && path[2] == SLASH
    requires path[3..pathSize] == Joined(comps) && path[pathSize] == NUL
    requires processedPath[..] == path[..pathSize] + VERSION + [NUL]
    ensures fresh(finalFileName) && finalFileName.Length == NAME_BYTES && NUL in finalFileName[..]
    ensures CString(finalFileName[..]) == comps[|comps| - 1] + VERSION
  {
    finalFileName := new byte[NAME_BYTES];
    ghost var last := comps[|comps| - 1];
    ghost var at := pathSize - |last|;
    JoinedEnds(comps);
    assert ComponentOk(last);
    assert path[at..pathSize] == last by { assert path[3..pathSize][|Joined(comps)| - |last|..] == path[at..pathSize]; }
    assert path[at - 1] == SLASH by {
      if |last| < |Joined(comps)| { assert path[3..pathSize][|Joined(comps)| - |last| - 1] == path[at - 1]; }
    }
    forall m | at <= m <= pathSize ensures path[m] != SLASH {
      assert m < pathSize ==> path[at..pathSize][m - at] == path[m] && last[m - at] in last;
    }
    var i := pathSize;
    while path[i] != SLASH
      invariant at - 1 <= i <= pathSize
      decreases i
    {
      i := i - 1;
    }
    ghost var name := last + VERSION;
    forall k | 0 <= k <= |name| ensures processedPath[at + k] == (name + [NUL])[k] {
      assert processedPath[..][at + k] == (path[..pathSize] + VERSION + [NUL])[at + k];
      if k < |last| { assert path[at..pathSize][k] == path[at + k]; }
    }
    forall k | 0 <= k < |name| ensures name[k] != NUL {
      if k < |last| { assert last[k] in last; }
    }
    var k := 0;
    while processedPath[i + 1 + k] != NUL
      invariant 0 <= k <= |name| && finalFileName[..k] == name[..k]
      decreases |name| - k
    {
      assert processedPath[at + k] == (name + [NUL])[k];
      finalFileName[k] := processedPath[i + 1 + k];
      k := k + 1;
    }
    assert processedPath[at + k] == (name + [NUL])[k];
    finalFileName[k] := NUL;
    assert finalFileName[..] == name + finalFileName[|name|..];
    CStringOf(name, finalFileName[|name|..]);
  }

  lemma PathTail(path: seq<seq<byte>>)
    requires PathOk(path) && 1 < |path|
    ensures PathOk(path[1..])
    ensures Joined(Wanted(path)) == path[0] + [SLASH] + Joined(Wanted(path[1..]))
    ensures Wanted(path)[0] == path[0]
  {
    assert path[1..][|path[1..]| - 1] == path[|path| - 1];
    forall i | 0 <= i < |path[1..]| ensures ComponentOk(path[1..][i]) { assert path[1..][i] == path[i + 1]; }
    assert Wanted(path)[1..] == Wanted(path[1..]);
  }

  ghost predicate NameText(name: seq<byte>) {
    1 <= |name| < NAME_BYTES && name != [1] && SLASH !in name && NUL !in name
  }

  /** What the walk looks for next is a proper name, and carries the version exactly at the end. */
  lemma WantedName(path: seq<seq<byte>>)
    requires PathOk(path)
    ensures NameText(Wanted(path)[0])
    ensures |path| == 1 ==> EndsInVersion(Wanted(path)[0])
    ensures |path| > 1 ==> Wanted(path)[0] == path[0]
  {
    assert ComponentOk(path[0]);
    if |path| == 1 { assert (path[0] + VERSION)[|path[0] + VERSION| - 2..] == VERSION; }
  }

  // ---------- where the walk stands ----------

  /** The text from at on is the rest of the path. */
  ghost predicate OnPath(text: seq<byte>, at: int, rest: seq<seq<byte>>) {
    PathOk(rest) && 0 <= at < |text| && text[at..] == Joined(Wanted(rest)) + [NUL]
  }

  lemma OnPathName(text: seq<byte>, at: int, rest: seq<seq<byte>>)
    requires OnPath(text, at, rest)
    ensures var name := Wanted(rest)[0];
            && NameText(name) && at + |name| < |text| && text[at..at + |name|] == name && text[at] != NUL
            && text[at + |name|] == if |rest| == 1 then NUL else SLASH
  {
    WantedName(rest);
    if |rest| > 1 { PathTail(rest); }
    var name, tail := Wanted(rest)[0], text[at..];
    assert tail[..|name|] == name && tail[|name|] == if |rest| == 1 then NUL else SLASH;
    assert tail[..|name|] == text[at..at + |name|] && tail[|name|] == text[at + |name|];
    assert text[at] == tail[0] == name[0] && name[0] in name;
  }

  lemma OnPathNext(text: seq<byte>, at: int, rest: seq<seq<byte>>)
    requires OnPath(text, at, rest) && 1 < |rest|
    ensures OnPath(text, at + |rest[0]| + 1, rest[1..])
    ensures text[at + |rest[0]| + 1] != NUL
  {
    PathTail(rest);
    var n := |rest[0]| + 1;
    var tail := Joined(Wanted(rest[1..])) + [NUL];
    assert text[at..] == (rest[0] + [SLASH]) + tail;
    assert text[at..][n..] == tail && text[at..][n..] == text[at + n..];
    OnPathName(text, at + n, rest[1..]);
  }

  /** The file is what the rest of the path leads to from this directory. */
  ghost predicate InTree(disk: Image, lba: int, entries: seq<Entry>, rest: seq<seq<byte>>, file: Entry) {
    rest != [] && Holds(disk, lba, entries) && Lookup(entries, rest) == Some(file)
  }

  lemma InTreeName(disk: Image, lba: int, entries: seq<Entry>, rest: seq<seq<byte>>, file: Entry)
    requires InTree(disk, lba, entries, rest, file)
    ensures var i := Find(entries, Wanted(rest)[0]);
            && 0 <= lba < 0x4000_0000 && RecordsAt(Block(disk, lba), 0, entries) && NamesOk(entries)
            && i < |entries|
            && (|rest| == 1 ==> entries[i] == file)
            && (|rest| > 1 ==> entries[i].Dir? && !EndsInVersion(entries[i].name))
  {
    var i := Find(entries, Wanted(rest)[0]);
    if i < |entries| { assert NameOk(entries[i]); }
  }

  lemma InTreeNext(disk: Image, lba: int, entries: seq<Entry>, rest: seq<seq<byte>>, file: Entry)
    requires InTree(disk, lba, entries, rest, file) && 1 < |rest|
    ensures var i := Find(entries, rest[0]);
            && i < |entries| && entries[i].Dir?
            && InTree(disk, entries[i].lba, entries[i].entries, rest[1..], file)
  {
  }

  /** The processed path: the path with ";1" behind it. */
  method ProcessPath(path: seq<byte>, pathSize: int) returns (processedPath: array<byte>)
    requires 0 <= pathSize == |path| - 1
    ensures fresh(processedPath) && processedPath[..] == path[..pathSize] + VERSION + [NUL]
  {
    processedPath := new byte[pathSize + 3];
    var k := 0;
    while k < pathSize
      invariant 0 <= k <= pathSize && processedPath[..k] == path[..k]
    {
      processedPath[k] := path[k];
      k := k + 1;
    }
    processedPath[pathSize] := SEMICOLON;
    processedPath[pathSize + 1] := ONE;
    processedPath[pathSize + 2] := NUL;
    assert processedPath[..] == processedPath[..pathSize] + [SEMICOLON, ONE, NUL];
  }

  method PathSize(path: seq<byte>) returns (n: int)
    requires path != [] && path[|path| - 1] == NUL && NUL !in path[..|path| - 1]
    ensures n == |path| - 1
  {
    forall k | 0 <= k < |path| - 1 ensures path[k] != NUL { assert path[..|path| - 1][k] == path[k]; }
    n := 0;
    while path[n] != NUL
      invariant 0 <= n < |path|
      decreases |path| - n
    {
      n := n + 1;
    }
  }

  /** The block of a directory or of the volume descriptor. */
  method ReadBlock(disk: Image, lba: int) returns (buffer: array<byte>)
    requires 0 <= lba < 0x4000_0000
    ensures fresh(buffer) && buffer[..] == Block(disk, lba)
  {
    buffer := new byte[BLOCK_BYTES];
    CommonRead(disk, true, lba, 1, buffer);
  }

  /** The last name wanted, which only the file can match. */
  lemma FinalMatches(rest: seq<seq<byte>>, name: seq<byte>, final: seq<byte>)
    requires PathOk(rest) && final == rest[|rest| - 1] + VERSION && name == Wanted(rest)[0]
    requires |rest| > 1 ==> !EndsInVersion(name)
    ensures name == final <==> |rest| == 1
  {
    assert final[|final| - 2..] == VERSION;
  }

  /** One turn of the outer loop. */
  method WalkOne(disk: Image, processedPath: array<byte>, at: int, dirLba: int, folderName: array<byte>,
                 finalFileName: array<byte>, stray: byte,
                 ghost entries: seq<Entry>, ghost rest: seq<seq<byte>>, ghost file: Entry)
    returns (next: int, lba: int, size: int, foundFile: bool, sawFile: bool)
    requires folderName.Length == NAME_BYTES && folderName != finalFileName && folderName != processedPath
    requires NUL in finalFileName[..] && OnPath(processedPath[..], at, rest)
    requires CString(finalFileName[..]) == rest[|rest| - 1] + VERSION
    requires InTree(disk, dirLba, entries, rest, file)
    modifies folderName
    ensures processedPath[..] == old(processedPath[..]) && finalFileName[..] == old(finalFileName[..])
    ensures CString(folderName[..]) == Wanted(rest)[0] && (foundFile <==> |rest| == 1)
    ensures foundFile ==> lba == file.lba && size == file.size && sawFile
    ensures !foundFile ==>
      && next == at + |rest[0]| + 1
      && Find(entries, rest[0]) < |entries| && lba == entries[Find(entries, rest[0])].lba
  {
    ghost var name := Wanted(rest)[0];
    OnPathName(processedPath[..], at, rest);
    InTreeName(disk, dirLba, entries, rest, file);
    WantedName(rest);
    FinalMatches(rest, name, CString(finalFileName[..]));
    var j := CopyComponent(processedPath, at, folderName, name);
    next := j + 1;
    var block := ReadBlock(disk, dirLba);
    lba, size, foundFile, sawFile := ScanDirectory(block, folderName, finalFileName, stray, entries);
  }

  lemma WalkOn(disk: Image, text: seq<byte>, at: int, next: int, lba: int, sub: int, entries: seq<Entry>,
               rest: seq<seq<byte>>, file: Entry, final: seq<byte>)
    requires Walking(disk, text, at, lba, entries, rest, file, final) && 1 < |rest| && next == at + |rest[0]| + 1
    requires Find(entries, rest[0]) < |entries| && sub == entries[Find(entries, rest[0])].lba
    ensures var e := entries[Find(entries, rest[0])];
            e.Dir? && Walking(disk, text, next, sub, e.entries, rest[1..], file, final)
  {
    OnPathNext(text, at, rest);
    InTreeNext(disk, lba, entries, rest, file);
    assert rest[1..][|rest[1..]| - 1] == rest[|rest| - 1];
  }

  /** The walk stands at a directory from which the rest of the path leads to the file. */
  ghost predicate Walking(disk: Image, text: seq<byte>, at: int, lba: int, entries: seq<Entry>,
                          rest: seq<seq<byte>>, file: Entry, final: seq<byte>)
  {
    && OnPath(text, at, rest) && text[at] != NUL && InTree(disk, lba, entries, rest, file)
    && final == rest[|rest| - 1] + VERSION
  }

  /** The outer loop, from the root directory's location on. */
  method WalkPath(disk: Image, processedPath: array<byte>, rootLba: int, folderName: array<byte>,
                  finalFileName: array<byte>, stray: byte,
                  ghost root: seq<Entry>, ghost comps: seq<seq<byte>>, ghost file: Entry)
    returns (lastFolderLoc: int, fileSize: int, lastDirIsFile: bool)
    requires folderName.Length == NAME_BYTES && folderName != finalFileName && folderName != processedPath
    requires NUL in finalFileName[..] && OnPath(processedPath[..], 3, comps)
    requires CString(finalFileName[..]) == comps[|comps| - 1] + VERSION
    requires InTree(disk, rootLba, root, comps, file)
    modifies folderName
    ensures lastFolderLoc == file.lba && fileSize == file.size && lastDirIsFile
    ensures CString(folderName[..]) == comps[|comps| - 1] + VERSION
  {
    var lastSlashOffset := 3;
    lastFolderLoc, fileSize, lastDirIsFile := rootLba, 0, false;
    ghost var text, last, final := processedPath[..], finalFileName[..], CString(finalFileName[..]);
    ghost var rest, entries := comps, root;
    OnPathName(text, 3, comps);
    ghost var walking := Walking(disk, text, 3, rootLba, root, comps, file, final);
    while processedPath[lastSlashOffset] != NUL
      invariant processedPath[..] == text && finalFileName[..] == last
      invariant 0 <= lastSlashOffset < |text| && text[lastSlashOffset] != NUL
      invariant walking && walking == Walking(disk, text, lastSlashOffset, lastFolderLoc, entries, rest, file, final)
      decreases |rest|
    {
      var next, lba, size, foundFile, sawFile :=
        WalkOne(disk, processedPath, lastSlashOffset, lastFolderLoc, folderName, finalFileName, stray,
                entries, rest, file);
      assert processedPath[..] == text && finalFileName[..] == last;
      ghost var at, dir := lastSlashOffset, lastFolderLoc;
      lastSlashOffset, lastFolderLoc, fileSize := next, lba, size;
      if sawFile { lastDirIsFile := true; }
      if foundFile {
        assert CString(folderName[..]) == final;
        break;
      }
      WalkOn(disk, text, at, next, dir, lba, entries, rest, file, final);
      entries, rest := entries[Find(entries, rest[0])].entries, rest[1..];
      walking := Walking(disk, text, lastSlashOffset, lastFolderLoc, entries, rest, file, final);
      assert walking;
    }
  }

  /** The path "X:/d1/.../f" with its NUL. */
  ghost predicate Spells(path: seq<byte>, comps: seq<seq<byte>>)
    requires comps != []
  {
    && |path| == 4 + |Joined(comps)| && path[2] == SLASH && path[3..|path| - 1] == Joined(comps)
    && path[|path| - 1] == NUL && NUL !in path[..|path| - 1]
  }

  /** The two-component path A:/D/F, letter by letter. */
  lemma PathExample()
    ensures Spells(['A' as int, ':' as int, '/' as int, 'D' as int, '/' as int, 'F' as int, 0],
                   [['D' as int], ['F' as int]])
  {
    var comps: seq<seq<byte>> := [['D' as int], ['F' as int]];
    assert comps[1..] == [['F' as int]];
    assert Joined(comps) == ['D' as int, '/' as int, 'F' as int];
  }

  /** iso9660GetFileInfo, for the path of an existing file: it succeeds with the last name wanted, the
      file's extent and its size rounded up to whole blocks, as the tree says. */
  method GetFileInfo(disk: Image, path: seq<byte>, stray: byte, ghost root: seq<Entry>, ghost comps: seq<seq<byte>>)
    returns (ret: int, name: seq<byte>, size: int, lba: int)
    requires HoldsRoot(disk, root) && PathOk(comps) && Spells(path, comps) && Lookup(root, comps).Some?
    ensures ret == 0 && |name| == NAME_BYTES && CString(name) == comps[|comps| - 1] + VERSION
    ensures lba == Lookup(root, comps).value.lba && size == RoundedUp(Lookup(root, comps).value.size)
  {
    var pathSize := PathSize(path);
    var processedPath := ProcessPath(path, pathSize);
    var finalFileName := FinalName(path, pathSize, processedPath, comps);
    var buffer := ReadBlock(disk, 16);
    var rootLba := FromLe32(buffer[..], 158);
    var folderName := new byte[NAME_BYTES];
    PathStarts(path, comps);
    var lba', fileSize, lastDirIsFile :=
      WalkPath(disk, processedPath, rootLba, folderName, finalFileName, stray, root, comps, Lookup(root, comps).value);
    if !lastDirIsFile { return -1, [], 0, 0; }
    return 0, folderName[..], RoundedUp(fileSize), lba';
  }

  /** iso9660Read, for the path of an existing file and a buffer of the announced size. For a file of
      less than 32 MiB in the first 2 TiB of the disk the buffer then holds the file's blocks from its
      extent on, in order; nothing behind them is written. */
  method ReadFile(disk: Image, path: seq<byte>, stray: byte, buffer: array<byte>,
                  ghost root: seq<Entry>, ghost comps: seq<seq<byte>>)
    requires HoldsRoot(disk, root) && PathOk(comps) && Spells(path, comps) && Lookup(root, comps).Some?
    requires RoundedUp(Lookup(root, comps).value.size) <= buffer.Length
    modifies buffer
    ensures var file := Lookup(root, comps).value; var size := RoundedUp(file.size);
            && Filled(buffer[..], old(buffer[..]), disk, ReadStart(file.lba), Delivered(size / BLOCK_BYTES))
            && (file.lba < 0x4000_0000 && size < 0x200_0000 ==>
                  Filled(buffer[..], old(buffer[..]), disk, BLOCK_BYTES * file.lba, size))
  {
    var ret, name, size, lba := GetFileInfo(disk, path, stray, root, comps);
    LookedUp(disk, FromLe32(Block(disk, 16), 158), root, comps);
    RoundedUpIff(Lookup(root, comps).value.size);
    ReadExtent(disk, lba, size, buffer);
  }

  /** The fields of a file found in the tree have 32 bits. */
  lemma {:induction false} LookedUp(disk: Image, lba: int, entries: seq<Entry>, path: seq<seq<byte>>)
    requires path != [] && Holds(disk, lba, entries) && Lookup(entries, path).Some?
    ensures var file := Lookup(entries, path).value; 0 <= file.lba < ADDRESS_SPACE && 0 <= file.size < ADDRESS_SPACE
    decreases |path|
  {
    var file := Lookup(entries, path).value;
    if |path| == 1 {
      InTreeName(disk, lba, entries, path, file);
      RecordFields(Block(disk, lba), 0, entries, Find(entries, Wanted(path)[0]));
    } else {
      InTreeNext(disk, lba, entries, path, file);
      var e := entries[Find(entries, path[0])];
      LookedUp(disk, e.lba, e.entries, path[1..]);
    }
  }

  lemma {:induction false} RecordFields(block: seq<byte>, off: int, entries: seq<Entry>, i: int)
    requires RecordsAt(block, off, entries) && 0 <= i < |entries|
    ensures 0 <= entries[i].lba < ADDRESS_SPACE && 0 <= entries[i].size < ADDRESS_SPACE
    decreases |entries|
  {
    if i > 0 { RecordFields(block, off + block[off] as int, entries[1..], i - 1); }
  }

  lemma PathStarts(path: seq<byte>, comps: seq<seq<byte>>)
    requires PathOk(comps) && |path| == 4 + |Joined(comps)| && path[3..|path| - 1] == Joined(comps)
    ensures OnPath(path[..|path| - 1] + VERSION + [NUL], 3, comps)
  {
    JoinedWanted(comps);
    assert (path[..|path| - 1] + VERSION + [NUL])[3..] == Joined(Wanted(comps)) + [NUL];
  }
}
