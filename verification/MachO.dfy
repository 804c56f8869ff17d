/**
 The launch gate's reading of code signatures from a Mach-O or universal binary: bounded 32- and
 64-bit arithmetic over untrusted bytes, where every read must stay inside its slice.
 */
module MachO {
  import opened Json

  newtype byte = x: int | 0 <= x < 0x100
  newtype u32 = x: int | 0 <= x < 0x1_0000_0000
  newtype u64 = x: int | 0 <= x < 0x1_0000_0000_0000_0000

  type CdHash = seq<byte>

  /** The truncated digest of a code directory, for each known hash type. */
  type Digest = (byte, seq<byte>) -> CdHash

  const MAX_CD_HASHES: nat := 64
  const MAX_LOAD_COMMAND_BYTES: u32 := 16 * 1024 * 1024
  const MAX_SIGNATURE_BYTES: u32 := 64 * 1024 * 1024
  const MAX_SIGNATURE_BLOBS: u32 := 1024
  const HEADER_SIZE: u32 := 32
  const LC_CODE_SIGNATURE: u32 := 0x1d
  const SUPERBLOB_MAGIC: u32 := 0xfade0cc0
  const CODEDIRECTORY_MAGIC: u32 := 0xfade0c02
  const ALTERNATE_FIRST: u32 := 0x1000
  const ALTERNATE_LAST: u32 := 0x1005
  const MACHO_64_MAGIC: u32 := 0xfeedfacf
  const FAT_MAGIC: u32 := 0xcafebabe
  const FAT_64_MAGIC: u32 := 0xcafebabf
  const MAX_OFFSET: u64 := 0x7fff_ffff_ffff_ffff

  // ---------------------------------------------------------------- reading integers

  function Word(a: byte, b: byte, c: byte, d: byte): u32 {
    a as u32 * 0x100_0000 + b as u32 * 0x1_0000 + c as u32 * 0x100 + d as u32
  }

  function Be32(s: seq<byte>, i: nat): u32
    requires i + 4 <= |s|
  {
    Word(s[i], s[i + 1], s[i + 2], s[i + 3])
  }

  function Le32(s: seq<byte>, i: nat): u32
    requires i + 4 <= |s|
  {
    Word(s[i + 3], s[i + 2], s[i + 1], s[i])
  }

  function Read32(s: seq<byte>, i: nat, little: bool): u32
    requires i + 4 <= |s|
  {
    if little then Le32(s, i) else Be32(s, i)
  }

  function Be64(s: seq<byte>, i: nat): u64
    requires i + 8 <= |s|
  {
    Be32(s, i) as u64 * 0x1_0000_0000 + Be32(s, i + 4) as u64
  }

  // ---------------------------------------------------------------- the list of hashes

  function Add(hashes: seq<CdHash>, h: CdHash): Option<seq<CdHash>> {
    if h in hashes then Some(hashes)
    else if |hashes| >= MAX_CD_HASHES then None
    else Some(hashes + [h])
  }

  class CdHashes {
    const values: array<CdHash>
    var count: nat

    ghost predicate Valid()
      reads this
    {
      values.Length == MAX_CD_HASHES && count <= MAX_CD_HASHES
    }

    ghost function Contents(): seq<CdHash>
      requires Valid()
      reads this, values
    {
      values[..count]
    }

    constructor ()
      ensures Valid() && fresh(values) && Contents() == []
    {
      values := new CdHash[MAX_CD_HASHES](_ => []);
      count := 0;
    }

    method AddCdHash(h: CdHash) returns (ok: bool)
      requires Valid()
      modifies this`count, values
      ensures Valid() && (ok <==> Add(old(Contents()), h).Some?)
      ensures Contents() == if ok then Add(old(Contents()), h).value else old(Contents())
    {
      for index := 0 to count
        invariant forall i :: 0 <= i < index ==> values[i] != h
      {
        if values[index] == h {
          assert h == Contents()[index];
          return true;
        }
      }
      if count >= MAX_CD_HASHES {
        return false;
      }
      values[count] := h;
      count := count + 1;
      return true;
    }
  }

  // ---------------------------------------------------------------- the superblob

  function HashCodeDirectory(blob: seq<byte>, digest: Digest): Option<CdHash>
    requires |blob| >= 40
  {
    if 1 <= blob[37] <= 4 then Some(digest(blob[37], blob)) else None
  }

  predicate HoldsCodeDirectory(slot: u32) {
    slot == 0 || ALTERNATE_FIRST <= slot <= ALTERNATE_LAST
  }

  /** A superblob of `length` bytes announces `count` entries that fit before its end. */
  predicate SuperblobHeader(s: seq<byte>) {
    && |s| >= 12 && Be32(s, 0) == SUPERBLOB_MAGIC
    && 12 <= Be32(s, 4) as int <= |s|
    && 0 < Be32(s, 8) <= MAX_SIGNATURE_BLOBS
    && 12 + Be32(s, 8) as int * 8 <= Be32(s, 4) as int
  }

  function EntrySlot(s: seq<byte>, index: nat): u32
    requires 12 + index * 8 + 8 <= |s|
  {
    Be32(s, 12 + index * 8)
  }

  function EntryOffset(s: seq<byte>, index: nat): nat
    requires 12 + index * 8 + 8 <= |s|
  {
    Be32(s, 12 + index * 8 + 4) as nat
  }

  /** A code directory lies at `offset`, wholly inside the first `length` bytes. */
  predicate CodeDirectoryAt(s: seq<byte>, offset: nat, length: nat)
    requires length <= |s|
  {
    && offset + 8 <= length && Be32(s, offset) == CODEDIRECTORY_MAGIC
    && 40 <= Be32(s, offset + 4) as int && offset + Be32(s, offset + 4) as int <= length
  }

  function Blob(s: seq<byte>, offset: nat, length: nat): (r: seq<byte>)
    requires length <= |s| && CodeDirectoryAt(s, offset, length)
    ensures |r| >= 40
  {
    s[offset..offset + Be32(s, offset + 4) as int]
  }

  /** The hashes after one entry of the index. */
  function AfterEntry(s: seq<byte>, index: nat, before: seq<CdHash>, digest: Digest): Option<seq<CdHash>>
    requires SuperblobHeader(s) && index < Be32(s, 8) as nat
  {
    var length := Be32(s, 4) as nat;
    if !HoldsCodeDirectory(EntrySlot(s, index)) then Some(before)
    else if !CodeDirectoryAt(s, EntryOffset(s, index), length) then None
    else
      var h := HashCodeDirectory(Blob(s, EntryOffset(s, index), length), digest);
      if h.None? then None else Add(before, h.value)
  }

  function AfterEntries(s: seq<byte>, n: nat, before: seq<CdHash>, digest: Digest): Option<seq<CdHash>>
    requires SuperblobHeader(s) && n <= Be32(s, 8) as nat
  {
    if n == 0 then Some(before)
    else
      var r := AfterEntries(s, n - 1, before, digest);
      if r.None? then None else AfterEntry(s, n - 1, r.value, digest)
  }

  /** The hashes after a superblob; it is refused when none has been collected by then. */
  function AfterSuperblob(s: seq<byte>, before: seq<CdHash>, digest: Digest): Option<seq<CdHash>> {
    if !SuperblobHeader(s) then None
    else
      var r := AfterEntries(s, Be32(s, 8) as nat, before, digest);
      if r.Some? && r.value != [] then r else None
  }

  method HashEntry(s: seq<byte>, length: u32, index: u32, hashes: CdHashes, digest: Digest) returns (ok: bool)
    requires SuperblobHeader(s) && length == Be32(s, 4) && index < Be32(s, 8) && hashes.Valid()
    modifies hashes`count, hashes.values
    ensures hashes.Valid()
    ensures ok <==> AfterEntry(s, index as nat, old(hashes.Contents()), digest).Some?
    ensures ok ==> Some(hashes.Contents()) == AfterEntry(s, index as nat, old(hashes.Contents()), digest)
  {
    var entry: u64 := 12 + index as u64 * 8;
    var slot := Be32(s, entry as nat);
    var offset := Be32(s, entry as nat + 4);
    if slot != 0 && (slot < ALTERNATE_FIRST || slot > ALTERNATE_LAST) {
      return true;
    }
    if offset > length - 8 || Be32(s, offset as nat) != CODEDIRECTORY_MAGIC {
      return false;
    }
    var blobLength := Be32(s, offset as nat + 4);
    if blobLength < 40 || blobLength > length - offset {
      return false;
    }
    var h := HashCodeDirectory(s[offset as nat..offset as nat + blobLength as nat], digest);
    if h.None? {
      return false;
    }
    ok := hashes.AddCdHash(h.value);
  }

  method HashSuperblob(s: seq<byte>, hashes: CdHashes, digest: Digest) returns (ok: bool)
    requires hashes.Valid() && |s| < 0x1_0000_0000
    modifies hashes`count, hashes.values
    ensures hashes.Valid()
    ensures ok <==> AfterSuperblob(s, old(hashes.Contents()), digest).Some?
    ensures ok ==> Some(hashes.Contents()) == AfterSuperblob(s, old(hashes.Contents()), digest)
  {
    if |s| < 12 || Be32(s, 0) != SUPERBLOB_MAGIC {
      return false;
    }
    var length, count := Be32(s, 4), Be32(s, 8);
    if length < 12 || length as int > |s| || count == 0 || count > MAX_SIGNATURE_BLOBS ||
       12 + count as u64 * 8 > length as u64 {
      return false;
    }
    ghost var before := hashes.Contents();
    var index: u32 := 0;
    while index < count
      invariant index <= count && hashes.Valid()
      invariant AfterEntries(s, index as nat, before, digest) == Some(hashes.Contents())
    {
      ok := HashEntry(s, length, index, hashes, digest);
      if !ok {
        EntriesFail(s, index as nat + 1, before, digest);
        return;
      }
      index := index + 1;
    }
    return hashes.count > 0;
  }

  lemma {:induction false} EntriesFail(s: seq<byte>, n: nat, before: seq<CdHash>, digest: Digest)
    requires SuperblobHeader(s) && n <= Be32(s, 8) as nat && AfterEntries(s, n, before, digest).None?
    ensures AfterEntries(s, Be32(s, 8) as nat, before, digest).None?
    decreases Be32(s, 8) as nat - n
  {
    if n < Be32(s, 8) as nat {
      EntriesFail(s, n + 1, before, digest);
    }
  }

  // ---------------------------------------------------------------- the load commands

  /** Where the code signature lies in its slice; size zero means that none was found. */
  datatype Found = Found(offset: u32, size: u32)

  function CommandSize(area: seq<byte>, at: nat, little: bool): nat
    requires at + 8 <= |area|
  {
    Read32(area, at + 4, little) as nat
  }

  predicate CommandAt(area: seq<byte>, at: nat, little: bool) {
    && at + 8 <= |area| && CommandSize(area, at, little) >= 8
    && CommandSize(area, at, little) % 4 == 0 && at + CommandSize(area, at, little) <= |area|
  }

  predicate IsSignature(area: seq<byte>, at: nat, little: bool)
    requires at + 8 <= |area|
  {
    Read32(area, at, little) == LC_CODE_SIGNATURE
  }

  function SignatureAt(area: seq<byte>, at: nat, little: bool): Found
    requires at + 16 <= |area|
  {
    Found(Read32(area, at + 8, little), Read32(area, at + 12, little))
  }

  function WalkCommands(area: seq<byte>, at: nat, n: nat, little: bool, found: Found): Option<Found>
    decreases n
  {
    if n == 0 then if at == |area| then Some(found) else None
    else if !CommandAt(area, at, little) then None
    else
      var next := at + CommandSize(area, at, little);
      if !IsSignature(area, at, little) then WalkCommands(area, next, n - 1, little, found)
      else if CommandSize(area, at, little) != 16 || found.size != 0 then None
      else WalkCommands(area, next, n - 1, little, SignatureAt(area, at, little))
  }

  method ScanCommands(area: seq<byte>, commandCount: u32, little: bool) returns (found: Option<Found>)
    requires 8 <= |area| <= MAX_LOAD_COMMAND_BYTES as int
    ensures found == WalkCommands(area, 0, commandCount as nat, little, Found(0, 0))
  {
    var commandBytes := |area| as u32;
    var cursor: u32, offset: u32, size: u32 := 0, 0, 0;
    var index: u32 := 0;
    while index < commandCount
      invariant index <= commandCount && cursor <= commandBytes
      invariant WalkCommands(area, 0, commandCount as nat, little, Found(0, 0))
             == WalkCommands(area, cursor as nat, commandCount as nat - index as nat, little, Found(offset, size))
    {
      if cursor > commandBytes - 8 {
        return None;
      }
      var command := Read32(area, cursor as nat, little);
      var length := Read32(area, cursor as nat + 4, little);
      if length < 8 || length % 4 != 0 || length > commandBytes - cursor {
        return None;
      }
      if command == LC_CODE_SIGNATURE {
        if length != 16 || size != 0 {
          return None;
        }
        offset := Read32(area, cursor as nat + 8, little);
        size := Read32(area, cursor as nat + 12, little);
      }
      cursor := cursor + length;
      index := index + 1;
    }
    return if cursor == commandBytes then Some(Found(offset, size)) else None;
  }

  // ---------------------------------------------------------------- one slice

  predicate SliceHeader(slice: seq<byte>) {
    |slice| >= 32 && (Le32(slice, 0) == MACHO_64_MAGIC || Be32(slice, 0) == MACHO_64_MAGIC)
  }

  predicate IsLittle(slice: seq<byte>)
    requires |slice| >= 32
  {
    Le32(slice, 0) == MACHO_64_MAGIC
  }

  /** The load-command area of a slice, when its announced counts are within bounds. */
  function CommandArea(slice: seq<byte>): Option<seq<byte>> {
    if !SliceHeader(slice) then None
    else
      var count, bytes := Read32(slice, 16, IsLittle(slice)), Read32(slice, 20, IsLittle(slice));
      if 0 < count <= 4096 && 8 <= bytes <= MAX_LOAD_COMMAND_BYTES && 32 + bytes as int <= |slice|
      then Some(slice[32..32 + bytes as int]) else None
  }

  function CommandCount(slice: seq<byte>): nat
    requires |slice| >= 32
  {
    Read32(slice, 16, IsLittle(slice)) as nat
  }

  predicate SignatureFits(slice: seq<byte>, found: Found) {
    12 <= found.size <= MAX_SIGNATURE_BYTES && found.offset as int + found.size as int <= |slice|
  }

  /** The signature of a slice: the superblob bytes its load commands point to. */
  function SignatureOf(slice: seq<byte>): Option<seq<byte>> {
    var area := CommandArea(slice);
    if area.None? then None
    else
      var found := WalkCommands(area.value, 0, CommandCount(slice), IsLittle(slice), Found(0, 0));
      if found.Some? && SignatureFits(slice, found.value)
      then Some(slice[found.value.offset as int..found.value.offset as int + found.value.size as int]) else None
  }

  function AfterSlice(slice: seq<byte>, before: seq<CdHash>, digest: Digest): Option<seq<CdHash>> {
    var signature := SignatureOf(slice);
    if signature.None? then None else AfterSuperblob(signature.value, before, digest)
  }

  /** Reading exactly `size` bytes at `offset` of a slice; the precondition is that they lie inside it. */
  method ReadExactAt(file: seq<byte>, base: u64, sliceSize: u64, offset: u64, size: u64) returns (bytes: seq<byte>)
    requires base as int + sliceSize as int <= |file| && offset as int + size as int <= sliceSize as int
    ensures bytes == file[base as int..base as int + sliceSize as int][offset as int..offset as int + size as int]
  {
    var start := base as int + offset as int;
    bytes := file[start..start + size as int];
  }

  /** The load-command area with its count and byte order, once the header's counts are in bounds. */
  method ReadCommands(file: seq<byte>, base: u64, sliceSize: u64)
    returns (area: Option<seq<byte>>, count: u32, little: bool)
    requires |file| <= MAX_OFFSET as int && base as int + sliceSize as int <= |file|
    ensures area == CommandArea(file[base as int..base as int + sliceSize as int])
    ensures area.Some? ==> (count as nat == CommandCount(file[base as int..base as int + sliceSize as int])
                            && little == IsLittle(file[base as int..base as int + sliceSize as int]))
  {
    ghost var slice := file[base as int..base as int + sliceSize as int];
    if sliceSize < HEADER_SIZE as u64 || base > MAX_OFFSET {
      return None, 0, false;
    }
    var header := ReadExactAt(file, base, sliceSize, 0, HEADER_SIZE as u64);
    SameWord(slice, header);
    little := Le32(header, 0) == MACHO_64_MAGIC;
    if !little && Be32(header, 0) != MACHO_64_MAGIC {
      return None, 0, false;
    }
    count := Read32(header, 16, little);
    var bytes := Read32(header, 20, little);
    if count == 0 || count > 4096 || bytes < 8 || bytes > MAX_LOAD_COMMAND_BYTES ||
       HEADER_SIZE as u64 + bytes as u64 > sliceSize {
      return None, 0, false;
    }
    var commands := ReadExactAt(file, base, sliceSize, HEADER_SIZE as u64, bytes as u64);
    return Some(commands), count, little;
  }

  method MachoSliceCdHashes(file: seq<byte>, base: u64, sliceSize: u64, hashes: CdHashes, digest: Digest)
    returns (ok: bool)
    requires |file| <= MAX_OFFSET as int && base as int + sliceSize as int <= |file| && hashes.Valid()
    modifies hashes`count, hashes.values
    ensures hashes.Valid()
    ensures ok <==> AfterSlice(file[base as int..base as int + sliceSize as int], old(hashes.Contents()), digest).Some?
    ensures ok ==>
            Some(hashes.Contents()) ==
            AfterSlice(file[base as int..base as int + sliceSize as int], old(hashes.Contents()), digest)
  {
    hide CommandArea, AfterSuperblob, Read32, Be32, Le32;
    ghost var slice := file[base as int..base as int + sliceSize as int];
    var commands, commandCount, little := ReadCommands(file, base, sliceSize);
    if commands.None? {
      return false;
    }
    AreaIsShort(slice);
    var found := ScanCommands(commands.value, commandCount, little);
    if found.None? {
      return false;
    }
    var offset, size := found.value.offset, found.value.size;
    if size < 12 || size > MAX_SIGNATURE_BYTES || offset as u64 + size as u64 > sliceSize ||
       base + offset as u64 > MAX_OFFSET {
      assert !SignatureFits(slice, found.value);
      return false;
    }
    var signature := ReadExactAt(file, base, sliceSize, offset as u64, size as u64);
    ok := HashSuperblob(signature, hashes, digest);
  }

  lemma AreaIsShort(slice: seq<byte>)
    ensures CommandArea(slice).Some? ==> 8 <= |CommandArea(slice).value| <= MAX_LOAD_COMMAND_BYTES as int
  {}

  lemma SameWord(slice: seq<byte>, header: seq<byte>)
    requires |slice| >= 32 && header == slice[0..32]
    ensures Le32(header, 0) == Le32(slice, 0) && Be32(header, 0) == Be32(slice, 0)
    ensures forall little :: Read32(header, 16, little) == Read32(slice, 16, little)
    ensures forall little :: Read32(header, 20, little) == Read32(slice, 20, little)
  {}

  // ---------------------------------------------------------------- the whole file

  predicate IsFat(file: seq<byte>)
    requires |file| >= 32
  {
    Be32(file, 0) == FAT_MAGIC || Be32(file, 0) == FAT_64_MAGIC
  }

  function EntrySize(file: seq<byte>): nat
    requires |file| >= 32
  {
    if Be32(file, 0) == FAT_64_MAGIC then 32 else 20
  }

  predicate FatTable(file: seq<byte>)
    requires |file| >= 32
  {
    0 < Be32(file, 4) <= 32 && 8 + Be32(file, 4) as int * EntrySize(file) <= |file|
  }

  function FatOffset(file: seq<byte>, index: nat): u64
    requires |file| >= 32 && 8 + (index + 1) * EntrySize(file) <= |file|
  {
    var entry := 8 + index * EntrySize(file);
    if EntrySize(file) == 32 then Be64(file, entry + 8) else Be32(file, entry + 8) as u64
  }

  function FatSize(file: seq<byte>, index: nat): u64
    requires |file| >= 32 && 8 + (index + 1) * EntrySize(file) <= |file|
  {
    var entry := 8 + index * EntrySize(file);
    if EntrySize(file) == 32 then Be64(file, entry + 16) else Be32(file, entry + 12) as u64
  }

  /** Where a slice of the file starts and ends. */
  datatype Extent = Extent(start: nat, end: nat)

  /** The slice an entry of the table announces, when it is large enough and inside the file. */
  function FatSlice(file: seq<byte>, index: nat): Option<Extent>
    requires |file| >= 32 && FatTable(file) && index < Be32(file, 4) as nat
  {
    EntryInside(file, index);
    var offset, size := FatOffset(file, index) as int, FatSize(file, index) as int;
    if size < 32 || offset + size > |file| then None else Some(Extent(offset, offset + size))
  }

  function FatSlices(file: seq<byte>): (r: seq<Option<Extent>>)
    requires |file| >= 32 && FatTable(file)
    ensures |r| == Be32(file, 4) as nat
    ensures forall i :: 0 <= i < |r| ==> r[i] == FatSlice(file, i)
  {
    seq(Be32(file, 4) as nat, i requires 0 <= i < Be32(file, 4) as nat => FatSlice(file, i))
  }

  lemma EntryInside(file: seq<byte>, index: nat)
    requires |file| >= 32 && FatTable(file) && index < Be32(file, 4) as nat
    ensures 8 + (index + 1) * EntrySize(file) <= |file|
  {
    assert (index + 1) * EntrySize(file) <= Be32(file, 4) as int * EntrySize(file);
  }

  /** The hashes after one architecture of a universal binary. */
  function AfterExtent(file: seq<byte>, extent: Option<Extent>, before: seq<CdHash>,
                       digest: Digest): Option<seq<CdHash>> {
    if extent.None? || !(extent.value.start <= extent.value.end <= |file|) then None
    else AfterSlice(file[extent.value.start..extent.value.end], before, digest)
  }

  function AfterExtents(file: seq<byte>, extents: seq<Option<Extent>>, digest: Digest): Option<seq<CdHash>> {
    if extents == [] then Some([])
    else
      var r := AfterExtents(file, extents[..|extents| - 1], digest);
      if r.None? then None else AfterExtent(file, extents[|extents| - 1], r.value, digest)
  }

  /** The code-directory hashes of an opened executable, if it is accepted. */
  function OpenedHashes(file: seq<byte>, digest: Digest): Option<seq<CdHash>> {
    if |file| < 32 then None
    else if !IsFat(file) then AfterSlice(file, [], digest)
    else if !FatTable(file) then None
    else
      var r := AfterExtents(file, FatSlices(file), digest);
      if r.Some? && r.value != [] then r else None
  }

  method HashFatEntry(file: seq<byte>, index: u32, hashes: CdHashes, digest: Digest) returns (ok: bool)
    requires 32 <= |file| <= MAX_OFFSET as int && FatTable(file) && index < Be32(file, 4) && hashes.Valid()
    modifies hashes`count, hashes.values
    ensures hashes.Valid()
    ensures ok <==> AfterExtent(file, FatSlice(file, index as nat), old(hashes.Contents()), digest).Some?
    ensures ok ==>
            Some(hashes.Contents()) == AfterExtent(file, FatSlice(file, index as nat), old(hashes.Contents()), digest)
  {
    var offset, size, inside := ReadFatEntry(file, index);
    if !inside {
      return false;
    }
    ok := MachoSliceCdHashes(file, offset, size, hashes, digest);
  }

  method ReadFatEntry(file: seq<byte>, index: u32) returns (offset: u64, size: u64, inside: bool)
    requires 32 <= |file| <= MAX_OFFSET as int && FatTable(file) && index < Be32(file, 4)
    ensures inside <==> FatSlice(file, index as nat).Some?
    ensures inside ==> FatSlice(file, index as nat) == Some(Extent(offset as nat, offset as nat + size as nat))
  {
    var fileSize := |file| as u64;
    EntryInside(file, index as nat);
    offset, size := FatOffset(file, index as nat), FatSize(file, index as nat);
    inside := size >= HEADER_SIZE as u64 && offset <= fileSize && size <= fileSize - offset;
  }

  method OpenedCdHashes(file: seq<byte>, digest: Digest) returns (hashes: CdHashes, ok: bool)
    requires |file| <= MAX_OFFSET as int
    ensures fresh(hashes) && fresh(hashes.values) && hashes.Valid() && (ok <==> OpenedHashes(file, digest).Some?)
    ensures ok ==> Some(hashes.Contents()) == OpenedHashes(file, digest)
  {
    hashes := new CdHashes();
    if |file| < HEADER_SIZE as int {
      return hashes, false;
    }
    var magic := Be32(file, 0);
    if magic != FAT_MAGIC && magic != FAT_64_MAGIC {
      assert file[0..|file|] == file;
      ok := MachoSliceCdHashes(file, 0, |file| as u64, hashes, digest);
      return;
    }
    ok := HashFatEntries(file, hashes, digest);
  }

  method CheckFatTable(file: seq<byte>) returns (ok: bool)
    requires 32 <= |file| <= MAX_OFFSET as int && IsFat(file)
    ensures ok <==> FatTable(file)
  {
    var count := Be32(file, 4) as u64;
    if count == 0 || count > 32 {
      return false;
    }
    var tableSize := if Be32(file, 0) == FAT_64_MAGIC then count * 32 else count * 20;
    ok := 8 + tableSize <= |file| as u64;
  }

  method HashFatEntries(file: seq<byte>, hashes: CdHashes, digest: Digest) returns (ok: bool)
    requires 32 <= |file| <= MAX_OFFSET as int && IsFat(file) && hashes.Valid() && hashes.Contents() == []
    modifies hashes`count, hashes.values
    ensures hashes.Valid() && (ok <==> OpenedHashes(file, digest).Some?)
    ensures ok ==> Some(hashes.Contents()) == OpenedHashes(file, digest)
  {
    ok := CheckFatTable(file);
    if ok {
      ok := HashEachEntry(file, hashes, digest);
    }
  }

  method HashEachEntry(file: seq<byte>, hashes: CdHashes, digest: Digest) returns (ok: bool)
    requires 32 <= |file| <= MAX_OFFSET as int && FatTable(file) && hashes.Valid() && hashes.Contents() == []
    modifies hashes`count, hashes.values
    ensures hashes.Valid()
    ensures ok <==>
            AfterExtents(file, FatSlices(file), digest).Some?
            && AfterExtents(file, FatSlices(file), digest).value != []
    ensures ok ==> Some(hashes.Contents()) == AfterExtents(file, FatSlices(file), digest)
  {
    ghost var extents := FatSlices(file);
    var count := Be32(file, 4);
    var index: u32 := 0;
    while index < count
      invariant index <= count && hashes.Valid()
      invariant AfterExtents(file, extents[..index as nat], digest) == Some(hashes.Contents())
    {
      assert extents[..index as nat + 1][..index as nat] == extents[..index as nat];
      ok := HashFatEntry(file, index, hashes, digest);
      if !ok {
        ExtentsFail(file, extents, index as nat + 1, digest);
        return;
      }
      index := index + 1;
    }
    assert extents[..count as nat] == extents;
    ok := hashes.count > 0;
  }

  lemma {:induction false} ExtentsFail(file: seq<byte>, extents: seq<Option<Extent>>, n: nat, digest: Digest)
    requires n <= |extents| && AfterExtents(file, extents[..n], digest).None?
    ensures AfterExtents(file, extents, digest).None?
    decreases |extents| - n
  {
    if n == |extents| {
      assert extents[..n] == extents;
    } else {
      assert extents[..n + 1][..n] == extents[..n];
      ExtentsFail(file, extents, n + 1, digest);
    }
  }

  // ---------------------------------------------------------------- what acceptance means

  /** The starts of the commands of an area: each begins where the one before it ends. */
  ghost predicate BackToBack(area: seq<byte>, starts: seq<nat>, little: bool) {
    && starts != [] && starts[|starts| - 1] == |area|
    && forall k :: 0 <= k < |starts| - 1 ==> Follows(area, starts, k, little)
  }

  ghost predicate Follows(area: seq<byte>, starts: seq<nat>, k: nat, little: bool)
    requires k + 1 < |starts|
  {
    CommandAt(area, starts[k], little) && starts[k + 1] == starts[k] + CommandSize(area, starts[k], little)
  }

  /** The signature location after some commands: that of the last signature command, if any. */
  ghost function LastSignature(area: seq<byte>, starts: seq<nat>, little: bool, found: Found): Found
    requires BackToBack(area, starts, little) && SignaturesWellSized(area, starts, little)
    decreases |starts|
  {
    if |starts| == 1 then found
    else
      TailBackToBack(area, starts, little);
      assert Follows(area, starts, 0, little);
      LastSignature(area, starts[1..], little,
                    if IsSignature(area, starts[0], little) then SignatureAt(area, starts[0], little) else found)
  }

  ghost predicate SignatureSizedAt(area: seq<byte>, start: nat, little: bool) {
    CommandAt(area, start, little) && IsSignature(area, start, little) ==> CommandSize(area, start, little) == 16
  }

  ghost predicate SignaturesWellSized(area: seq<byte>, starts: seq<nat>, little: bool) {
    forall k :: 0 <= k < |starts| - 1 ==> SignatureSizedAt(area, starts[k], little)
  }

  lemma TailBackToBack(area: seq<byte>, starts: seq<nat>, little: bool)
    requires BackToBack(area, starts, little) && |starts| > 1
    ensures BackToBack(area, starts[1..], little)
    ensures SignaturesWellSized(area, starts, little) ==> SignaturesWellSized(area, starts[1..], little)
  {
    var tail := starts[1..];
    forall k | 0 <= k < |tail| - 1 ensures Follows(area, tail, k, little) {
      assert Follows(area, starts, k + 1, little);
    }
    forall k | 0 <= k < |tail| - 1 && SignaturesWellSized(area, starts, little)
      ensures SignatureSizedAt(area, tail[k], little)
    {
      assert SignatureSizedAt(area, starts[k + 1], little);
    }
  }

  /** Acceptance of the load commands: the area is exactly `n` back-to-back commands. */
  lemma {:induction false} WalkIsBackToBack(area: seq<byte>, at: nat, n: nat, little: bool, found: Found)
    returns (starts: seq<nat>)
    requires WalkCommands(area, at, n, little, found).Some?
    ensures |starts| == n + 1 && starts[0] == at && BackToBack(area, starts, little)
    ensures SignaturesWellSized(area, starts, little)
    ensures LastSignature(area, starts, little, found) == WalkCommands(area, at, n, little, found).value
    decreases n
  {
    if n == 0 {
      starts := [at];
    } else {
      var next := at + CommandSize(area, at, little);
      var now := if IsSignature(area, at, little) then SignatureAt(area, at, little) else found;
      var rest := WalkIsBackToBack(area, next, n - 1, little, now);
      ConsBackToBack(area, at, rest, little, found);
      starts := [at] + rest;
    }
  }

  lemma ConsBackToBack(area: seq<byte>, at: nat, rest: seq<nat>, little: bool, found: Found)
    requires CommandAt(area, at, little) && BackToBack(area, rest, little) && SignaturesWellSized(area, rest, little)
    requires rest[0] == at + CommandSize(area, at, little) && SignatureSizedAt(area, at, little)
    ensures BackToBack(area, [at] + rest, little) && SignaturesWellSized(area, [at] + rest, little)
    ensures LastSignature(area, [at] + rest, little, found)
         == LastSignature(area, rest, little,
                          if IsSignature(area, at, little) then SignatureAt(area, at, little) else found)
  {
    var starts := [at] + rest;
    forall k | 0 <= k < |starts| - 1
      ensures Follows(area, starts, k, little) && SignatureSizedAt(area, starts[k], little)
    {
      if k > 0 {
        assert Follows(area, rest, k - 1, little) && SignatureSizedAt(area, rest[k - 1], little);
      }
    }
    assert starts[1..] == rest;
  }

  /** The starts are determined by the area, so there is one way to read it. */
  lemma {:induction false} StartsUnique(area: seq<byte>, a: seq<nat>, b: seq<nat>, little: bool)
    requires BackToBack(area, a, little) && BackToBack(area, b, little) && a[0] == b[0]
    ensures a == b
    decreases |a|
  {
    if |a| > 1 {
      assert Follows(area, a, 0, little);
    }
    if |b| > 1 {
      assert Follows(area, b, 0, little);
    }
    if |a| > 1 && |b| > 1 {
      TailBackToBack(area, a, little);
      TailBackToBack(area, b, little);
      StartsUnique(area, a[1..], b[1..], little);
      assert a == [a[0]] + a[1..] && b == [b[0]] + b[1..];
    }
  }

  predicate SignatureCommand(area: seq<byte>, start: nat, little: bool) {
    CommandAt(area, start, little) && CommandSize(area, start, little) == 16 && IsSignature(area, start, little)
  }

  /** A signature command may be followed by another only if the first is empty. */
  predicate MayFollow(area: seq<byte>, start: nat, next: nat, little: bool) {
    SignatureCommand(area, start, little) && SignatureCommand(area, next, little) ==>
      SignatureAt(area, start, little).size == 0
  }

  ghost predicate EarlierEmpty(area: seq<byte>, starts: seq<nat>, little: bool) {
    forall k, l :: 0 <= k < l < |starts| - 1 ==> MayFollow(area, starts[k], starts[l], little)
  }

  ghost predicate NoneAfter(area: seq<byte>, starts: seq<nat>, little: bool, found: Found) {
    found.size != 0 ==> forall k :: 0 <= k < |starts| - 1 ==> !SignatureCommand(area, starts[k], little)
  }

  /** A list of commands the scan accepts, stated on the whole list. */
  ghost predicate WellFormedCommands(area: seq<byte>, starts: seq<nat>, little: bool, found: Found) {
    && BackToBack(area, starts, little) && SignaturesWellSized(area, starts, little)
    && EarlierEmpty(area, starts, little) && NoneAfter(area, starts, little, found)
  }

  lemma {:induction false} ScannedIsWellFormed(area: seq<byte>, starts: seq<nat>, little: bool, found: Found)
    requires BackToBack(area, starts, little)
    requires WalkCommands(area, starts[0], |starts| - 1, little, found).Some?
    ensures WellFormedCommands(area, starts, little, found)
    decreases |starts|
  {
    if |starts| > 1 {
      assert Follows(area, starts, 0, little);
      var now := if IsSignature(area, starts[0], little) then SignatureAt(area, starts[0], little) else found;
      var tail := starts[1..];
      TailBackToBack(area, starts, little);
      ScannedIsWellFormed(area, tail, little, now);
      forall k | 0 <= k < |starts| - 1 ensures SignatureSizedAt(area, starts[k], little) {
        assert k > 0 ==> SignatureSizedAt(area, tail[k - 1], little);
      }
      forall k, l | 0 <= k < l < |starts| - 1 ensures MayFollow(area, starts[k], starts[l], little) {
        assert k > 0 ==> MayFollow(area, tail[k - 1], tail[l - 1], little);
        assert starts[l] == tail[l - 1];
      }
      forall k | 0 <= k < |starts| - 1 && found.size != 0 ensures !SignatureCommand(area, starts[k], little) {
        assert k > 0 ==> starts[k] == tail[k - 1];
      }
    }
  }

  lemma {:induction false} WellFormedIsScanned(area: seq<byte>, starts: seq<nat>, little: bool, found: Found)
    requires WellFormedCommands(area, starts, little, found)
    ensures WalkCommands(area, starts[0], |starts| - 1, little, found).Some?
    decreases |starts|
  {
    if |starts| > 1 {
      assert Follows(area, starts, 0, little) && SignatureSizedAt(area, starts[0], little);
      var now := if IsSignature(area, starts[0], little) then SignatureAt(area, starts[0], little) else found;
      var tail := starts[1..];
      TailBackToBack(area, starts, little);
      forall k, l | 0 <= k < l < |tail| - 1 ensures MayFollow(area, tail[k], tail[l], little) {
        assert MayFollow(area, starts[k + 1], starts[l + 1], little);
      }
      forall k | 0 <= k < |tail| - 1 && now.size != 0 ensures !SignatureCommand(area, tail[k], little) {
        assert MayFollow(area, starts[0], starts[k + 1], little);
      }
      WellFormedIsScanned(area, tail, little, now);
    }
  }

  /** The command area is accepted exactly when it is `n` back-to-back commands, well formed as a list. */
  lemma CommandsAcceptedIff(area: seq<byte>, n: nat, little: bool)
    ensures WalkCommands(area, 0, n, little, Found(0, 0)).Some? <==>
            exists starts: seq<nat> :: |starts| == n + 1 && starts[0] == 0
                                       && WellFormedCommands(area, starts, little, Found(0, 0))
  {
    if WalkCommands(area, 0, n, little, Found(0, 0)).Some? {
      var starts := WalkIsBackToBack(area, 0, n, little, Found(0, 0));
      ScannedIsWellFormed(area, starts, little, Found(0, 0));
    }
    if exists starts: seq<nat> ::
         |starts| == n + 1 && starts[0] == 0 && WellFormedCommands(area, starts, little, Found(0, 0)) {
      var starts: seq<nat> :| |starts| == n + 1 && starts[0] == 0
          && WellFormedCommands(area, starts, little, Found(0, 0));
      WellFormedIsScanned(area, starts, little, Found(0, 0));
    }
  }

  /** No hash twice, and no more than the table holds. */
  ghost predicate Clean(hashes: seq<CdHash>) {
    |hashes| <= MAX_CD_HASHES && forall i, j :: 0 <= i < j < |hashes| ==> hashes[i] != hashes[j]
  }

  /** The hash of a code directory lying inside the first `length` bytes of a superblob. */
  ghost predicate HashedInside(s: seq<byte>, length: nat, h: CdHash, digest: Digest) {
    exists offset: nat :: length <= |s| && CodeDirectoryAt(s, offset, length)
                          && HashCodeDirectory(Blob(s, offset, length), digest) == Some(h)
  }

  /** The hash of a code directory inside a superblob of the file. */
  ghost predicate Sealed(file: seq<byte>, h: CdHash, digest: Digest) {
    exists start: nat, end: nat ::
      start <= end <= |file| && SuperblobHeader(file[start..end])
      && HashedInside(file[start..end], Be32(file[start..end], 4) as nat, h, digest)
  }

  lemma AddClean(hashes: seq<CdHash>, h: CdHash)
    requires Clean(hashes) && Add(hashes, h).Some?
    ensures Clean(Add(hashes, h).value)
    ensures forall x :: x in Add(hashes, h).value <==> x in hashes || x == h
  {}

  lemma {:induction false} EntriesSound(s: seq<byte>, n: nat, before: seq<CdHash>, digest: Digest)
    requires SuperblobHeader(s) && n <= Be32(s, 8) as nat && Clean(before)
    requires AfterEntries(s, n, before, digest).Some?
    ensures Clean(AfterEntries(s, n, before, digest).value) && before <= AfterEntries(s, n, before, digest).value
    ensures forall h :: h in AfterEntries(s, n, before, digest).value ==>
              h in before || HashedInside(s, Be32(s, 4) as nat, h, digest)
  {
    if n > 0 {
      EntriesSound(s, n - 1, before, digest);
      var hashes, length := AfterEntries(s, n - 1, before, digest).value, Be32(s, 4) as nat;
      if HoldsCodeDirectory(EntrySlot(s, n - 1)) {
        var offset := EntryOffset(s, n - 1);
        var h := HashCodeDirectory(Blob(s, offset, length), digest).value;
        AddClean(hashes, h);
        assert HashedInside(s, length, h, digest);
      }
    }
  }

  lemma SignatureInside(slice: seq<byte>, before: seq<CdHash>, digest: Digest) returns (from: nat, to: nat)
    requires AfterSlice(slice, before, digest).Some?
    ensures from <= to <= |slice|
            && AfterSlice(slice, before, digest) == AfterSuperblob(slice[from..to], before, digest)
  {
    var area := CommandArea(slice).value;
    var found := WalkCommands(area, 0, CommandCount(slice), IsLittle(slice), Found(0, 0)).value;
    from, to := found.offset as nat, found.offset as nat + found.size as nat;
  }

  ghost predicate Sound(file: seq<byte>, before: seq<CdHash>, after: seq<CdHash>, digest: Digest) {
    after != [] && Clean(after) && forall h :: h in after ==> h in before || Sealed(file, h, digest)
  }

  lemma SuperblobSound(file: seq<byte>, start: nat, end: nat, before: seq<CdHash>, digest: Digest)
    requires start <= end <= |file| && Clean(before) && AfterSuperblob(file[start..end], before, digest).Some?
    ensures Sound(file, before, AfterSuperblob(file[start..end], before, digest).value, digest)
  {
    var s := file[start..end];
    EntriesSound(s, Be32(s, 8) as nat, before, digest);
  }

  lemma SliceTwice(file: seq<byte>, base: nat, end: nat, from: nat, to: nat)
    requires base <= end <= |file| && from <= to <= end - base
    ensures file[base..end][from..to] == file[base + from..base + to]
  {
    var whole := file[base..end];
    forall i | 0 <= i < to - from ensures whole[from..to][i] == file[base + from..base + to][i] {
      assert whole[from..to][i] == whole[from + i];
    }
  }

  lemma SliceSound(file: seq<byte>, base: nat, end: nat, slice: seq<byte>, before: seq<CdHash>, digest: Digest)
    requires base <= end <= |file| && slice == file[base..end] && Clean(before)
             && AfterSlice(slice, before, digest).Some?
    ensures Sound(file, before, AfterSlice(slice, before, digest).value, digest)
  {
    var from, to := SignatureInside(slice, before, digest);
    SliceTwice(file, base, end, from, to);
    SuperblobSound(file, base + from, base + to, before, digest);
  }

  lemma {:induction false} ExtentsSound(file: seq<byte>, extents: seq<Option<Extent>>, digest: Digest)
    requires AfterExtents(file, extents, digest).Some?
    ensures Clean(AfterExtents(file, extents, digest).value)
    ensures forall h :: h in AfterExtents(file, extents, digest).value ==> Sealed(file, h, digest)
  {
    if extents != [] {
      var init, last := extents[..|extents| - 1], extents[|extents| - 1];
      ExtentsSound(file, init, digest);
      var start, end := last.value.start, last.value.end;
      SliceSound(file, start, end, file[start..end], AfterExtents(file, init, digest).value, digest);
    }
  }

  /**
   An accepted file yields hashes that are nonempty, duplicate-free and at most 64, each the hash of a
   code directory lying inside a superblob of the file.
   */
  lemma AcceptedHashesSound(file: seq<byte>, digest: Digest)
    requires OpenedHashes(file, digest).Some?
    ensures var hashes := OpenedHashes(file, digest).value;
            hashes != [] && Clean(hashes) && forall h :: h in hashes ==> Sealed(file, h, digest)
  {
    if IsFat(file) {
      ExtentsSound(file, FatSlices(file), digest);
    } else {
      assert file[0..|file|] == file;
      SliceSound(file, 0, |file|, file, [], digest);
    }
  }

  /**
   A later architecture may add nothing: a superblob without code directories passes exactly when an
   earlier architecture has already given a hash.
   */
  lemma {:induction false} NoCodeDirectory(s: seq<byte>, n: nat, before: seq<CdHash>, digest: Digest)
    requires SuperblobHeader(s) && n <= Be32(s, 8) as nat
    requires forall index: nat :: index < n ==> !HoldsCodeDirectory(EntrySlot(s, index))
    ensures AfterEntries(s, n, before, digest) == Some(before)
    ensures n == Be32(s, 8) as nat ==> (AfterSuperblob(s, before, digest).Some? <==> before != [])
  {
    if n > 0 {
      NoCodeDirectory(s, n - 1, before, digest);
    }
  }

  /** One index entry, of a slot that holds no code directory: refused alone, passed after another architecture. */
  lemma NoCodeDirectoryPasses(s: seq<byte>, h: CdHash, digest: Digest)
    requires s == [0xfa, 0xde, 0x0c, 0xc0] + [0, 0, 0, 20] + [0, 0, 0, 1] + [0, 0, 0, 5] + [0, 0, 0, 0]
    ensures AfterSuperblob(s, [], digest) == None && AfterSuperblob(s, [h], digest) == Some([h])
  {
    assert SuperblobHeader(s) && Be32(s, 8) == 1 && EntrySlot(s, 0) == 5;
    NoCodeDirectory(s, 1, [], digest);
    NoCodeDirectory(s, 1, [h], digest);
  }

  lemma TwoSignatures(area: seq<byte>, little: bool)
    requires |area| == 32 && CommandSize(area, 0, little) == CommandSize(area, 16, little) == 16
    requires IsSignature(area, 0, little) && IsSignature(area, 16, little) && SignatureAt(area, 0, little).size == 0
    ensures WalkCommands(area, 0, 2, little, Found(0, 0)) == Some(SignatureAt(area, 16, little))
  {
    var first, second := SignatureAt(area, 0, little), SignatureAt(area, 16, little);
    assert WalkCommands(area, 32, 0, little, second) == Some(second);
    assert WalkCommands(area, 16, 1, little, first) == Some(second);
  }

  /** A signature command of size zero, and the real one after it: both pass, and the second counts. */
  lemma EmptySignatureFirst(area: seq<byte>)
    requires |area| == 32
    requires area[..8] == [0x1d, 0, 0, 0, 16, 0, 0, 0] && area[8..16] == [0, 0, 0, 0, 0, 0, 0, 0]
    requires area[16..24] == [0x1d, 0, 0, 0, 16, 0, 0, 0] && area[24..] == [64, 0, 0, 0, 1, 0, 0, 0]
    ensures WalkCommands(area, 0, 2, true, Found(0, 0)) == Some(Found(64, 1))
  {
    assert forall i :: 0 <= i < 8 ==> area[i] == area[..8][i] && area[8 + i] == area[8..16][i];
    assert forall i :: 0 <= i < 8 ==> area[16 + i] == area[16..24][i] && area[24 + i] == area[24..][i];
    TwoSignatures(area, true);
  }
}
