/**
  Directory entries: fill_directory_entry in fat12.c, and the display name
  find_directory_entry compares path components with.

  A 32-byte slot holds the 11-character name and extension at bytes 0..10, the
  attribute byte at 11 (bit 0x10 marks a directory), the creation time at 22,
  the creation date at 24, the first cluster at 26 and the file size at 28.
*/
module DirEntries {
  import opened Bytes
  import opened Names

  /** The creation time fields of `struct tm` the accessor fills in. The year
      counts from 1900, as `struct tm` does, while FAT12 counts from 1980. */
  datatype Timestamp = Timestamp(hour: nat, min: nat, sec: nat, year: nat, mon: nat, mday: nat)

  /** The dir_entry structure. */
  datatype DirEntry = DirEntry(
    filename: string,
    isDirectory: bool,
    ctime: Timestamp,
    size: nat,
    firstCluster: nat)

  const NameLength: nat := 11
  const DirectoryBit: nat := 0x10

  /** The creation timestamp from the packed time and date words. The time word
      packs hour (bits 15-11), minute (bits 10-5) and seconds / 2 (bits 4-0); the
      date word packs years since 1980 (bits 15-9), month (bits 8-5) and day
      (bits 4-0). Each shift-and-mask of the C code is a division by a power of
      two followed by a remainder. */
  function DecodeTimestamp(time: nat, date: nat): (t: Timestamp)
    ensures t.hour <= 31 && t.min <= 63
    ensures t.sec % 2 == 0 && t.sec <= 62
    ensures 80 <= t.year <= 207 && t.mon <= 15 && t.mday <= 31
  {
    Timestamp(
      hour := (time / 0x800) % 0x20,      // ((1 << 5) - 1) & (time >> (16 - 5))
      min := (time / 0x20) % 0x40,        // ((1 << 6) - 1) & (time >> (6 - 1))
      sec := 2 * (time % 0x20),           // 2 * (((1 << 5) - 1) & time)
      year := (date / 0x200) % 0x80 + 80, // (0x7f & (date >> 9)) + 80
      mon := (date / 0x20) % 0x10,        // 0x0f & date >> (6 - 1)
      mday := date % 0x20)                // ((1 << 5) - 1) & date
  }

  /** Bytes read as characters. */
  function Chars(bs: seq<byte>): (s: string)
    ensures |s| == |bs|
    ensures forall k :: 0 <= k < |bs| ==> s[k] == bs[k] as char
  {
    if bs == [] then [] else [bs[0] as char] + Chars(bs[1..])
  }

  /** fill_directory_entry. */
  function FillDirectoryEntry(data: seq<byte>): (e: DirEntry)
    requires |data| >= 32
    ensures |e.filename| == NameLength
    ensures forall k :: 0 <= k < NameLength ==> e.filename[k] == data[k] as char
    ensures e.isDirectory <==> (data[11] as int / DirectoryBit) % 2 == 1
    ensures e.firstCluster == data[26] + 256 * (data[27] as int)
    ensures e.size == data[28] + 0x100 * (data[29] as int) + 0x1_0000 * (data[30] as int)
                      + 0x100_0000 * (data[31] as int)
    ensures e.ctime == DecodeTimestamp(data[22] + 256 * (data[23] as int), data[24] + 256 * (data[25] as int))
  {
    var date := LittleEndian(data, 24, 2);
    var time := LittleEndian(data, 22, 2);
    var directoryBit := LittleEndian(data, 11, 1);
    SlotFields(data);
    DirEntry(
      filename := Chars(data[..NameLength]),
      isDirectory := (directoryBit / DirectoryBit) % 2 == 1,
      ctime := DecodeTimestamp(time, date),
      size := LittleEndian(data, 28, 4),
      firstCluster := LittleEndian(data, 26, 2))
  }

  /** The little-endian fields of a slot, byte by byte. */
  lemma SlotFields(data: seq<byte>)
    requires |data| >= 32
    ensures LittleEndian(data, 11, 1) == data[11]
    ensures LittleEndian(data, 22, 2) == data[22] + 256 * (data[23] as int)
    ensures LittleEndian(data, 24, 2) == data[24] + 256 * (data[25] as int)
    ensures LittleEndian(data, 26, 2) == data[26] + 256 * (data[27] as int)
    ensures LittleEndian(data, 28, 4)
         == data[28] + 0x100 * (data[29] as int) + 0x1_0000 * (data[30] as int) + 0x100_0000 * (data[31] as int)
  {
    LittleEndian2(data, 22);
    LittleEndian2(data, 24);
    LittleEndian2(data, 26);
    LittleEndian4(data, 28);
  }

  /** The decoded fields put back together give the packed time and date words
      (the year back on the 1980 epoch): no bit is lost or counted twice. */
  lemma TimestampRecompose(time: nat, date: nat)
    requires time < 0x1_0000 && date < 0x1_0000
    ensures var t := DecodeTimestamp(time, date);
      && t.hour * 0x800 + t.min * 0x20 + t.sec / 2 == time
      && (t.year - 80) * 0x200 + t.mon * 0x20 + t.mday == date
  {
    var t := DecodeTimestamp(time, date);
    var q := time / 0x20;
    assert time == q * 0x20 + time % 0x20;
    assert q == (q / 0x40) * 0x40 + q % 0x40;
    assert q / 0x40 == time / 0x800;
    var d := date / 0x20;
    assert date == d * 0x20 + date % 0x20;
    assert d == (d / 0x10) * 0x10 + d % 0x10;
    assert d / 0x10 == date / 0x200;
  }

  /** The time fields of a decoded entry recompose to the words stored at
      offsets 22 (time) and 24 (date). */
  lemma EntryTimestampRecompose(data: seq<byte>)
    requires |data| >= 32
    ensures var t := FillDirectoryEntry(data).ctime;
      && t.hour * 0x800 + t.min * 0x20 + t.sec / 2 == data[22] + 256 * (data[23] as int)
      && (t.year - 80) * 0x200 + t.mon * 0x20 + t.mday == data[24] + 256 * (data[25] as int)
  {
    TimestampRecompose(data[22] + 256 * (data[23] as int), data[24] + 256 * (data[25] as int));
  }

  /** Entries whose fields fit the slot layout. */
  predicate ValidEntry(e: DirEntry) {
    && |e.filename| == NameLength
    && (forall k :: 0 <= k < NameLength ==> e.filename[k] as int < 256)
    && e.firstCluster < 0x1_0000
    && e.size < 0x1_0000_0000
    && e.ctime.hour < 32 && e.ctime.min < 64 && e.ctime.sec % 2 == 0 && e.ctime.sec < 64
    && 80 <= e.ctime.year < 208 && e.ctime.mon < 16 && e.ctime.mday < 32
  }

  /** Time and date words of an entry, packed the way a slot stores them. */
  function TimeWord(t: Timestamp): int {
    t.hour * 0x800 + t.min * 0x20 + t.sec / 2
  }

  function DateWord(t: Timestamp): int {
    (t.year - 80) * 0x200 + t.mon * 0x20 + t.mday
  }

  /** The 32-byte slot describing an entry; bytes 12..21 are zero. */
  function EncodeEntry(e: DirEntry): (slot: seq<byte>)
    requires ValidEntry(e)
    ensures |slot| == 32
  {
    var time, date, size := TimeWord(e.ctime), DateWord(e.ctime), e.size;
    seq(NameLength, k requires 0 <= k < NameLength => e.filename[k] as int as byte)
      + [if e.isDirectory then DirectoryBit else 0, 0, 0, 0, 0, 0, 0, 0, 0, 0, 0,
         time % 256, time / 256, date % 256, date / 256,
         e.firstCluster % 256, e.firstCluster / 256,
         size % 256, (size / 256) % 256, (size / 256 / 256) % 256, size / 256 / 256 / 256]
  }

  /** Decoding an encoded slot gives the entry back. */
  lemma DecodeEncodedEntry(e: DirEntry)
    requires ValidEntry(e)
    ensures FillDirectoryEntry(EncodeEntry(e)) == e
  {
    EncodedSlotBytes(e);
    SizeBytes(EncodeEntry(e), e.size);
    DecodeSlot(EncodeEntry(e), e);
  }

  /** A slot whose bytes hold the fields of an in-range entry decodes to it. */
  lemma DecodeSlot(slot: seq<byte>, e: DirEntry)
    requires ValidEntry(e) && |slot| == 32
    requires forall k :: 0 <= k < NameLength ==> slot[k] as char == e.filename[k]
    requires slot[11] == if e.isDirectory then DirectoryBit else 0
    requires slot[22] + 256 * (slot[23] as int) == TimeWord(e.ctime)
    requires slot[24] + 256 * (slot[25] as int) == DateWord(e.ctime)
    requires slot[26] + 256 * (slot[27] as int) == e.firstCluster
    requires slot[28] + 0x100 * (slot[29] as int) + 0x1_0000 * (slot[30] as int)
             + 0x100_0000 * (slot[31] as int) == e.size
    ensures FillDirectoryEntry(slot) == e
  {
    SlotName(slot, e.filename);
    SlotDirectoryBit(slot, e.isDirectory);
    SlotTimestamp(slot, e.ctime);
  }

  /** The directory flag of a slot whose attribute byte is 0x10 or 0. */
  lemma SlotDirectoryBit(slot: seq<byte>, isDirectory: bool)
    requires |slot| == 32
    requires slot[11] == if isDirectory then DirectoryBit else 0
    ensures FillDirectoryEntry(slot).isDirectory == isDirectory
  {
  }

  /** The name of a slot holding the characters of an 11-character name. */
  lemma SlotName(slot: seq<byte>, name: string)
    requires |slot| == 32 && |name| == NameLength
    requires forall k :: 0 <= k < NameLength ==> slot[k] as char == name[k]
    ensures FillDirectoryEntry(slot).filename == name
  {
  }

  /** The timestamp of a slot holding the packed words of an in-range timestamp. */
  lemma SlotTimestamp(slot: seq<byte>, t: Timestamp)
    requires |slot| == 32
    requires t.hour < 32 && t.min < 64 && t.sec % 2 == 0 && t.sec < 64
    requires 80 <= t.year < 208 && t.mon < 16 && t.mday < 32
    requires slot[22] + 256 * (slot[23] as int) == TimeWord(t)
    requires slot[24] + 256 * (slot[25] as int) == DateWord(t)
    ensures FillDirectoryEntry(slot).ctime == t
  {
    DecodeEncodedTimestamp(t);
  }

  /** The size field of a slot holding the four bytes of a 32-bit size. */
  lemma SizeBytes(slot: seq<byte>, size: nat)
    requires size < 0x1_0000_0000 && |slot| == 32
    requires slot[28] == size % 256 && slot[29] == (size / 256) % 256
    requires slot[30] == (size / 256 / 256) % 256 && slot[31] == size / 256 / 256 / 256
    ensures slot[28] + 0x100 * (slot[29] as int) + 0x1_0000 * (slot[30] as int)
            + 0x100_0000 * (slot[31] as int) == size
  {
    FourBytes(size);
  }

  /** Unpacking the packed words of an in-range timestamp gives it back. */
  lemma DecodeEncodedTimestamp(t: Timestamp)
    requires t.hour < 32 && t.min < 64 && t.sec % 2 == 0 && t.sec < 64
    requires 80 <= t.year < 208 && t.mon < 16 && t.mday < 32
    ensures DecodeTimestamp(TimeWord(t), DateWord(t)) == t
  {
    PackedFields(t.hour, 0x40, t.min, t.sec / 2);
    PackedFields(t.year - 80, 0x10, t.mon, t.mday);
  }

  /** A 16-bit word packing a high field, a middle field below `mid` and a
      five-bit low field splits back into the three. */
  lemma PackedFields(high: nat, mid: nat, middle: nat, low: nat)
    requires mid == 0x40 || mid == 0x10
    requires high < 0x1_0000 / (mid * 0x20) && middle < mid && low < 0x20
    ensures var w := (high * mid + middle) * 0x20 + low;
      && w % 0x20 == low && (w / 0x20) % mid == middle && (w / 0x20 / mid) % (0x1_0000 / (mid * 0x20)) == high
      && w == high * (mid * 0x20) + middle * 0x20 + low
  {
    var w := (high * mid + middle) * 0x20 + low;
    assert w / 0x20 == high * mid + middle;
    if mid == 0x40 {
      assert (high * 0x40 + middle) / 0x40 == high;
    } else {
      assert (high * 0x10 + middle) / 0x10 == high;
    }
  }

  /** The bytes of an encoded slot, field by field. */
  lemma EncodedSlotBytes(e: DirEntry)
    requires ValidEntry(e)
    ensures var slot := EncodeEntry(e);
      var time, date := TimeWord(e.ctime), DateWord(e.ctime);
      && 0 <= time < 0x1_0000 && 0 <= date < 0x1_0000
      && (forall k :: 0 <= k < NameLength ==> slot[k] as char == e.filename[k])
      && (slot[11] == if e.isDirectory then DirectoryBit else 0)
      && slot[22] + 256 * (slot[23] as int) == time
      && slot[24] + 256 * (slot[25] as int) == date
      && slot[26] + 256 * (slot[27] as int) == e.firstCluster
      && slot[28] == e.size % 256 && slot[29] == (e.size / 256) % 256
      && slot[30] == (e.size / 256 / 256) % 256 && slot[31] == e.size / 256 / 256 / 256
  {
  }

  /** Four bytes taken off a 32-bit number by repeated division add back up to it. */
  lemma FourBytes(x: nat)
    requires x < 0x1_0000_0000
    ensures x % 256 + 0x100 * ((x / 256) % 256) + 0x1_0000 * ((x / 256 / 256) % 256)
            + 0x100_0000 * (x / 256 / 256 / 256) == x
  {
    var y := x / 256;
    var z := y / 256;
    assert x == x % 256 + 256 * y;
    assert y == y % 256 + 256 * z;
    assert z == z % 256 + 256 * (z / 256);
  }

  /** The name find_directory_entry compares: a period is added after the
      eighth character of a file's name (add_period), then all spaces are
      removed (remove_spaces). */
  function NormalizedName(e: DirEntry): string
    requires |e.filename| == NameLength
  {
    WithoutSpaces(if e.isDirectory then e.filename else WithPeriod(e.filename))
  }

  /** The normalised name is the base name and the extension with their
      padding removed, joined by a period for a file and directly for a
      directory. */
  lemma NormalizedNameParts(e: DirEntry)
    requires |e.filename| == NameLength
    ensures NormalizedName(e)
         == WithoutSpaces(e.filename[..8]) + (if e.isDirectory then "" else ".")
            + WithoutSpaces(e.filename[8..])
  {
    var base, ext := e.filename[..8], e.filename[8..];
    assert e.filename == base + ext;
    WithoutSpacesAppend(base, ext);
    if !e.isDirectory {
      assert WithPeriod(e.filename) == (base + ".") + ext;
      WithoutSpacesAppend(base + ".", ext);
      WithoutSpacesAppend(base, ".");
      assert WithoutSpaces(".") == "." by {
        assert "."[..0] == [];
      }
    }
  }
}
