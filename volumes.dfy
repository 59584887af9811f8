/**
  The volume: open_volume_file, read_sectors and read_cluster in fat12.c.
  The volume file is modelled as the sequence of its bytes; seeking and reading
  become slicing that sequence.
*/
module Volumes {
  import opened Wrappers
  import opened Bytes

  /** Everything open_volume_file stores in the fat12volume structure. After
      opening, the accessor never changes it. */
  datatype Volume = Volume(
    image: seq<byte>,
    sectorSize: nat,
    clusterSize: nat,
    reservedSectors: nat,
    hiddenSectors: nat,
    fatOffset: nat,
    fatNumSectors: nat,
    fatCopies: nat,
    fat: seq<byte>,
    rootdirOffset: nat,
    rootdirEntries: nat,
    rootdirNumSectors: nat,
    rootdir: seq<byte>,
    clusterOffset: int)

  /** Size in bytes of a directory entry (DIR_ENTRY_SIZE). */
  const DirEntrySize: nat := 32

  /** The sector number read_cluster starts at: the constant 33 stands where
      the cluster_offset field computed by open_volume_file would belong. The
      unsigned int arithmetic wraps at 2^32. */
  const HardCodedClusterBase: nat := 33
  const U32: nat := 0x1_0000_0000

  function Min(a: int, b: int): int {
    if a <= b then a else b
  }

  /** Byte offset of a sector: first_sector * sector_size in unsigned int. */
  function SectorOffset(sectorSize: nat, firstSector: nat): nat {
    (firstSector * sectorSize) % U32
  }

  /** read_sectors. None stands for a return value of 0 with *buffer left
      untouched (no sector requested, or the offset lies beyond the end of the
      file). Some(data) stands for a return value of |data| with *buffer pointing
      at data; data may be shorter than requested (a short read at the end of the
      file), even empty when the offset is exactly the file length. */
  function ReadSectors(image: seq<byte>, sectorSize: nat, firstSector: nat, numSectors: nat): (r: Option<seq<byte>>)
    ensures r.None? <==> numSectors == 0 || SectorOffset(sectorSize, firstSector) > |image|
    ensures r.Some? ==>
      var off := SectorOffset(sectorSize, firstSector);
      && |r.value| == Min(numSectors * sectorSize, |image| - off)
      && off + |r.value| <= |image|
      && r.value == image[off..off + |r.value|]
  {
    var offset := SectorOffset(sectorSize, firstSector);
    if offset > |image| || numSectors == 0 then None
    else
      var arraySize := numSectors * sectorSize;
      Some(image[offset..offset + Min(arraySize, |image| - offset)])
  }

  /** True when a read delivered at least one byte (a non-zero return). */
  predicate Delivered(r: Option<seq<byte>>) {
    r.Some? && |r.value| > 0
  }

  /** A read that delivers bytes asked for a positive number of bytes. */
  lemma DeliveredHasPositiveSize(image: seq<byte>, sectorSize: nat, firstSector: nat, numSectors: nat)
    requires Delivered(ReadSectors(image, sectorSize, firstSector, numSectors))
    ensures sectorSize > 0 && numSectors > 0
  {
  }

  /** Reading m more sectors right after n sectors continues where the first
      read stopped: the two reads together give the read of n + m sectors. */
  lemma ReadSectorsConsecutive(image: seq<byte>, sectorSize: nat, first: nat, n: nat, m: nat)
    requires 0 < n && 0 < m
    requires (first + n + m) * sectorSize < U32
    requires ReadSectors(image, sectorSize, first, n).Some?
    ensures var whole := ReadSectors(image, sectorSize, first, n + m).value;
      var front := ReadSectors(image, sectorSize, first, n).value;
      match ReadSectors(image, sectorSize, first + n, m)
      case None => whole == front
      case Some(back) => whole == front + back
  {
    var off := first * sectorSize;
    var mid := (first + n) * sectorSize;
    assert mid == off + n * sectorSize;
    assert (first + n + m) * sectorSize == mid + m * sectorSize;
    assert first * sectorSize <= (first + n) * sectorSize <= (first + n + m) * sectorSize;
    assert SectorOffset(sectorSize, first) == off;
    assert SectorOffset(sectorSize, first + n) == mid;
    assert (n + m) * sectorSize == n * sectorSize + m * sectorSize;
  }

  /** The sector read_cluster starts at for a cluster number. */
  function ClusterFirstSector(v: Volume, cluster: nat): nat {
    (cluster * v.clusterSize + HardCodedClusterBase) % U32
  }

  /** Bytes in a cluster: cluster_size * sector_size. */
  function ClusterBytes(v: Volume): nat {
    v.clusterSize * v.sectorSize
  }

  /** read_cluster: cluster_size sectors from ClusterFirstSector. */
  function ReadCluster(v: Volume, cluster: nat): (r: Option<seq<byte>>)
    ensures r.Some? ==> |r.value| <= ClusterBytes(v)
  {
    ReadSectors(v.image, v.sectorSize, ClusterFirstSector(v, cluster), v.clusterSize)
  }

  /** What read_cluster delivers: nothing (a 0 return, *buffer untouched) when
      the cluster size is 0 or its first sector starts beyond the file, and
      otherwise the cluster_size sectors from sector cluster * cluster_size + 33
      (wrapping at 2^32), cut short at the end of the file. */
  lemma ReadClusterContents(v: Volume, cluster: nat)
    ensures var off := SectorOffset(v.sectorSize, ClusterFirstSector(v, cluster));
      && (ReadCluster(v, cluster).None? <==> v.clusterSize == 0 || off > |v.image|)
      && (ReadCluster(v, cluster).Some? ==>
            var data := ReadCluster(v, cluster).value;
            && |data| == Min(ClusterBytes(v), |v.image| - off)
            && data == v.image[off..off + |data|])
  {
    var off := SectorOffset(v.sectorSize, ClusterFirstSector(v, cluster));
    var r := ReadSectors(v.image, v.sectorSize, ClusterFirstSector(v, cluster), v.clusterSize);
    assert ReadCluster(v, cluster) == r;
    assert r.Some? ==> |r.value| == Min(v.clusterSize * v.sectorSize, |v.image| - off);
  }

  /** The sector where a cluster lies according to the cluster_offset field. */
  function ClusterHeapSector(v: Volume, cluster: nat): int {
    v.clusterOffset + cluster * v.clusterSize
  }

  /** The boot-sector relations every opened volume satisfies. */
  ghost predicate GeometryHolds(v: Volume) {
    && v.sectorSize > 0
    && v.fatOffset == v.reservedSectors
    && v.rootdirOffset == v.fatOffset + v.fatNumSectors * v.fatCopies
    && v.rootdirNumSectors == (v.rootdirEntries * DirEntrySize) / v.sectorSize
    && v.clusterOffset == v.rootdirOffset + v.rootdirNumSectors - 2 * v.clusterSize
  }

  /** The boot-sector fields open_volume_file reads, all little-endian. */
  datatype BootSector = BootSector(
    sectorSize: nat,        // offset 11, 2 bytes
    clusterSize: nat,       // offset 13, 1 byte
    reservedSectors: nat,   // offset 14, 2 bytes
    fatCopies: nat,         // offset 16, 1 byte
    rootdirEntries: nat,    // offset 17, 2 bytes
    fatNumSectors: nat,     // offset 22, 2 bytes
    hiddenSectors: nat)     // offset 28, 2 bytes

  function ParseBootSector(image: seq<byte>): (b: BootSector)
    requires |image| >= 30
    ensures b.sectorSize == image[11] + 256 * (image[12] as int)
    ensures b.clusterSize == image[13]
    ensures b.reservedSectors == image[14] + 256 * (image[15] as int)
    ensures b.fatCopies == image[16]
    ensures b.rootdirEntries == image[17] + 256 * (image[18] as int)
    ensures b.fatNumSectors == image[22] + 256 * (image[23] as int)
    ensures b.hiddenSectors == image[28] + 256 * (image[29] as int)
  {
    LittleEndian2(image, 11);
    LittleEndian2(image, 14);
    LittleEndian2(image, 17);
    LittleEndian2(image, 22);
    LittleEndian2(image, 28);
    BootSector(
      sectorSize := LittleEndian(image, 11, 2),
      clusterSize := LittleEndian(image, 13, 1),
      reservedSectors := LittleEndian(image, 14, 2),
      fatCopies := LittleEndian(image, 16, 1),
      rootdirEntries := LittleEndian(image, 17, 2),
      fatNumSectors := LittleEndian(image, 22, 2),
      hiddenSectors := LittleEndian(image, 28, 2))
  }

  /** The FAT read of open_volume_file: fat_num_sectors sectors at fat_offset,
      which is the reserved-sector count. */
  function FatRead(image: seq<byte>, b: BootSector): Option<seq<byte>> {
    ReadSectors(image, b.sectorSize, b.reservedSectors, b.fatNumSectors)
  }

  /** The root-directory read of open_volume_file: rootdir_entries * 32 bytes,
      in whole sectors, right after the FAT copies. */
  function RootRead(image: seq<byte>, b: BootSector): Option<seq<byte>>
    requires b.sectorSize > 0
  {
    ReadSectors(image, b.sectorSize, b.reservedSectors + b.fatNumSectors * b.fatCopies,
                (b.rootdirEntries * DirEntrySize) / b.sectorSize)
  }

  /** The second half of open_volume_file, once the FAT has been read. */
  function OpenRootDirectory(image: seq<byte>, b: BootSector, fat: seq<byte>): (r: Option<Volume>)
    requires b.sectorSize > 0
    ensures r.Some? <==> Delivered(RootRead(image, b))
    ensures r.Some? ==> var v := r.value;
      && v.image == image
      && GeometryHolds(v)
      && v.sectorSize == b.sectorSize && v.clusterSize == b.clusterSize
      && v.reservedSectors == b.reservedSectors && v.fatCopies == b.fatCopies
      && v.rootdirEntries == b.rootdirEntries && v.fatNumSectors == b.fatNumSectors
      && v.hiddenSectors == b.hiddenSectors
      && v.fat == fat
      && Delivered(ReadSectors(image, v.sectorSize, v.rootdirOffset, v.rootdirNumSectors))
      && v.rootdir == ReadSectors(image, v.sectorSize, v.rootdirOffset, v.rootdirNumSectors).value
  {
    var fatOffset := b.reservedSectors;
    var rootdirOffset := fatOffset + b.fatNumSectors * b.fatCopies;
    var rootdirNumSectors := (b.rootdirEntries * DirEntrySize) / b.sectorSize;
    var rootdir := RootRead(image, b);
    if !Delivered(rootdir) then None
    else
      Some(Volume(image, b.sectorSize, b.clusterSize, b.reservedSectors, b.hiddenSectors,
                  fatOffset, b.fatNumSectors, b.fatCopies, fat,
                  rootdirOffset, b.rootdirEntries, rootdirNumSectors, rootdir.value,
                  rootdirOffset + rootdirNumSectors - 2 * b.clusterSize))
  }

  /** open_volume_file, from the byte image of the volume file. None stands for
      the NULL it returns for an empty file or when the FAT or the root
      directory read returns 0. The hidden-sector count is stored but used
      nowhere. */
  function OpenVolume(image: seq<byte>): (r: Option<Volume>)
    requires |image| == 0 || |image| >= 30
    ensures |image| == 0 ==> r.None?
    ensures |image| > 0 && !Delivered(FatRead(image, ParseBootSector(image))) ==> r.None?
    ensures |image| > 0 && Delivered(FatRead(image, ParseBootSector(image))) ==>
      var b := ParseBootSector(image);
      && b.sectorSize > 0
      && (r.Some? <==> Delivered(RootRead(image, b)))
    ensures r.Some? ==> var v := r.value;
      && v.image == image
      && GeometryHolds(v)
      && BootSector(v.sectorSize, v.clusterSize, v.reservedSectors, v.fatCopies,
                    v.rootdirEntries, v.fatNumSectors, v.hiddenSectors) == ParseBootSector(image)
      && Delivered(FatRead(image, ParseBootSector(image)))
      && v.fat == FatRead(image, ParseBootSector(image)).value
      && Delivered(ReadSectors(image, v.sectorSize, v.rootdirOffset, v.rootdirNumSectors))
      && v.rootdir == ReadSectors(image, v.sectorSize, v.rootdirOffset, v.rootdirNumSectors).value
  {
    if |image| == 0 then None
    else
      var b := ParseBootSector(image);
      var fat := FatRead(image, b);
      if !Delivered(fat) then None
      else
        DeliveredHasPositiveSize(image, b.sectorSize, b.reservedSectors, b.fatNumSectors);
        OpenRootDirectory(image, b, fat.value)
  }

  /** For an opened volume, cluster 2 is located by cluster_offset at the first
      sector after the root directory region, and the FAT and root directory
      buffers are the bytes of their regions. */
  lemma OpenedVolumeLayout(image: seq<byte>)
    requires |image| >= 30
    requires OpenVolume(image).Some?
    ensures var v := OpenVolume(image).value;
      && ClusterHeapSector(v, 2) == v.rootdirOffset + v.rootdirNumSectors
      && 0 < |v.fat| <= v.fatNumSectors * v.sectorSize
      && v.fat == image[SectorOffset(v.sectorSize, v.fatOffset)..][..|v.fat|]
      && 0 < |v.rootdir| <= v.rootdirNumSectors * v.sectorSize
      && v.rootdir == image[SectorOffset(v.sectorSize, v.rootdirOffset)..][..|v.rootdir|]
  {
  }

  /** read_cluster starts at the sector cluster_offset gives for the cluster
      exactly when the data region begins 33 + 2 * cluster_size sectors into
      the volume (while no wrap-around occurs). */
  lemma ClusterReadAgreesWithGeometry(v: Volume, cluster: nat)
    requires GeometryHolds(v)
    requires cluster * v.clusterSize + HardCodedClusterBase < U32
    ensures ClusterFirstSector(v, cluster) == ClusterHeapSector(v, cluster)
        <==> v.rootdirOffset + v.rootdirNumSectors == HardCodedClusterBase + 2 * v.clusterSize
  {
  }

  /** On the standard 1.44 MB floppy layout (512-byte sectors, one sector per
      cluster, one reserved sector, two FATs of nine sectors, 224 root entries)
      cluster_offset is 31, so read_cluster(c) reads the sectors of cluster c + 2. */
  lemma FloppyClusterReadIsTwoAhead(v: Volume, cluster: nat)
    requires GeometryHolds(v)
    requires v.sectorSize == 512 && v.clusterSize == 1 && v.reservedSectors == 1
    requires v.fatNumSectors == 9 && v.fatCopies == 2 && v.rootdirEntries == 224
    requires cluster < 0x1000
    ensures v.rootdirOffset == 19 && v.rootdirNumSectors == 14 && v.clusterOffset == 31
    ensures ClusterFirstSector(v, cluster) == ClusterHeapSector(v, cluster + 2)
  {
  }
}
