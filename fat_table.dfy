/**
  The file allocation table: get_next_cluster in fat12.c. Two 12-bit entries
  share three bytes; the entry of an even cluster is the low 12 bits and the
  entry of the following odd cluster the high 12 bits of the 24-bit
  little-endian number those bytes hold.
*/
module FatTable {
  import opened Bytes

  /** The end-of-chain marker find_directory_entry compares with (0xFF8). */
  const EndOfChain: nat := 0xFF8

  /** First byte of the three-byte group holding the entry of a cluster. */
  function FatPosition(cluster: nat): (p: nat)
    ensures p == 3 * (cluster / 2)
  {
    if cluster % 2 == 0 then (cluster * 3) / 2 else ((cluster - 1) * 3) / 2
  }

  /** get_next_cluster: the FAT entry of a cluster. The three bytes it reads
      must lie inside the table. */
  function GetNextCluster(fat: seq<byte>, cluster: nat): (r: nat)
    requires FatPosition(cluster) + 3 <= |fat|
    ensures r < 0x1000
    ensures var p := FatPosition(cluster);
      if cluster % 2 == 0 then r == fat[p] + 256 * (fat[p + 1] as int % 16)
      else r == fat[p + 1] as int / 16 + 16 * (fat[p + 2] as int)
  {
    var position := FatPosition(cluster);
    var bytes := LittleEndian(fat, position, 3);
    LittleEndian3(fat, position);
    var low := fat[position] + 256 * (fat[position + 1] as int % 16);
    var high := fat[position + 1] as int / 16 + 16 * (fat[position + 2] as int);
    SplitLow12(bytes, low, high);
    if cluster % 2 == 0 then bytes % 4096 else bytes / 4096
  }

  /** A number below 2^24 split at bit 12. */
  lemma SplitLow12(n: int, low: int, high: int)
    requires 0 <= low < 4096 && n == low + 4096 * high
    ensures n % 4096 == low && n / 4096 == high
  {
  }

  /** The entry of a cluster depends only on the three bytes of its group. */
  lemma GetNextClusterLocal(fat: seq<byte>, cluster: nat, group: seq<byte>)
    requires FatPosition(cluster) + 3 <= |fat| && |group| == 3
    requires fat[FatPosition(cluster)..FatPosition(cluster) + 3] == group
    ensures GetNextCluster(fat, cluster) == GetNextCluster(group, cluster % 2)
  {
    var p := FatPosition(cluster);
    assert fat[p] == group[0] && fat[p + 1] == group[1] && fat[p + 2] == group[2];
    assert FatPosition(cluster % 2) == 0;
  }

  /** The three bytes that hold the entries v0 (even cluster) and v1 (odd cluster):
      [v0 & 0xFF, (v0 >> 8) | ((v1 & 0xF) << 4), v1 >> 4]. */
  function PackPair(v0: nat, v1: nat): (r: seq<byte>)
    requires v0 < 0x1000 && v1 < 0x1000
    ensures |r| == 3
  {
    [v0 % 256, v0 / 256 + (v1 % 16) * 16, v1 / 16]
  }

  /** A table of 12-bit entries, two per three bytes. */
  function EncodeFat(entries: seq<nat>): (r: seq<byte>)
    requires |entries| % 2 == 0
    requires forall i :: 0 <= i < |entries| ==> entries[i] < 0x1000
    ensures |r| == 3 * (|entries| / 2)
    decreases |entries|
  {
    if entries == [] then []
    else PackPair(entries[0], entries[1]) + EncodeFat(entries[2..])
  }

  /** The two entries packed into three bytes decode back from them. */
  lemma PackPairDecodes(v0: nat, v1: nat)
    requires v0 < 0x1000 && v1 < 0x1000
    ensures LittleEndian(PackPair(v0, v1), 0, 3) == v0 + 4096 * v1
    ensures GetNextCluster(PackPair(v0, v1), 0) == v0
    ensures GetNextCluster(PackPair(v0, v1), 1) == v1
  {
    var bs := PackPair(v0, v1);
    LittleEndian3(bs, 0);
    assert bs[0] + 256 * (bs[1] as int) == v0 + 4096 * (v1 % 16);
    assert 65536 * (bs[2] as int) == 4096 * (16 * (v1 / 16));
  }

  /** The three bytes of the k-th pair in an encoded table. */
  lemma {:induction false} EncodeFatPair(entries: seq<nat>, k: nat)
    requires |entries| % 2 == 0
    requires forall i :: 0 <= i < |entries| ==> entries[i] < 0x1000
    requires 2 * k + 1 < |entries|
    ensures EncodeFat(entries)[3 * k..3 * k + 3] == PackPair(entries[2 * k], entries[2 * k + 1])
    decreases k
  {
    if k > 0 {
      var rest := entries[2..];
      EncodeFatPair(rest, k - 1);
      assert rest[2 * (k - 1)] == entries[2 * k];
      assert rest[2 * (k - 1) + 1] == entries[2 * k + 1];
      assert EncodeFat(entries) == PackPair(entries[0], entries[1]) + EncodeFat(rest);
      assert EncodeFat(entries)[3 * k..3 * k + 3] == EncodeFat(rest)[3 * (k - 1)..3 * (k - 1) + 3];
    }
  }

  /** Looking up any cluster in an encoded table gives back its entry, for even
      and odd clusters alike. */
  lemma EncodeFatDecodes(entries: seq<nat>, cluster: nat)
    requires |entries| % 2 == 0
    requires forall i :: 0 <= i < |entries| ==> entries[i] < 0x1000
    requires cluster < |entries|
    ensures FatPosition(cluster) + 3 <= |EncodeFat(entries)|
    ensures GetNextCluster(EncodeFat(entries), cluster) == entries[cluster]
  {
    var k := cluster / 2;
    var fat := EncodeFat(entries);
    var p := FatPosition(cluster);
    EncodeFatPair(entries, k);
    var pair := PackPair(entries[2 * k], entries[2 * k + 1]);
    PackPairDecodes(entries[2 * k], entries[2 * k + 1]);
    GetNextClusterLocal(fat, cluster, pair);
    if cluster % 2 == 0 {
      assert cluster == 2 * k;
      assert GetNextCluster(pair, 0) == entries[cluster];
    } else {
      assert cluster == 2 * k + 1;
      assert GetNextCluster(pair, 1) == entries[cluster];
    }
  }
}
