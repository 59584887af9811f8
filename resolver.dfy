/**
  Path resolution: find_directory_entry in fat12.c.

  The C function scans the root directory for the first path component. A
  matching entry that is the last component is the result. A matching entry
  with components still to go is descended into: its first cluster is read
  and the cluster chain is scanned, slot by slot and cluster by cluster, for
  the next component (the `goto nextCluster` jumps back to the descent with the
  next component). A chain ends only when get_next_cluster returns exactly
  0xFF8.

  The outcomes: Found(entry) is a return of 0 with *entry filled in; NotFound
  is -ENOENT and NotADirectory is -ENOTDIR. Fault stands for the points where
  the C code reads memory it has not filled or does not own (a slot beyond the
  bytes actually read into the buffer, a FAT index beyond the table, a NULL
  buffer). The C
  loop over a cluster chain need not terminate; the model counts the clusters
  it moves on to against a fuel bound and reports OutOfFuel when it is spent.
*/
module Resolver {
  import opened Wrappers
  import opened Bytes
  import opened Names
  import opened Volumes
  import opened FatTable
  import opened DirEntries

  datatype Outcome = Found(entry: DirEntry) | NotFound | NotADirectory | OutOfFuel | Fault

  /** The buffer after read_cluster: a read that returned 0 leaves *buffer as
      it was; otherwise *buffer points at the bytes that were read. */
  function Refill(buffer: seq<byte>, read: Option<seq<byte>>): seq<byte> {
    match read
    case None => buffer
    case Some(data) => data
  }

  /** The entry fill_directory_entry decodes from the slot at a byte offset. */
  function SlotEntry(buffer: seq<byte>, off: nat): DirEntry
    requires off + DirEntrySize <= |buffer|
  {
    FillDirectoryEntry(buffer[off..off + DirEntrySize])
  }

  /** The root-directory loop from byte offset `off` on, looking for toks[0]. */
  function RootScan(v: Volume, toks: seq<string>, off: nat, fuel: nat): Outcome
    requires |toks| >= 1
    decreases v.rootdirEntries * DirEntrySize - off
  {
    if off >= v.rootdirEntries * DirEntrySize then NotFound
    else if off + DirEntrySize > |v.rootdir| then Fault
    else
      var temp := SlotEntry(v.rootdir, off);
      var name := NormalizedName(temp);
      if name == WithoutSpaces(toks[0]) then
        if |toks| == 1 then Found(temp.(filename := name))
        else Descend(v, toks, 1, temp.firstCluster, [], fuel)
      else RootScan(v, toks, off + DirEntrySize, fuel)
  }

  /** The code after the label nextCluster: read the first cluster of the
      matching entry and scan its chain for toks[ti]. */
  function Descend(v: Volume, toks: seq<string>, ti: nat, first: nat, buffer: seq<byte>, fuel: nat): Outcome
    requires 1 <= ti < |toks|
    decreases fuel, |toks| - ti, ClusterBytes(v) + 2
  {
    ChainScan(v, toks, ti, first, Refill(buffer, ReadCluster(v, first)), 0, fuel)
  }

  /** The scan of cluster `curr`, held in `buffer`, from byte offset `off` on,
      followed by the rest of its chain. */
  function ChainScan(v: Volume, toks: seq<string>, ti: nat, curr: nat, buffer: seq<byte>, off: nat, fuel: nat): Outcome
    requires 1 <= ti < |toks|
    decreases fuel, |toks| - ti, if off >= ClusterBytes(v) then 1 else ClusterBytes(v) - off + 1
  {
    if off >= ClusterBytes(v) then NextCluster(v, toks, ti, curr, buffer, fuel)
    else if off + DirEntrySize > |buffer| then Fault
    else
      var temp := SlotEntry(buffer, off);
      var name := NormalizedName(temp);
      if name == WithoutSpaces(toks[ti]) then
        if ti + 1 == |toks| then Found(temp.(filename := name))
        else Descend(v, toks, ti + 1, temp.firstCluster, buffer, fuel)
      else ChainScan(v, toks, ti, curr, buffer, off + DirEntrySize, fuel)
  }

  /** The end of a cluster: look up the next cluster of the chain and scan it,
      unless the entry is the end marker 0xFF8. */
  function NextCluster(v: Volume, toks: seq<string>, ti: nat, curr: nat, buffer: seq<byte>, fuel: nat): Outcome
    requires 1 <= ti < |toks|
    decreases fuel, |toks| - ti, 0
  {
    if FatPosition(curr) + 3 > |v.fat| then Fault
    else
      var next := GetNextCluster(v.fat, curr);
      if next == EndOfChain then (if ti + 1 == |toks| then NotFound else NotADirectory)
      else if fuel == 0 then OutOfFuel
      else ChainScan(v, toks, ti, next, Refill(buffer, ReadCluster(v, next)), 0, fuel - 1)
  }

  /** find_directory_entry on a path, with `fuel` cluster advances at most. The
      root path "/" has no token, so the token loop is never entered. */
  function Resolve(v: Volume, path: string, fuel: nat): Outcome
    requires WellFormedPath(path)
  {
    var toks := Tokens(path);
    if toks == [] then NotFound else RootScan(v, toks, 0, fuel)
  }

  /** find_directory_entry. */
  method FindDirectoryEntry(v: Volume, path: string, fuel: nat) returns (r: Outcome)
    requires WellFormedPath(path)
    ensures r == Resolve(v, path, fuel)
  {
    var tokenCount := CountTokens(path);
    var toks := Tokens(path);
    TokenCountOfWellFormedPath(path);
    if |toks| == 0 {
      return NotFound;
    }
    var token := WithoutSpaces(toks[0]);
    var i: nat := 0;
    while i < v.rootdirEntries * DirEntrySize
      invariant RootScan(v, toks, i, fuel) == Resolve(v, path, fuel)
      decreases v.rootdirEntries * DirEntrySize - i
    {
      if i + DirEntrySize > |v.rootdir| {
        return Fault;
      }
      var temp := FillDirectoryEntry(v.rootdir[i..i + DirEntrySize]);
      var name := NormalizedName(temp);
      if name == token && tokenCount == 1 {
        return Found(temp.(filename := name));
      }
      if name == token {
        r := FollowPath(v, toks, tokenCount, 1, temp.firstCluster, [], fuel);
        return;
      }
      i := i + DirEntrySize;
    }
    return NotFound;
  }

  /** What the loop over the slots of one cluster ends with: a result, a
      match with components still to go, or the end of the cluster. */
  datatype SlotScan = Return(outcome: Outcome) | GotoNextCluster(first: nat) | ClusterDone

  /** What the loop over a cluster chain ends with: a result, or a match with
      components still to go, together with the buffer and the fuel left. */
  datatype ChainEnd = Finished(outcome: Outcome) | Matched(first: nat, buffer: seq<byte>, fuelLeft: nat)

  /** The descent loop of find_directory_entry: from the label nextCluster,
      read the first cluster of the matching entry and scan its chain for
      toks[ti0], descending again on every intermediate match. */
  method FollowPath(v: Volume, toks: seq<string>, tokenCount: nat, ti0: nat, first0: nat,
                    buffer0: seq<byte>, fuel: nat) returns (r: Outcome)
    requires tokenCount == |toks| && 1 <= ti0 < |toks|
    ensures r == Descend(v, toks, ti0, first0, buffer0, fuel)
  {
    var ti: nat, first: nat, buffer: seq<byte>, fuelLeft: nat := ti0, first0, buffer0, fuel;
    while true
      invariant 1 <= ti < |toks|
      invariant Descend(v, toks, ti, first, buffer, fuelLeft) == Descend(v, toks, ti0, first0, buffer0, fuel)
      decreases fuelLeft, |toks| - ti
    {
      buffer := Refill(buffer, ReadCluster(v, first));
      var chainEnd := ScanChain(v, toks, tokenCount, ti, first, buffer, fuelLeft);
      if chainEnd.Finished? {
        return chainEnd.outcome;
      }
      ti, first, buffer, fuelLeft := ti + 1, chainEnd.first, chainEnd.buffer, chainEnd.fuelLeft;
    }
  }

  /** The while (1) loop over the clusters of a chain, starting at cluster
      `curr` held in `buffer`, looking for toks[ti]. */
  method ScanChain(v: Volume, toks: seq<string>, tokenCount: nat, ti: nat, curr0: nat,
                   buffer0: seq<byte>, fuel: nat) returns (chainEnd: ChainEnd)
    requires tokenCount == |toks| && 1 <= ti < |toks|
    ensures chainEnd.Finished? ==> ChainScan(v, toks, ti, curr0, buffer0, 0, fuel) == chainEnd.outcome
    ensures chainEnd.Matched? ==>
      && ti + 1 < |toks| && chainEnd.fuelLeft <= fuel
      && ChainScan(v, toks, ti, curr0, buffer0, 0, fuel)
         == Descend(v, toks, ti + 1, chainEnd.first, chainEnd.buffer, chainEnd.fuelLeft)
  {
    var curr: nat, buffer: seq<byte>, fuelLeft: nat := curr0, buffer0, fuel;
    while true
      invariant fuelLeft <= fuel
      invariant ChainScan(v, toks, ti, curr, buffer, 0, fuelLeft) == ChainScan(v, toks, ti, curr0, buffer0, 0, fuel)
      decreases fuelLeft
    {
      var step := ScanCluster(v, toks, tokenCount, ti, curr, buffer, fuelLeft);
      if step.Return? {
        return Finished(step.outcome);
      }
      if step.GotoNextCluster? {
        return Matched(step.first, buffer, fuelLeft);
      }
      if FatPosition(curr) + 3 > |v.fat| {
        return Finished(Fault);
      }
      var next := GetNextCluster(v.fat, curr);
      if next == EndOfChain {
        if ti + 1 == tokenCount {
          return Finished(NotFound);
        } else {
          return Finished(NotADirectory);
        }
      }
      if fuelLeft == 0 {
        return Finished(OutOfFuel);
      }
      buffer, curr, fuelLeft := Refill(buffer, ReadCluster(v, next)), next, fuelLeft - 1;
    }
  }

  /** The loop over the slots of cluster `curr`, held in `buffer`, looking for
      toks[ti]. */
  method ScanCluster(v: Volume, toks: seq<string>, tokenCount: nat, ti: nat, curr: nat,
                     buffer: seq<byte>, fuel: nat) returns (step: SlotScan)
    requires tokenCount == |toks| && 1 <= ti < |toks|
    ensures step.Return? ==> ChainScan(v, toks, ti, curr, buffer, 0, fuel) == step.outcome
    ensures step.GotoNextCluster? ==>
      && ti + 1 < |toks|
      && ChainScan(v, toks, ti, curr, buffer, 0, fuel) == Descend(v, toks, ti + 1, step.first, buffer, fuel)
    ensures step.ClusterDone? ==>
      ChainScan(v, toks, ti, curr, buffer, 0, fuel) == NextCluster(v, toks, ti, curr, buffer, fuel)
  {
    var token := WithoutSpaces(toks[ti]);
    var i: nat := 0;
    while i < ClusterBytes(v)
      invariant ChainScan(v, toks, ti, curr, buffer, i, fuel) == ChainScan(v, toks, ti, curr, buffer, 0, fuel)
      decreases ClusterBytes(v) - i
    {
      if i + DirEntrySize > |buffer| {
        return Return(Fault);
      }
      var temp := FillDirectoryEntry(buffer[i..i + DirEntrySize]);
      var name2 := NormalizedName(temp);
      if token == name2 && ti + 1 == tokenCount {
        return Return(Found(temp.(filename := name2)));
      }
      if token == name2 {
        return GotoNextCluster(temp.firstCluster);
      }
      i := i + DirEntrySize;
    }
    return ClusterDone;
  }

  // Properties of the resolution.

  /** The root path "/" yields -ENOENT: strtok returns no token at all. */
  lemma ResolveRootPath(v: Volume, fuel: nat)
    ensures Resolve(v, "/", fuel) == NotFound
  {
    TokenCountOfWellFormedPath("/");
  }

  /** What every outcome says about the components it resolved: a found entry
      carries the name of the last component with its spaces removed, and
      -ENOTDIR only comes from a path of three components or more (it is
      returned when a component other than the first and the last is missing). */
  predicate Consistent(toks: seq<string>, o: Outcome)
    requires |toks| >= 1
  {
    && (o.Found? ==> o.entry.filename == WithoutSpaces(toks[|toks| - 1]))
    && (o.NotADirectory? ==> |toks| >= 3)
  }

  lemma {:induction false} ChainScanConsistent(v: Volume, toks: seq<string>, ti: nat, curr: nat,
                                               buffer: seq<byte>, off: nat, fuel: nat)
    requires 1 <= ti < |toks|
    ensures Consistent(toks, ChainScan(v, toks, ti, curr, buffer, off, fuel))
    decreases fuel, |toks| - ti, if off >= ClusterBytes(v) then 1 else ClusterBytes(v) - off + 1, 1
  {
    if off >= ClusterBytes(v) {
      NextClusterConsistent(v, toks, ti, curr, buffer, fuel);
    } else if off + DirEntrySize <= |buffer| {
      ChainSlotConsistent(v, toks, ti, curr, buffer, off, fuel);
    }
  }

  /** The slot case of ChainScanConsistent. */
  lemma {:induction false} ChainSlotConsistent(v: Volume, toks: seq<string>, ti: nat, curr: nat,
                                               buffer: seq<byte>, off: nat, fuel: nat)
    requires 1 <= ti < |toks|
    requires off < ClusterBytes(v) && off + DirEntrySize <= |buffer|
    ensures Consistent(toks, ChainScan(v, toks, ti, curr, buffer, off, fuel))
    decreases fuel, |toks| - ti, ClusterBytes(v) - off + 1, 0
  {
    var temp := SlotEntry(buffer, off);
    if NormalizedName(temp) == WithoutSpaces(toks[ti]) {
      if ti + 1 < |toks| {
        DescendConsistent(v, toks, ti + 1, temp.firstCluster, buffer, fuel);
      }
    } else {
      ChainScanConsistent(v, toks, ti, curr, buffer, off + DirEntrySize, fuel);
    }
  }

  lemma {:induction false} NextClusterConsistent(v: Volume, toks: seq<string>, ti: nat, curr: nat,
                                                 buffer: seq<byte>, fuel: nat)
    requires 1 <= ti < |toks|
    ensures Consistent(toks, NextCluster(v, toks, ti, curr, buffer, fuel))
    decreases fuel, |toks| - ti, 0, 0
  {
    if FatPosition(curr) + 3 <= |v.fat| {
      var next := GetNextCluster(v.fat, curr);
      if next != EndOfChain && fuel > 0 {
        ChainScanConsistent(v, toks, ti, next, Refill(buffer, ReadCluster(v, next)), 0, fuel - 1);
      }
    }
  }

  lemma {:induction false} DescendConsistent(v: Volume, toks: seq<string>, ti: nat, first: nat,
                                             buffer: seq<byte>, fuel: nat)
    requires 1 <= ti < |toks|
    ensures Consistent(toks, Descend(v, toks, ti, first, buffer, fuel))
    decreases fuel, |toks| - ti, ClusterBytes(v) + 2, 0
  {
    ChainScanConsistent(v, toks, ti, first, Refill(buffer, ReadCluster(v, first)), 0, fuel);
  }

  lemma {:induction false} RootScanConsistent(v: Volume, toks: seq<string>, off: nat, fuel: nat)
    requires |toks| >= 1
    ensures Consistent(toks, RootScan(v, toks, off, fuel))
    decreases v.rootdirEntries * DirEntrySize - off
  {
    if off < v.rootdirEntries * DirEntrySize && off + DirEntrySize <= |v.rootdir| {
      var temp := SlotEntry(v.rootdir, off);
      if NormalizedName(temp) == WithoutSpaces(toks[0]) {
        if |toks| > 1 {
          DescendConsistent(v, toks, 1, temp.firstCluster, [], fuel);
        }
      } else {
        RootScanConsistent(v, toks, off + DirEntrySize, fuel);
      }
    }
  }

  /** find_directory_entry returns 0 only with the entry of the last path
      component, renamed to that component without spaces; it returns -ENOTDIR
      only for paths of three components or more. */
  lemma ResolveConsistent(v: Volume, path: string, fuel: nat)
    requires WellFormedPath(path)
    ensures var toks := Tokens(path); var o := Resolve(v, path, fuel);
      && (o.Found? ==> |toks| >= 1 && o.entry.filename == WithoutSpaces(toks[|toks| - 1]))
      && (o.NotADirectory? ==> |toks| >= 3)
  {
    if Tokens(path) != [] {
      RootScanConsistent(v, Tokens(path), 0, fuel);
    }
  }

  /** A path of one component is looked up in the root directory alone: no
      cluster chain is followed, so the fuel plays no part and the outcome is
      the entry, -ENOENT, or a fault on a short root directory buffer. */
  lemma {:induction false} RootScanSingle(v: Volume, toks: seq<string>, off: nat, fuel: nat)
    requires |toks| == 1
    ensures RootScan(v, toks, off, fuel) == RootScan(v, toks, off, 0)
    ensures RootScan(v, toks, off, fuel).Found? || RootScan(v, toks, off, fuel).NotFound?
         || RootScan(v, toks, off, fuel).Fault?
    decreases v.rootdirEntries * DirEntrySize - off
  {
    if off < v.rootdirEntries * DirEntrySize && off + DirEntrySize <= |v.rootdir| {
      if NormalizedName(SlotEntry(v.rootdir, off)) != WithoutSpaces(toks[0]) {
        RootScanSingle(v, toks, off + DirEntrySize, fuel);
      }
    }
  }

  lemma ResolveSingleComponent(v: Volume, path: string, fuel: nat)
    requires WellFormedPath(path) && |Tokens(path)| == 1
    ensures Resolve(v, path, fuel) == Resolve(v, path, 0)
    ensures Resolve(v, path, fuel).Found? || Resolve(v, path, fuel).NotFound? || Resolve(v, path, fuel).Fault?
  {
    RootScanSingle(v, Tokens(path), 0, fuel);
  }

  /** The normalised name of root slot k differs from the first component. */
  predicate RootSlotMisses(v: Volume, toks: seq<string>, k: nat)
    requires |toks| >= 1 && DirEntrySize * k + DirEntrySize <= |v.rootdir|
  {
    NormalizedName(SlotEntry(v.rootdir, DirEntrySize * k)) != WithoutSpaces(toks[0])
  }

  /** Root slots that miss are skipped. */
  lemma {:induction false} RootScanSkips(v: Volume, toks: seq<string>, j: nat, k: nat, fuel: nat)
    requires |toks| >= 1 && j <= k <= v.rootdirEntries && DirEntrySize * k <= |v.rootdir|
    requires forall m :: j <= m < k ==> RootSlotMisses(v, toks, m)
    ensures RootScan(v, toks, DirEntrySize * j, fuel) == RootScan(v, toks, DirEntrySize * k, fuel)
    decreases k - j
  {
    if j < k {
      assert RootSlotMisses(v, toks, j);
      RootScanSkips(v, toks, j + 1, k, fuel);
    }
  }

  /** No root slot matching the first component: -ENOENT, whatever the rest of
      the path. */
  lemma ResolveRootMiss(v: Volume, path: string, fuel: nat)
    requires WellFormedPath(path) && Tokens(path) != []
    requires DirEntrySize * v.rootdirEntries <= |v.rootdir|
    requires forall m :: 0 <= m < v.rootdirEntries ==> RootSlotMisses(v, Tokens(path), m)
    ensures Resolve(v, path, fuel) == NotFound
  {
    RootScanSkips(v, Tokens(path), 0, v.rootdirEntries, fuel);
  }

  /** The first root slot matching the first component decides: the entry for a
      one-component path, and otherwise the descent into that entry's first
      cluster, whether or not the entry is a directory. */
  lemma ResolveFirstRootMatch(v: Volume, path: string, k: nat, fuel: nat)
    requires WellFormedPath(path) && Tokens(path) != []
    requires k < v.rootdirEntries && DirEntrySize * k + DirEntrySize <= |v.rootdir|
    requires forall m :: 0 <= m < k ==> RootSlotMisses(v, Tokens(path), m)
    requires !RootSlotMisses(v, Tokens(path), k)
    ensures var toks := Tokens(path); var temp := SlotEntry(v.rootdir, DirEntrySize * k);
      Resolve(v, path, fuel)
        == if |toks| == 1 then Found(temp.(filename := WithoutSpaces(toks[0])))
           else Descend(v, toks, 1, temp.firstCluster, [], fuel)
  {
    RootScanSkips(v, Tokens(path), 0, k, fuel);
  }

  /** The slots a cluster scan visits: one per 32 bytes started below
      cluster_size * sector_size. */
  function SlotsPerCluster(v: Volume): nat {
    (ClusterBytes(v) + DirEntrySize - 1) / DirEntrySize
  }

  /** Slots j up to k of a buffer all have a normalised name other than `name`. */
  predicate SlotsMiss(buffer: seq<byte>, name: string, j: nat, k: nat)
    requires DirEntrySize * k <= |buffer|
  {
    forall m :: j <= m < k ==> NormalizedName(SlotEntry(buffer, DirEntrySize * m)) != name
  }

  lemma {:induction false} ChainScanSkips(v: Volume, toks: seq<string>, ti: nat, curr: nat,
                                          buffer: seq<byte>, j: nat, fuel: nat)
    requires 1 <= ti < |toks| && j <= SlotsPerCluster(v)
    requires DirEntrySize * SlotsPerCluster(v) <= |buffer|
    requires SlotsMiss(buffer, WithoutSpaces(toks[ti]), j, SlotsPerCluster(v))
    ensures ChainScan(v, toks, ti, curr, buffer, DirEntrySize * j, fuel) == NextCluster(v, toks, ti, curr, buffer, fuel)
    decreases SlotsPerCluster(v) - j
  {
    if j < SlotsPerCluster(v) {
      assert DirEntrySize * j < ClusterBytes(v);
      assert NormalizedName(SlotEntry(buffer, DirEntrySize * j)) != WithoutSpaces(toks[ti]);
      ChainScanSkips(v, toks, ti, curr, buffer, j + 1, fuel);
    }
  }

  lemma {:induction false} ChainScanSkipsTo(v: Volume, toks: seq<string>, ti: nat, curr: nat,
                                            buffer: seq<byte>, j: nat, k: nat, fuel: nat)
    requires 1 <= ti < |toks| && j <= k && DirEntrySize * k < ClusterBytes(v)
    requires DirEntrySize * k <= |buffer|
    requires SlotsMiss(buffer, WithoutSpaces(toks[ti]), j, k)
    ensures ChainScan(v, toks, ti, curr, buffer, DirEntrySize * j, fuel)
         == ChainScan(v, toks, ti, curr, buffer, DirEntrySize * k, fuel)
    decreases k - j
  {
    if j < k {
      assert NormalizedName(SlotEntry(buffer, DirEntrySize * j)) != WithoutSpaces(toks[ti]);
      ChainScanSkipsTo(v, toks, ti, curr, buffer, j + 1, k, fuel);
    }
  }

  /** In a subdirectory cluster, the first slot matching the component sought
      decides: its entry when the component is the last, and otherwise the
      descent into its first cluster (the goto nextCluster), whether or not
      the entry is a directory. */
  lemma ChainFirstMatch(v: Volume, toks: seq<string>, ti: nat, curr: nat, buffer: seq<byte>, k: nat, fuel: nat)
    requires 1 <= ti < |toks|
    requires DirEntrySize * k < ClusterBytes(v) && DirEntrySize * k + DirEntrySize <= |buffer|
    requires SlotsMiss(buffer, WithoutSpaces(toks[ti]), 0, k)
    requires NormalizedName(SlotEntry(buffer, DirEntrySize * k)) == WithoutSpaces(toks[ti])
    ensures var temp := SlotEntry(buffer, DirEntrySize * k);
      ChainScan(v, toks, ti, curr, buffer, 0, fuel)
        == if ti + 1 == |toks| then Found(temp.(filename := WithoutSpaces(toks[ti])))
           else Descend(v, toks, ti + 1, temp.firstCluster, buffer, fuel)
  {
    ChainScanSkipsTo(v, toks, ti, curr, buffer, 0, k, fuel);
  }

  /** A cluster none of whose slots matches leads to its FAT entry. */
  lemma ClusterMiss(v: Volume, toks: seq<string>, ti: nat, curr: nat, buffer: seq<byte>, fuel: nat)
    requires 1 <= ti < |toks|
    requires DirEntrySize * SlotsPerCluster(v) <= |buffer|
    requires SlotsMiss(buffer, WithoutSpaces(toks[ti]), 0, SlotsPerCluster(v))
    ensures ChainScan(v, toks, ti, curr, buffer, 0, fuel) == NextCluster(v, toks, ti, curr, buffer, fuel)
  {
    ChainScanSkips(v, toks, ti, curr, buffer, 0, fuel);
  }

  /** A cluster without a match whose FAT entry is 0xFF8 ends the search: -ENOENT
      when the component sought is the last, -ENOTDIR otherwise. */
  lemma ChainEndsAtEndOfChain(v: Volume, toks: seq<string>, ti: nat, curr: nat, buffer: seq<byte>, fuel: nat)
    requires 1 <= ti < |toks|
    requires DirEntrySize * SlotsPerCluster(v) <= |buffer|
    requires SlotsMiss(buffer, WithoutSpaces(toks[ti]), 0, SlotsPerCluster(v))
    requires FatPosition(curr) + 3 <= |v.fat| && GetNextCluster(v.fat, curr) == EndOfChain
    ensures ChainScan(v, toks, ti, curr, buffer, 0, fuel) == if ti + 1 == |toks| then NotFound else NotADirectory
  {
    ClusterMiss(v, toks, ti, curr, buffer, fuel);
  }

  /** The end markers 0xFF9 to 0xFFF do not end a chain: the scan moves on to
      that number as a cluster. When the table has no entry for it, a search
      that finds no match there reads beyond the FAT instead of returning
      -ENOENT or -ENOTDIR. */
  lemma OtherEndMarkerIsFollowed(v: Volume, toks: seq<string>, ti: nat, curr: nat, buffer: seq<byte>, fuel: nat)
    requires 1 <= ti < |toks| && fuel > 0
    requires FatPosition(curr) + 3 <= |v.fat| && GetNextCluster(v.fat, curr) > EndOfChain
    requires var next := GetNextCluster(v.fat, curr);
      var nextBuffer := Refill(buffer, ReadCluster(v, next));
      && |v.fat| < FatPosition(next) + 3
      && DirEntrySize * SlotsPerCluster(v) <= |nextBuffer|
      && SlotsMiss(nextBuffer, WithoutSpaces(toks[ti]), 0, SlotsPerCluster(v))
    ensures NextCluster(v, toks, ti, curr, buffer, fuel) == Fault
  {
    var next := GetNextCluster(v.fat, curr);
    var nextBuffer := Refill(buffer, ReadCluster(v, next));
    ClusterMiss(v, toks, ti, next, nextBuffer, fuel - 1);
  }
}
