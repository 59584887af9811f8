# FAT12 volume accessor in Dafny

This project models the read-only FAT12 accessor `FAT_File_System/fat12.c` and proves properties of the model. A volume file is a sequence of bytes here. Opening a volume decodes the boot-sector fields and derives the layout: the FAT, the root directory and the cluster heap. It also reads the FAT and the root directory into buffers.

The accessor then offers four things:
- cluster reads;
- lookup of the 12-bit FAT entries;
- decoding of 32-byte directory slots;
- resolution of a `/`-separated path to a directory entry. Resolution first scans the root directory, then the cluster chains of subdirectories.

Modules, one per file:

- `Wrappers` (`wrappers.dfy`): the `Option` type.
- `Bytes` (`bytes.dfy`): the byte type and little-endian decoding, `read_unsigned_le`.
- `Names` (`names.dfy`):
  - `remove_spaces` and `add_period`, written as in-place methods on NUL-terminated character arrays and proved against the string functions `WithoutSpaces` and `WithPeriod`;
  - `count_tokens`;
  - the `strtok` split of a path into components.
- `Volumes` (`volumes.dfy`): `open_volume_file`, `read_sectors` and `read_cluster`, with the file replaced by its bytes.
- `FatTable` (`fat_table.dfy`): `get_next_cluster` and the packing of two 12-bit entries into three bytes.
- `DirEntries` (`dir_entries.dfy`): `fill_directory_entry` and the normalised name the resolver compares.
- `Resolver` (`resolver.dfy`): `find_directory_entry`.
  - A method with the C function's nested loops is proved equal to the functions `RootScan`, `Descend`, `ChainScan` and `NextCluster`. These follow the C control flow, slot by slot; the `goto nextCluster` is a call of `Descend` with the next component.
  - Outcomes:
    - `Found(entry)` is a return of 0;
    - `NotFound` is `-ENOENT`;
    - `NotADirectory` is `-ENOTDIR`;
    - `Fault` marks a read of memory the C code has not filled or does not own: a slot beyond the bytes read into the buffer (inside or past the block `read_sectors` allocates), a FAT index beyond the table, or the initial NULL buffer;
    - `OutOfFuel` marks a cluster chain followed further than the fuel bound allows.

## Behaviour of the code as written

The model follows the code where it departs from FAT12 layout or from its own comments. Each departure is a proved lemma:

- `read_cluster` starts cluster `c` at sector `c * cluster_size + 33`, not at the `cluster_offset` that `open_volume_file` computes.
  - `Volumes.ClusterReadAgreesWithGeometry`: the two agree only when the data region begins at sector `33 + 2 * cluster_size`.
  - `Volumes.FloppyClusterReadIsTwoAhead`: on the standard 1.44 MB floppy layout, `read_cluster(c)` reads the sectors of cluster `c + 2`.
- A chain ends only when `get_next_cluster` returns exactly 0xFF8. The doc comment of `get_next_cluster` says any value of 0xFF8 or more marks the end.
  - `Resolver.ChainEndsAtEndOfChain`: 0xFF8 ends the search.
  - `Resolver.OtherEndMarkerIsFollowed`: 0xFF9 to 0xFFF are followed as cluster numbers. A FAT with no entry for that number is then read out of bounds rather than `-ENOENT` or `-ENOTDIR` being returned.
- An intermediate component is descended into whether or not its entry is a directory; `is_directory` plays no part in `Resolver.ResolveFirstRootMatch` (root directory) or in `Resolver.ChainFirstMatch` (subdirectory clusters).
  - `-ENOTDIR` is only returned when a component below the root is missing and more components follow.
  - So `Resolver.ResolveConsistent` shows a path of one or two components never yields `-ENOTDIR`. This holds even when its first component is a file.
- The first path component is looked up in the root directory only, and a missing one yields `-ENOENT` (`Resolver.ResolveRootMiss`).

## Model

| member | source | states |
|---|---|---|
| Bytes.LittleEndian | FAT_File_System/fat12.c:27-33 | the number held little-endian in n bytes is below 256^n |
| Bytes.LittleEndianIsPositionalSum | FAT_File_System/fat12.c:27-33 | the number read from n bytes equals the sum, over k < n, of byte k times 256^k |
| Bytes.LittleEndianFrame | FAT_File_System/fat12.c:27-33 | the decoded number depends only on the n bytes read |
| Bytes.LittleEndianRoundTrip | FAT_File_System/fat12.c:27-33 | decoding the n little-endian bytes of a number below 256^n gives the number back |
| Bytes.ReadUnsignedLe | FAT_File_System/fat12.c:27-33 | the shift-and-or loop (most significant byte first) computes the little-endian number, which is below 2^32 for at most four bytes |
| Names.WithoutSpaces | FAT_File_System/fat12.c:39-50 | the result holds no space and is never longer than the input |
| Names.WithoutSpacesKeepsOthers | FAT_File_System/fat12.c:39-50 | every character other than a space occurs in the result exactly as often as in the input |
| Names.WithoutSpacesAppend | FAT_File_System/fat12.c:39-50 | removing spaces works piecewise, so the kept characters stay in their order |
| Names.WithoutSpacesOfSpaceFree | FAT_File_System/fat12.c:39-50 | a string without spaces is left unchanged |
| Names.WithoutSpacesIdempotent | FAT_File_System/fat12.c:39-50 | removing spaces twice is removing them once |
| Names.RemoveSpaces | FAT_File_System/fat12.c:39-50 | the in-place two-pointer loop leaves the space-free string, NUL-terminated, at the start of the buffer and the bytes after the terminator untouched |
| Names.WithPeriod | FAT_File_System/fat12.c:56-68 | the result is one longer, has '.' at index 8, and removing it gives the input back |
| Names.WithPeriodAddsOnePeriod | FAT_File_System/fat12.c:56-68 | exactly one '.' is added and no other character changes in number |
| Names.AddPeriod | FAT_File_System/fat12.c:56-68 | the buffer then holds the first eight characters, '.', and the rest of the string, NUL-terminated |
| Names.CountTokens | FAT_File_System/fat12.c:74-81 | the count is the number of '/' characters in the path |
| Names.Tokens | FAT_File_System/fat12.c:363 | the successive strtok tokens are non-empty and free of '/' |
| Names.TokensOfJoinPath | FAT_File_System/fat12.c:395 | splitting the path built from a list of components gives the list back |
| Names.JoinPathOfTokens | FAT_File_System/fat12.c:363 | a component path is rebuilt exactly from its tokens |
| Names.TokenCountOfWellFormedPath | FAT_File_System/fat12.c:359-363 | count_tokens equals the number of tokens of a component path; for "/" it is 1 while there is no token |
| Volumes.ReadSectors | FAT_File_System/fat12.c:195-226 | `*buffer` is left untouched (a 0 return) exactly when no sector is asked for or the offset (wrapping at 2^32) lies beyond the end of the file; otherwise it receives the min(num_sectors * sector_size, length - offset) bytes from the offset, possibly none |
| Volumes.DeliveredHasPositiveSize | FAT_File_System/fat12.c:208-222 | a read that delivers bytes asked for at least one sector of positive size |
| Volumes.ReadSectorsConsecutive | FAT_File_System/fat12.c:195-226 | reading n sectors and then the m sectors after them gives the read of n + m sectors |
| Volumes.ReadCluster | FAT_File_System/fat12.c:248-254 | a cluster read delivers at most cluster_size * sector_size bytes |
| Volumes.ReadClusterContents | FAT_File_System/fat12.c:248-254 | a cluster read leaves `*buffer` untouched exactly when cluster_size is 0 or sector cluster * cluster_size + 33 (wrapping at 2^32) starts beyond the file; otherwise it delivers the min(cluster_size * sector_size, length - offset) bytes of the image from that sector |
| Volumes.ParseBootSector | FAT_File_System/fat12.c:126-144 | the boot-sector fields at offsets 11, 13, 14, 16, 17, 22 and 28 are decoded little-endian, two bytes each except the one-byte fields at 13 and 16 |
| Volumes.OpenRootDirectory | FAT_File_System/fat12.c:143-159 | a volume is returned exactly when the root directory read delivers bytes; its root directory offset and size and its cluster offset satisfy the geometry formulas, and its root directory buffer is the bytes read |
| Volumes.OpenVolume | FAT_File_System/fat12.c:96-160 | NULL for an empty file or when the FAT read returns 0; after a FAT read that delivers bytes, a volume exactly when the root directory read delivers bytes too, whose fields come from the boot sector and the geometry formulas |
| Volumes.OpenedVolumeLayout | FAT_File_System/fat12.c:143-156 | cluster 2 lies at cluster_offset + 2 * cluster_size, the sector after the root directory, and the FAT and root directory buffers are the bytes of their regions |
| Volumes.ClusterReadAgreesWithGeometry | FAT_File_System/fat12.c:249 | the hard-coded base 33 matches cluster_offset only when the data region starts at sector 33 + 2 * cluster_size |
| Volumes.FloppyClusterReadIsTwoAhead | FAT_File_System/fat12.c:249 | on the 1.44 MB floppy layout cluster_offset is 31 and read_cluster(c) reads the sectors of cluster c + 2 |
| FatTable.FatPosition | FAT_File_System/fat12.c:270-276 | both branches locate the entry pair at byte 3 * (c div 2) |
| FatTable.GetNextCluster | FAT_File_System/fat12.c:269-279 | the entry is below 0x1000; an even cluster takes the low 12 bits and an odd cluster the high 12 bits of the three bytes of its pair |
| FatTable.PackPairDecodes | FAT_File_System/fat12.c:269-279 | the bytes v0 & 0xFF, (v0 >> 8) or ((v1 & 0xF) << 4), and v1 >> 4 decode to v0 at the even and v1 at the odd cluster |
| FatTable.EncodeFatDecodes | FAT_File_System/fat12.c:269-279 | in a table built from a list of 12-bit entries, get_next_cluster of every cluster returns its entry |
| DirEntries.DecodeTimestamp | FAT_File_System/fat12.c:306-312 | hour ≤ 31, minute ≤ 63, seconds even and ≤ 62, year in 80..207, month ≤ 15, day ≤ 31 |
| DirEntries.TimestampRecompose | FAT_File_System/fat12.c:306-312 | the decoded fields put back together give the 16-bit time and date words again |
| DirEntries.FillDirectoryEntry | FAT_File_System/fat12.c:292-316 | the name is slot bytes 0..10; is_directory holds iff bit 0x10 of byte 11 is set; the first cluster is the 16-bit field at 26, the size the 32-bit field at 28, and the timestamp is decoded from the words at 22 and 24 |
| DirEntries.EntryTimestampRecompose | FAT_File_System/fat12.c:297-312 | the time fields of a decoded slot recompose to the words stored at offsets 22 and 24 |
| DirEntries.DecodeEncodedTimestamp | FAT_File_System/fat12.c:306-312 | a timestamp with in-range fields is recovered from its packed words |
| DirEntries.DecodeEncodedEntry | FAT_File_System/fat12.c:292-316 | decoding the slot written for an entry with in-range fields gives the entry back |
| DirEntries.NormalizedNameParts | FAT_File_System/fat12.c:374-380 | the compared name is the base name and the extension without spaces, joined by '.' for a file and directly for a directory |
| Resolver.FindDirectoryEntry | FAT_File_System/fat12.c:351-471 | the loops compute the resolution outcome of the path |
| Resolver.FollowPath | FAT_File_System/fat12.c:392-463 | the descent loop computes the outcome of descending into the matched entry's chain |
| Resolver.ScanChain | FAT_File_System/fat12.c:411-462 | the loop over a cluster chain ends with an outcome, or with the match to descend into and the buffer and fuel left |
| Resolver.ScanCluster | FAT_File_System/fat12.c:425-448 | the loop over one cluster's slots ends with an outcome, a match to descend into, or the end of the cluster |
| Resolver.ResolveRootPath | FAT_File_System/fat12.c:363-469 | the path "/" yields -ENOENT |
| Resolver.ResolveConsistent | FAT_File_System/fat12.c:386-458 | 0 is returned only with an entry whose name is the last component without spaces; -ENOTDIR only for paths of three components or more |
| Resolver.ResolveSingleComponent | FAT_File_System/fat12.c:370-390 | a one-component path is resolved in the root directory alone: the outcome does not depend on the fuel and is the entry, -ENOENT or a fault |
| Resolver.ResolveRootMiss | FAT_File_System/fat12.c:370-466 | when no root slot matches the first component the result is -ENOENT |
| Resolver.ChainFirstMatch | FAT_File_System/fat12.c:425-446 | in a subdirectory cluster, the first slot matching the component sought decides: its entry, named by the component without spaces, when the component is the last, and otherwise the descent into its first cluster, file or directory alike |
| Resolver.ResolveFirstRootMatch | FAT_File_System/fat12.c:386-403 | the first matching root slot decides: its entry for a one-component path, otherwise the descent into its first cluster, file or directory alike |
| Resolver.ClusterMiss | FAT_File_System/fat12.c:425-451 | a cluster whose slots all miss leads to the lookup of its FAT entry |
| Resolver.ChainEndsAtEndOfChain | FAT_File_System/fat12.c:451-458 | a cluster without a match whose entry is 0xFF8 gives -ENOENT for the last component and -ENOTDIR otherwise |
| Resolver.OtherEndMarkerIsFollowed | FAT_File_System/fat12.c:451-461 | an entry from 0xFF9 to 0xFFF is followed as a cluster number; with no FAT entry for it, a search without a match there faults |

## Left out

- File and memory plumbing. The model leaves out `fopen`, `fseek`, `ftell`, `rewind`, `fread`, `malloc` and `free`, `close_volume_file` and the `printf` at the start of `open_volume_file`. The volume file is its byte sequence and a read is a slice of it.
- The FUSE layer is not part of this model, and neither is `fat12.h`.
- `struct tm` semantics: `tm_isdst` and everything beyond the six decoded fields are left out; the fields are plain integers.
- Volumes.ReadSectors: the product `num_sectors * sector_size` is taken without the overflow of the C `int`. Only a read of 2 GiB or more would overflow.
- Volumes.OpenVolume: requires an empty image or one of at least 30 bytes. The boot-sector reads of shorter images are out of bounds, which is undefined behaviour.
- Volumes.OpenVolume: `hidden_sectors` is stored but used nowhere else, so nothing is proved about it beyond its decoding.
- `cluster_offset` is an unbounded integer. Its C type is declared in `fat12.h`.
- DirEntries.FillDirectoryEntry: the name is the 11 bytes of the slot. The C code copies them with `stpcpy` from a buffer that is not NUL-terminated, so what follows them is undefined. A NUL byte inside a name, which would shorten the C string, is kept as a character.
- Names.AddPeriod: requires a string of at least 8 characters and room for the added period. For a shorter string `strcat(strC, source + 8)` reads past its terminator, and the C scratch buffer `strC[11]` overflows for an 11-character name (12 characters plus the NUL); neither is modelled. `Names.WithPeriod` has the same 8-character requirement.
- Names.WellFormedPath: each character of the path stands for one non-NUL byte of the C string `path`, but the predicate requires neither that the character is non-NUL nor that it is below 256. A NUL inside the path, which would end the C string and so change `count_tokens` and `strtok`, is kept as a character. A character beyond 255 compares with the slot name bytes as one code point, while the C code sees its multi-byte encoding.
- Names.Tokens: the hidden static state of `strtok` is replaced by splitting the path once into its list of components.
- Resolver.FindDirectoryEntry: requires a well-formed path, that is "/" or components separated by single slashes with none trailing. Other paths lie outside what the doc comment of `find_directory_entry` allows (fat12.c:334-335), and the model does not cover them, although the C code handles some of them: "A/B/" resolves exactly as "/A/B", and "//X" with no X in the root gives -ENOENT. For many of them the number of '/' characters differs from the number of tokens. Once a component matches, the C code may then return that entry although components follow ("A/B" has one slash), or run out of tokens before reaching the slash count and call `remove_spaces(NULL)`.
- Resolver.FindDirectoryEntry: takes a fuel bound on the number of clusters followed and returns OutOfFuel when it is spent. The C loop need not end: on a cyclic chain, or on a chain ending in 0xFF9 to 0xFFF, it runs forever when no slot matches and no entry of exactly 0xFF8 is reached. Termination is not claimed.
- Resolver.FindDirectoryEntry: all undefined behaviour of the C code becomes the single outcome Fault. This covers reading a slot beyond the bytes delivered, a NULL buffer, and a FAT index beyond the table. What the C program would do instead is not modelled.
- Resolver.FindDirectoryEntry: names are compared with the pure functions `WithoutSpaces` and `WithPeriod` rather than by calling the in-place methods. `Names.RemoveSpaces` and `Names.AddPeriod` are proved to produce exactly those strings.
