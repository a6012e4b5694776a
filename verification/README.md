# Memory cards, proved

Dafny models of the parts of sigil that edit save storage in place, with proofs of what they keep
and what they amount to. The centre is the five card file systems: Sega CD backup RAM, Saturn backup
RAM, PlayStation 2, GameCube and Dreamcast cards. Around them stand the LZ4 block decoder, the sorted
merge of Ryujinx's save index, the streaming digests, the sync rule, the PSP serial scan, the Game Boy
clock conversions and the card calendar.

Every operation that changes an image step by step is a method over an `array`, a class or a volume
of blocks, and is proved against a specification; the theorems are about that specification. Results
come in three layers:

- what one call leaves, for every image, including the refusals and the bytes that stay as they were;
- what a volume is: for the cards with an allocation table (`Chains`, `FatVolume`, `FatDirectory`) a
  finite map of saves whose chains are intact and disjoint, for Saturn a map from archive block to a
  block list and a save, for Sega CD a sequence of saves back to back;
- whole runs: `Simulation.RunShows` says that when each step of a machine is a step of a simpler one
  on what it shows, so is every run. Each card has a `Dir` (its saves, where they lie, what is
  free) and a `DirStep` that settles every answer, and its run theorem is that simulation. Sega CD
  goes further: from a formatted volume every byte is determined by the saves held.

What the specifications compute is tied down from outside them. The checksum and the products of the Sega CD
codes are stated over polynomials, sets of exponents whose product counts the ways a term comes about
(`Polynomials`, `BitTerms`); dates over the calendar's days; the digests by the standards' own examples
(`Md5Example`, `Sha1Example`); and each card's format by its bytes, read and written (`SegaCdBytes`, `SaturnBytes`,
`Ps2Bytes`, `GameCubeLayout`, `GameCubeMount`, `DreamcastLayout`), as the save index and the folder's index are
(`SaveIndexBytes`, `Ps2IndexScalars`, `Ps2FolderNames`).

Modules follow the source files: `SegaCd*` and `Crc16` are src/card_segacd.c, `Saturn*` src/card_saturn.c, `Ps2*`
and `Calendar` src/card_ps2.c (its folder cards in `Ps2Index*`, `Ps2Flow*`, `Ps2Folder*` and `Ps2LineEnd`),
`GameCube*` src/card_gamecube.c, `Dreamcast*` src/card_dreamcast.c, `Bram` src/card_saturn.c too, `Lz4`
src/io_cso.c, `Merge`, `Records` and `SaveIndex*` src/save_profiles.c, `Streaming`, `Md5*` and `Sha1*` src/md5.c and
src/sha1.c, `Sync` src/sync.c, `SerialScan` src/psp.c, `ClockGb` src/clock_gb.c.

## Findings

- **Saves an unmanaged restore replaced are recorded after all, through companions.** The rule is that a
  collect which finds those saves back never records them as synced, but asks for the restore again. The code
  looks for a record of the restore, which it writes for the restore's own game alone (src/sync.c:385-388)
  and looks up in the collect's own game alone (src/sync.c:139-161), while restores replace, and collects
  record, companions too (src/sync.c:49-76 and 252-263). So the rule fails in two ways:
  - replaced as its own game's, recorded as a companion's (`Sync.CompanionForgets`): game "a" has saves "old"; an
    unmanaged restore writes "new"; the emulator puts "old" back; a collect of "b" with companion "a" records "old";
  - replaced as a companion's, recorded by its own game's collect (`Sync.CompanionReplaced`): "a" has synced saves
    "old"; an unmanaged restore of "b" with companion "a" writes "new" for "a"; "old" is put back; a collect of "a"
    records "old" and asks for nothing. Nothing in this run is told to overwrite.

  The exact conditions, for any key: one collect records changed saves if and only if it names the key as a
  companion and finds some, or is for the key and the state has no record of them (`Sync.CollectRecordsIff`);
  the state has that record, over every run, if and only if an unmanaged restore for the key itself left it and
  every step since kept it (`Sync.RecordIff`). So over every run saves any unmanaged restore replaced stay
  unrecorded exactly when the collect is for their key and such a record stands (`Sync.ReplacedRecordedIff`);
  unless another restore left one, exactly when the restore was for the key itself, every step between kept its
  record, and the collect is for the key (`Sync.ReplacedStayIff`).
- **A clock is kept whole only while its stamp fits.** A layout that reports no loss still loses the
  reading when the stamp is out of the layout's arithmetic range: Gambatte keeps only the difference of
  reading and stamp, in 64 signed bits, and Mesen2 keeps milliseconds in 64 unsigned bits.
  Inputs: a running clock at zero with stamp -1 through Mesen2 (`ClockGb.MesenForgets`), one at a second past
  zero with the least stamp through Gambatte (`ClockGb.GambatteForgets`; the subtraction at src/clock_gb.c:146 is
  then out of range, which C leaves undefined, and is taken to wrap). `ClockGb.WriteKeepsClock` gives the
  condition, `StampFits`, in both directions.
- **Dates that come back.** `unix_to_tod(tod_to_unix(t)) == t` holds exactly for calendar dates with a
  time of day and a zero first byte (`Calendar.TodConvertsIff`). Inputs (`Calendar.DatesTurn`): 31 April 2024
  comes back as 1 May, and month 0 of a year as January.
- **Some folders do not go back together.** Taking a PlayStation 2 save apart into a folder and packing
  that folder again restores it exactly when the rows the reader makes of the folder's own index give every
  entry back and place the files in their order (`Ps2FolderTheorems.PackIff`, for any save with distinct
  names). For names without a line's end that is exactly when the names are padded with zeros and no file but
  the first is called `$ROOT`, which is also the key of the folder's own row; a first file of that name must
  have the folder's dates or a meta file (`Ps2FolderTheorems.PackUndoesUnpack`, both directions).
- **A line's end in a file's name loses its dates and its place.** The parser opens a row for the name and then
  reads the rest of it as a line of its own, which takes the fields (`Ps2IndexTheorems.LineEndSplits`). Where
  that line is a plain word, the reading is `Ps2LineEnd.IndexMakes`: such a file comes back exactly when it has a
  meta file or the dates of no index (`Ps2LineEnd.SplitBack`), a save in which it is not the first never does
  (`Ps2LineEnd.SplitLater`), and one of a single file, "a", a line's end, "b" say, exactly then
  (`Ps2LineEnd.LoneSplitBack`).
- **Files an index does not name come out backwards, and not always first.** src/card_ps2.h:155-158 has the
  files an index does not name first, in the order given. The code counts their places down from -1
  (src/card_ps2.c:1247), so in any folder, whatever its index names, they come in the reverse of that order
  (`Ps2FolderOrder.UnnamedReverse`); and the reader takes negative places, so they come before all the others
  exactly when there are none, or no other file is at a place below -1, nor at -1 and given before them all
  (`Ps2FolderOrder.UnnamedFirstIff`). What the header says holds if and only if at most one file is left
  unplaced and that condition holds (`Ps2FolderOrder.PromiseKeptIff`). Inputs, down to the bytes of
  the index file: "a", "b" and "c" with an index that names "c" alone pack to b, a, c
  (`Ps2FolderOrder.TwoUnnamedTurn`); "a" and "b" with an index that puts "a" at -5 pack to a, b
  (`Ps2FolderOrder.NegativePlaceFirst`). The model follows the code.
- **A Dreamcast game file goes back only from block 0.** Extract, delete and inject restore a data save
  always, and a game file exactly when the blocks from 0 up are free again (`DreamcastTheorems.DeletedGoesBack`).

## Model

| member | source | states |
|---|---|---|
| Chains.ChainAvoidsFree | src/card_dreamcast.c:119-133 | an intact chain never passes through a free cell, the fact that lets inject and repair write free cells without touching a save |
| Chains.DeadEnd | src/card_gamecube.c:159-174 | a walk that comes back, leaves the table or lands on a free cell has found a start with no intact chain at all |
| Chains.LowestOnce | src/card_gamecube.c:405-440 | the lowest free cells, rising, are one list: a choice of blocks so described is settled |
| FatVolume.WrittenAdds | src/card_gamecube.c:405-440 | writing a save into free cells adds exactly it to the map of saves, every other save with its bytes unchanged, and takes exactly its blocks |
| FatVolume.ErasedRemoves | src/card_gamecube.c:442-463 | erasing a save removes exactly it from the map and gives back exactly its blocks |
| FatVolume.Conservation | src/card_dreamcast.c:467-523 | free blocks and blocks of listed saves add up to the data area |
| FatDirectory.WrittenShows | src/card_dreamcast.c:488-510 | a write takes the directory to the one with the save, its chain, one vacant slot fewer and its cells no longer free |
| FatDirectory.ErasedShows | src/card_dreamcast.c:512-523 | an erase takes the directory to the one without the save, its slot and blocks given back |
| DreamcastCard.WalkChain | src/card_dreamcast.c:119-133 | the walk returns the length and blocks of the intact chain, and 0 exactly when there is none |
| DreamcastCard.Inject | src/card_dreamcast.c:467-510 | on any image: the status is settled beforehand, a refusal leaves every byte, a success writes exactly the unit's save to the chosen blocks and first empty slot |
| DreamcastCard.Delete | src/card_dreamcast.c:512-523 | on any image: frees exactly the named entry's chain and clears the entry, leaves every block's bytes and, on an error, everything |
| DreamcastCard.Extract | src/card_dreamcast.c:379-397 | on any image: the .dci of the first entry that starts there with an intact chain, if it has the length asked for, else refused |
| DreamcastCard.DciRoundTrip | src/card_dreamcast.c:363-397 | a unit's save put back in .dci form is the unit with its first-block field zero, byte groups reversed twice |
| DreamcastTheorems.InjectOnKept | src/card_dreamcast.c:467-510 | an inject adds exactly its save to the map, or nothing; each refusal happens exactly for its reason; free blocks fall by the save's |
| DreamcastTheorems.InjectThenExtract | src/card_dreamcast.c:379-510 | extracting at the first block an inject chose succeeds and gives the unit, its first-block field zero |
| DreamcastTheorems.StoredGoesIn | src/card_dreamcast.c:467-510 | injecting a stored save's own .dci puts that save on the card, a game exactly when the blocks from 0 up are free |
| DreamcastTheorems.DeletedGoesBack | src/card_dreamcast.c:464-523 | extract, delete, inject: the map is as it was, and the condition under which the inject succeeds, both directions |
| DreamcastTheorems.ChosenPicks | src/card_dreamcast.c:467-482 | the blocks chosen are determined by which are free: the first of the card for a game, the highest, falling, for data; chosen exactly when there is room |
| DreamcastTheorems.RunShowsDirs | src/card_dreamcast.c:467-523 | over every run from any card whose saves are sound they stay sound, and each answer, the blocks taken, slots and free blocks are the ones the directory settles; if every block in use was a save's it stays so |
| DreamcastTheorems.FormatIsEmpty | src/card_dreamcast.c:409-432 | a formatted card is sound, holds no saves, has every block accounted for and 200 free |
| DreamcastRepair.List | src/card_dreamcast.c:172-247 | the listing has exactly the saves whose chain is intact, as long as recorded and unshared, and apart from them the corrupt ones |
| DreamcastRepair.ClaimsShared | src/card_dreamcast.c:172-195 | a block of a save is claimed twice exactly when another entry's chain reaches it |
| DreamcastRepair.Repair | src/card_dreamcast.c:281-361 | on every image that reads: only free cells are written, every save listed before is listed after with the same bytes, each rebuilt chain walks to its size over blocks whose checksum passes, every unlisted save is noted |
| DreamcastRepair.PassedOverUnlisted | src/card_dreamcast.c:336-361 | an unlisted save is left unnoted only when the repair itself completed its chain |
| DreamcastRepair.VmsPassesIff | src/card_dreamcast.c:279-300 | a file passes exactly when it has a checksum, a known eyecatch and the length its header says, and what is covered, with the checksum after it, is a multiple of x^16 + x^12 + x^5 + 1 |
| DreamcastLayout.LayoutIff | src/card_dreamcast.c:62-101 | which images are cards, and with what layout, in the bytes of the root block: both directions, the direction of the directory included |
| DreamcastLayout.DciIff | src/card_dreamcast.c:448-454 | which bytes are a .dci of how many blocks |
| DreamcastLayout.UnitIs | src/card_dreamcast.c:363-395 | where each byte of a save lies in its .dci, four by four reversed |
| DreamcastLayout.FormatIs | src/card_dreamcast.c:397-432 | which images a format leaves: the root block byte by byte, every cell of the table, and zeros |
| DreamcastLayout.CoveredIs | src/card_dreamcast.c:258-290 | what a checksum covers: the header, 512 bytes an icon, the eyecatch and the data |
| DreamcastRepair.EyecatchIs | src/card_dreamcast.c:268 | the sizes of the three kinds of eyecatch, in pixels and colours |
| GameCubeImage.ComputeChecksum | src/card_gamecube.c:45-55 | the loop computes the 16-bit sum of big-endian words and of their complements, with 0xFFFF stored as 0 |
| GameCubeCard.WalkChain | src/card_gamecube.c:159-174 | the walk returns the length and cells of the intact chain, and 0 exactly when there is none |
| GameCubeCard.ChooseBlocks | src/card_gamecube.c:405-440 | the loop picks the lowest free blocks in order, and gives up exactly when there are too few |
| GameCubeCard.Inject | src/card_gamecube.c:392-440 | on any image: the status is settled beforehand, a refusal leaves every byte, a success writes exactly the save and seals both copies of both tables: the entry's bytes, the update counts, the last allocated block and the free count among them |
| GameCubeCard.Delete | src/card_gamecube.c:442-463 | on any image: frees and erases exactly the named entry's chain, clears the entry to 0xFF and seals both copies with the next counts |
| GameCubeCard.Extract | src/card_gamecube.c:333-350 | on any image: the .gci of the first entry that starts there, with an intact chain of the recorded and requested length |
| GameCubeCard.CommittedReads | src/card_gamecube.c:380-390 | after a commit the card mounts the edited tables, whichever copies were mounted before and wherever the counters wrap, and both copies pass and agree |
| GameCubeMount.MountedIff | src/card_gamecube.c:104-138 | on the bytes of blocks 0 to 4: a card is readable exactly when its header and a copy of each table pass, and of each table the one mounted passes and has a count, as a signed number, not below the other's that passes, the first copy's on a tie |
| GameCubeMount.MountsOnce | src/card_gamecube.c:104-116 | that settles which copy is mounted |
| GameCubeMount.SizesIff | src/card_gamecube.c:82-89 | the six sizes a card can have |
| GameCubeMount.RewrittenMounts | src/card_gamecube.c:104-138 | a card one of whose copies not mounted was rewritten with the next count mounts that copy exactly while the count does not wrap past 0x7FFF, and the other table as before |
| GameCubeMount.RewrittenReads | src/card_gamecube.c:118-138 | and then holds what was written there, in that table, and everything else as before |
| GameCubeMount.CommittedCounts | src/card_gamecube.c:378-390 | a commit leaves in all four copies the count after the mounted one's, wrapping from 0x7FFF to -0x8000 |
| GameCubeLayout.ValidIff | src/card_gamecube.c:45-94 | when a header and a copy of each table pass, in the sums of their bytes |
| GameCubeLayout.GciIff | src/card_gamecube.c:392-399 | which bytes are a .gci of how many blocks |
| GameCubeLayout.FormatHeaderIs | src/card_gamecube.c:352-361 | the header a format writes, byte for byte |
| GameCubeLayout.FormatDirIs | src/card_gamecube.c:363-366 | the directories a format writes, byte for byte |
| GameCubeLayout.FormatBatIs | src/card_gamecube.c:363-374 | the block tables a format writes, byte for byte |
| GameCubeCard.Repair | src/card_gamecube.c:577-604 | the card's saves are exactly what they were, all four table copies pass, each failing copy is its twin and every other system block, mounted or not, stays as it was, the blocks noted are exactly the failing copies whose other copy passes, and a change is reported exactly when there was one |
| GameCubeTheorems.InjectOnKept | src/card_gamecube.c:405-440 | an inject adds exactly its save or nothing; each refusal happens exactly for its reason; the stored free count falls by the save's blocks |
| GameCubeTheorems.DeleteOnKept | src/card_gamecube.c:442-463 | a delete removes exactly the named save, gives back its blocks and succeeds exactly when a save starts there |
| GameCubeTheorems.InjectThenExtract | src/card_gamecube.c:333-440 | extracting at the first block an inject chose succeeds and gives the unit, the first-block field aside |
| GameCubeTheorems.ChosenPicks | src/card_gamecube.c:405-440 | the blocks chosen are the lowest free ones, rising, determined by which are free |
| GameCubeTheorems.RunShowsDirs | src/card_gamecube.c:405-463 | over every run from any readable card whose saves are sound they stay sound, and each answer and what it leaves are the ones the directory settles; sealed copies of the tables stay sealed with the right free count, and accounted blocks accounted |
| GameCubeTheorems.FormatIsEmpty | src/card_gamecube.c:352-378 | a formatted card is sealed, holds no saves, has every block accounted for and every data block free |
| Crc16.CrcIff | src/card_segacd.c:40-47 | a word is a message's checksum exactly when the message's polynomial times x^16 plus the word's is a multiple of x^16 + x^12 + x^5 + 1 |
| Crc16.CodeWordIff | src/card_segacd.c:40-47 | with its checksum after it, and with no other two bytes, a message is a multiple of that |
| Crc16.CheckValue | src/card_segacd.c:33-47 | the checksum of "123456789" is 0x31C3 |
| SegaCdProduct.TimesIff | src/card_segacd.c:49-70 | a symbol is the product of two exactly when it is what is left of their polynomials' product modulo x^8 + x^4 + x^3 + x^2 + 1, or x^6 + x + 1 in the field of six bits |
| SegaCdField.PowersApart | src/card_segacd.c:50-70 | in each field two different powers of alpha below the eighth times a nonzero symbol differ |
| SegaCdWord.Distance | src/card_segacd.c:72-105 | code words that agree but for two symbols are equal |
| SegaCdWord.CorrectsOneSymbol | src/card_segacd.c:88-105 | correction succeeds exactly on words one symbol or less from a code word, and gives that code word, of which there is one |
| SegaCdGrid.Rs6Partition | src/card_segacd.c:107-125 | every byte of a block is one symbol of exactly one 6-bit word |
| SegaCdCodec.DecodeUndoesEncode | src/card_segacd.c:143-198 | an encoded payload decodes to itself, and still does with one bit plane of every byte column damaged in any way |
| SegaCdCodec.EncodingIsUnique | src/card_segacd.c:143-168 | a payload has one encoding |
| SegaCdCodec.SymbolsInOrder | src/card_segacd.c:152-156 | the 36 bytes go into the block's symbols bit by bit in order, six at a time, the other two bits of each zero |
| SegaCdCodec.FramedSeals | src/card_segacd.c:143-150 | what stands round the payload: before it the two bytes that make it a multiple of the generator, after it their complements |
| SegaCdCodec.DecodeBlock | src/card_segacd.c:170-198 | the decoder's loops compute the two correction passes and the check, and write the output only when the block decodes: exactly when its words can be corrected and the payload with either copy of the checksum after it is a multiple of the generator |
| SegaCdBlock.BlockCodeRoundTrips | src/card_segacd.c:143-198 | on plain bytes the codec decodes what it encodes, uniquely: all the volume asks of it |
| SegaCdVolume.CountStands | src/card_segacd.c:228-241 | a stored count stands exactly when three of its four copies agree, whichever three |
| SegaCdBytes.HoldsIff | src/card_segacd.c:243-465 | which volumes hold which saves back to back, in the bytes of the counts, of the decoded entries and of the data blocks |
| SegaCdBytes.UnitIff | src/card_segacd.c:564-589 | which bytes are a unit, and of which save |
| SegaCdBytes.FormatIs | src/card_segacd.c:347-361 | the last block of a formatted volume, byte for byte |
| SegaCdBytes.SignatureIs | src/card_segacd.c:17 | the signature that marks a volume, in letters |
| SegaCdDirectory.DirectoryIff | src/card_segacd.c:439-465 | reading the directory succeeds exactly when the volume holds a sequence of saves back to back, and gives that sequence |
| SegaCdCard.CostIsExact | src/card_segacd.c:243-258 | a save fits exactly when the free count covers its cost, and the count then falls by that cost at either parity |
| SegaCdCard.FreeSlotsIsLongestRun | src/card_segacd.c:467-475 | the free slots reported are the longest run of one-block saves that can be added |
| SegaCdCard.CountFreeSlots | src/card_segacd.c:467-475 | the loop that charges a directory block with every other save counts exactly that run |
| SegaCdCard.Inject | src/card_segacd.c:598-638 | on any volume: refuses in the source's order, changing nothing, or appends exactly the unit's save, entry and counts |
| SegaCdErase.Delete | src/card_segacd.c:640-671 | on any volume: removes exactly the named save, moving later data and re-pairing directory entries, zeroing what is freed, or changes nothing |
| SegaCdExtract.Extract | src/card_segacd.c:515-596 | on any volume: the unit of the first valid entry that starts there, or refused |
| SegaCdExtract.ExtractsHeld | src/card_segacd.c:515-596 | a held save extracts to exactly its unit |
| SegaCdExtract.ExtractsOnlyHeld | src/card_segacd.c:515-596 | extraction succeeds exactly where a save of that size starts |
| SegaCdUnit.SaveKeepsUnit | src/card_segacd.c:560-596 | a unit read as a save and written again is itself, but for the two reserved bytes, which become zero |
| SegaCdTheorems.CanonicalOnce | src/card_segacd.c:347-361 | two canonical volumes of one size that hold the same saves are the same bytes |
| SegaCdTheorems.DeleteUndoesInject | src/card_segacd.c:598-671 | removing the save just added gives back the volume byte for byte |
| SegaCdTheorems.InjectThenExtract | src/card_segacd.c:515-638 | what goes in comes out: extraction where the saves before it end gives the unit, its two reserved bytes zero |
| SegaCdTheorems.RunRefines | src/card_segacd.c:598-671 | every run from a volume that holds any sequence of saves leaves, at each step, a volume that holds what the abstract calls make of it, with each status determined; from a canonical volume, as a formatted one is, exactly the canonical bytes |
| SaturnScan.Cursor.Read | src/card_saturn.c:290-327 | reads from the rest of the stream while the block list it reads along is still growing, and fails exactly when too little is left |
| SaturnScan.ParseEntry | src/card_saturn.c:373-408 | finds the one block list an archive block can have among unclaimed blocks, or none when there is none |
| SaturnScan.ScanOnce | src/card_saturn.c:410-445 | the scan's owner map and saves are determined by the volume |
| SaturnCard.NeededIsLeast | src/card_saturn.c:336-348 | the block count is the least whose payloads hold the fields, their own list and the data |
| SaturnBytes.BupIff | src/card_saturn.c:585-589 | which bytes are a .BUP, and of which save |
| SaturnBytes.BupIs | src/card_saturn.c:546-562 | the .BUP extraction writes, byte for byte: the date twice, the block count once |
| SaturnBytes.StreamIs | src/card_saturn.c:649-658 | the bytes of a save on the volume: its fields, two bytes for every block but the first, two zeros, its data |
| SaturnBytes.BlockIs | src/card_saturn.c:606-619 | byte by byte, what of those each block of the save holds after its mark |
| SaturnBytes.GeometryIff | src/card_saturn.c:180-193 | the volumes there are, by their sizes and their blocks' |
| SaturnCard.Inject | src/card_saturn.c:585-664 | on any volume: the status in the source's order, a refusal leaves every block, a success lays the save's stream over the lowest free blocks and changes no other |
| SaturnCard.Delete | src/card_saturn.c:666-680 | on any volume: zeroes exactly the blocks of the save the scan finds there, or changes nothing |
| SaturnVolume.ListUnique | src/card_saturn.c:373-408 | an archive block begins at most one list, though the list is read through the blocks it names |
| SaturnTheorems.WrittenParses | src/card_saturn.c:606-664 | a save written over free blocks parses back to exactly those blocks and that save, even where its list runs into blocks it names |
| SaturnTheorems.ScanWhole | src/card_saturn.c:410-445 | on a volume whose archive blocks all parse the scan finds exactly its saves and owns exactly their blocks |
| SaturnTheorems.WholeOnce | src/card_saturn.c:410-445 | the block lists of such a volume are determined by its bytes |
| SaturnRuns.InjectRefines | src/card_saturn.c:606-664 | on any volume that holds saves, an inject adds exactly the save, in the lowest free blocks, or nothing changes; each answer exactly for its reason |
| SaturnRuns.DeleteRefines | src/card_saturn.c:666-680 | a delete removes exactly the named save and frees exactly its list and archive block |
| SaturnRuns.ExtractReads | src/card_saturn.c:682-702 | extraction gives the .BUP of the save held there, and nothing where none is |
| SaturnRuns.InjectThenExtract | src/card_saturn.c:606-702 | what goes in comes out: after an inject, extraction at the lowest free block there was succeeds and gives a .BUP that holds the save again |
| SaturnRuns.WholeShows | src/card_saturn.c:410-445 | every volume whose archive blocks all parse, with lists apart, shows a directory: the run theorem starts from any of them |
| SaturnRuns.DeleteUndoesInject | src/card_saturn.c:606-680 | on a volume whose free blocks are blank, deleting the save an inject just added, named by the block it starts at, gives back every byte: the delete finds and wipes exactly the blocks the inject took |
| SaturnRuns.RunRefines | src/card_saturn.c:606-680 | from any volume that shows a directory, every run acts on it as its steps say, with each status, the blocks taken and the free blocks determined; blank free blocks stay blank |
| Ps2Cells.WalkChain | src/card_ps2.c:53-67 | on any card, whatever its tables hold, read or not: the walk that counts steps instead of remembering them finds the chain exactly when there is an intact one, and its clusters are then distinct |
| Ps2Bytes.CellReads | src/card_ps2.c:34-48 | what any cell says, in the bytes it is reached through, and when it is broken |
| Ps2Bytes.EntryIs | src/card_ps2.c:15-25 | the fields of a directory entry by its bytes |
| Ps2Alloc.Allocator.Allocate | src/card_ps2.c:539-559 | hands out the lowest free cluster and links it to the chain; fails exactly when every free cluster is taken |
| Ps2Alloc.DrawnTaken | src/card_ps2.c:551-559 | taking a cluster leaves the rest of the pool exactly as the free clusters from the next on |
| Ps2Alloc.PoolLowest | src/card_ps2.c:551-559 | the clusters handed out are the lowest free ones, rising |
| Ps2Alloc.Grow | src/card_ps2.c:551-559 | growing one chain of a family of disjoint chains by a free cluster leaves a family |
| Ps2Read.JoinChunks | src/card_ps2.c:69-85 | bytes cut into padded clusters and read back along the chain are the bytes |
| Ps2Read.JoinEntry | src/card_ps2.c:87-101 | the directory's bytes cut every 512 are its entries, whatever the cluster size |
| Ps2Read.ReadChain | src/card_ps2.c:69-85 | on any card, whatever its tables: reads the first bytes of a chain, and fails exactly when the chain is broken or too short |
| Ps2Save.Extract | src/card_ps2.c:661-691 | on any card, whatever its tables: takes out the folder, with its files in order, exactly when the root points at it and it reads |
| Ps2Card.Inject | src/card_ps2.c:693-781 | all or nothing: once the space check passes no allocation fails; the status, and on success the whole new state: the chains, drawn from the lowest free clusters with the root's first, the entries and the free clusters |
| Ps2Bytes.RootEntryIs | src/card_ps2.c:739-743 | what an inject writes to the folder's entry in the root, byte for byte |
| Ps2Bytes.InnerEntriesAre | src/card_ps2.c:745-769 | what it writes to the folder's own entry and to a file's |
| Ps2RootDate.RootIsDated | src/card_ps2.c:771-777 | after every successful inject the root's own entry has as its modified date the later of its old one and the folder's creation, by the seconds the calendar counts, and one entry more when the new one went on the end; nothing else in it changes |
| Ps2RootDate.LaterIff | src/card_ps2.c:577-584 | comparing two card dates byte by byte, the last first, tells which has more seconds |
| Ps2Result.InjectedFolder | src/card_ps2.c:711-781 | the new folder extracts to the save that went in, but for the fields that say where it lies |
| Ps2Sound.InjectKeepsSound | src/card_ps2.c:711-781 | adding a folder keeps the card well formed, and every other folder's root entry, save and chains as they were |
| Ps2Delete.Delete | src/card_ps2.c:783-808 | on any folder, whatever its chains share with each other or the root: answers why not and changes nothing, or walks and frees each chain in turn, and clears the root's entry if the root's own chain is still whole |
| Ps2Delete.DeletedSoundly | src/card_ps2.c:783-808 | on a folder whose chains are apart, that is every chain of the folder freed, its root entry cleared and all other cells and entries untouched |
| Ps2Bytes.ClearedIs | src/card_ps2.c:800-804 | a delete clears the live bit of the folder's entry and no other bit |
| Ps2Runs.InjectRefines | src/card_ps2.c:711-781 | the map of folders gains exactly the save under its name, with its slot, its first cluster and its clusters, the next of the pool |
| Ps2Runs.NewCells | src/card_ps2.c:711-781 | the clusters on the new folder's chains are exactly the ones taken after the root's, however the chains grew in turn |
| Ps2Runs.DeleteRefines | src/card_ps2.c:783-808 | the map loses exactly that folder and the free clusters gain exactly its clusters |
| Ps2Theorems.ExtractHeld | src/card_ps2.c:661-691 | a held folder extracts to what the map says and to nothing else |
| Ps2Theorems.RunRefines | src/card_ps2.c:711-808 | every run of adds and deletes goes through cards showing what the same calls make of the directory: which folder a delete removes, each answer, slot, the clusters taken and which are free |
| Ps2Format.FormatHolds | src/card_ps2.c:408-452 | a formatted card is well formed, holds no saves and has every cluster but the root's free |
| Ps2Bytes.LayoutIs | src/card_ps2.c:408-418 | the sizes and places of a formatted card |
| Ps2Bytes.TablesAre | src/card_ps2.c:428-436 | every number in its tables |
| Ps2Bytes.DirEntryIs | src/card_ps2.c:438-440 | an entry a format writes, byte for byte |
| Calendar.CivilInverse | src/card_ps2.c:874-894 | every Gregorian date, negative years included, comes back from its day number |
| Calendar.DaysInverse | src/card_ps2.c:874-894 | every day number is some date's, and comes back |
| Calendar.DaysNext | src/card_ps2.c:874-881 | the day after has the next number, and 1 January 1970 is day 0: the numbers are the calendar's |
| Calendar.DaysInOrder | src/card_ps2.c:874-881 | an earlier date has a lower number, and only an earlier one |
| Calendar.TodConvertsIff | src/card_ps2.c:896-915 | a card date comes back from its count of seconds exactly when it is a calendar date with a time of day and a zero first byte |
| Calendar.DatesTurn | src/card_ps2.c:896-915 | 31 April comes back as 1 May, and month 0 as January |
| Ps2Index.ReadIndex | src/card_ps2.c:958-1055 | the reader's loops, pointers and buffers compute what the two forms of the index are specified to hold |
| Ps2IndexTheorems.SignedReads | src/card_ps2.c:1116-1135 | a printed number reads back and fits the room a value has |
| Ps2IndexScalars.NumberIs | src/card_ps2.c:1012-1040 | what any text reads as for a number: blanks, a sign, and digits of any length, the nearest number of 64 bits |
| Ps2IndexScalars.PlainIs | src/card_ps2.c:963-987 | a plain word runs to the next stop, and is refused exactly when it has no room |
| Ps2IndexScalars.SingleQuotedIs | src/card_ps2.c:963-979 | in single quotes a quote stands twice and all else for itself; refused exactly without room |
| Ps2IndexScalars.DoubleQuotedIs | src/card_ps2.c:963-979 | in double quotes a backslash takes the next character; refused exactly without room |
| Ps2IndexScalars.KeyOpens | src/card_ps2.c:1030-1035 | a key of 40 characters is refused, and of a shorter one a row keeps the first 32 |
| Ps2IndexScalars.ValueSets | src/card_ps2.c:1036-1041 | an indented field is set to the number its value begins with; a value of 32 characters is refused |
| Ps2IndexTheorems.KeyReads | src/card_ps2.c:1137-1146 | a key with its quotes doubled reads back as the name, whatever it holds but a line's end |
| Ps2IndexTheorems.IndexReads | src/card_ps2.c:965-1055 | every index that is printed parses back to the root's row and every other, in order |
| Ps2FlowIndex.FlowReads | src/card_ps2.c:985-1019 | every list of rows printed in the flow form parses back to those rows |
| Ps2FlowIndex.FormsAgree | src/card_ps2.c:958-1055 | the two forms of the same rows parse alike |
| Ps2FlowPack.FlowPacksAlike | src/card_ps2.c:1219-1289 | with its index in the flow form, a save's folder packs to the same as with the index it comes apart into |
| Ps2FlowPack.FlowPacked | src/card_ps2.c:985-1289 | from the bytes of a flow index for "a" and "b": the files pack in its order, with its dates |
| Ps2FlowPack.PlainEntry | src/card_ps2.c:1057-1087 | the entry of a file without meta, byte by byte: mode, length, its row's dates and its name |
| Ps2FlowPack.PlainDir | src/card_ps2.c:1207-1289 | the entry of a folder without meta: its dates are those of the row called $ROOT, or without one %ROOT |
| Ps2FlowPack.Dots | src/card_ps2.c:1278-1283 | the folder's entries for itself and its parent, byte by byte |
| Ps2IndexTheorems.LineEndSplits | src/card_ps2.c:1021-1044 | a quoted key with a line's end in it opens its row, and then the rest of the key is read as another line |
| Ps2Folder.Unpack | src/card_ps2.c:1148-1189 | the files a save comes apart into, its index text included, or a refusal exactly when a name cannot be a file's |
| Ps2Folder.Pack | src/card_ps2.c:1219-1289 | the save a folder's files make, or a refusal, for any files |
| Ps2Folder.OrderedHas | src/card_ps2.c:1200-1204 | ordering the files loses and adds none |
| Ps2FolderNames.RefusedIff | src/card_ps2.c:1219-1272 | which folders are refused: exactly those whose own name cannot be a save's, whose index does not read, or that have a file, not set apart by its prefix, with a name no file can have or too long for an entry |
| Ps2FolderNames.PackHas | src/card_ps2.c:1236-1272 | a save is packed of exactly the files not set apart, each as often as given, under its name and with its bytes, whatever the index and the metas |
| Ps2FolderNames.NamesAre | src/card_ps2.c:867-870 | the names a folder card keeps for itself, in letters |
| Ps2FolderNames.KeysAre | src/card_ps2.c:952-956 | the keys of the index's fields, and of the folder's own row, in letters |
| Ps2FolderParts.MetaFound | src/card_ps2.c:1057-1074 | a file's meta is found exactly when the index alone does not give its entry back, and is its whole entry |
| Ps2FolderParts.RowFound | src/card_ps2.c:945-950 | each file finds its own row, unless its name is the root's key |
| Ps2FolderTheorems.GatherAll | src/card_ps2.c:1236-1253 | of a save taken apart the files gathered are its own, in order, with the places the rows give them, whatever rows those are |
| Ps2FolderOrder.UnnamedReverse | src/card_ps2.c:1236-1254 | in any folder, whatever its index names, the files it does not place go into the save in the reverse of the order given, numbered down from -1 |
| Ps2FolderOrder.ThoseOrdered | src/card_ps2.c:1200-1204 | sorting all the files sorts those the index places, and those it does not, among themselves |
| Ps2FolderOrder.UnnamedFirstIff | src/card_ps2.c:1236-1254 | the files the index does not place come before all others exactly when there are none or no other is put below them |
| Ps2FolderOrder.PromiseKeptIff | src/card_ps2.h:154-159 | the order the header promises is kept exactly when at most one file is left unplaced and no other is put below it |
| Ps2FolderOrder.TwoUnnamedTurn | src/card_ps2.c:1236-1254 | three files beside the bytes of an index that names one of them pack in another order than the one promised |
| Ps2FolderOrder.NegativePlaceFirst | src/card_ps2.c:1236-1254 | two files beside the bytes of an index that gives one a negative place pack with that one before the unnamed one |
| Ps2FolderTheorems.DefaultRestores | src/card_ps2.c:1065-1087 | an entry rebuilt from an index is the entry, but for where it lies, exactly when the index's dates convert to its own |
| Ps2FolderTheorems.MetaRestores | src/card_ps2.c:1207-1217 | an entry rebuilt from its meta file is the entry exactly when its name is padded |
| Ps2FolderTheorems.PackIff | src/card_ps2.c:1148-1289 | any save with distinct names, taken apart, is refused exactly when its own index does not read, and else comes back exactly when the rows read give every entry back and place the files in order |
| Ps2FolderTheorems.PackUndoesUnpack | src/card_ps2.c:1148-1289 | for names without a line's end the save comes back exactly under the condition named on the save itself; both directions |
| Ps2LineEnd.IndexMakes | src/card_ps2.c:1021-1055 | an index with such names in it reads as the root's row and, for each split name, a row of no fields and one that takes them |
| Ps2LineEnd.SplitBack | src/card_ps2.c:1148-1289 | a file with a split name is never placed, and its entry comes back exactly when it has a meta file or the dates of no index |
| Ps2LineEnd.SplitLater | src/card_ps2.c:1148-1289 | a save with a split name after the first never comes back |
| Ps2LineEnd.LoneSplitBack | src/card_ps2.c:1148-1289 | when a save of one file with a split name comes back, both directions |
| Bram.StoreUndoesCollapse | src/card_saturn.c:72-138 | a dump that is halved is stored back byte for byte |
| Bram.CollapseUndoesStore | src/card_saturn.c:72-138 | a volume stored in pairs is halved back to it, and stored the same again |
| Bram.Collapse | src/card_saturn.c:72-84 | halves in place exactly the dumps whose pairs are filled alike or repeated, and reports the filler; else changes nothing |
| Lz4.CopyRepeats | src/io_cso.c:57-86 | an overlapping match repeats the bytes before it with the period of its offset |
| Lz4.BeginsIs | src/io_cso.c:57-86 | a block begins with sequences and an ending exactly when their encodings, one after another, are its prefix |
| Lz4.RunIff | src/io_cso.c:42-86 | decoding to any given length, none included, succeeds exactly on the blocks that begin with sequences for at least that many bytes (for none, whose first literals are whole), and gives the first of what they expand to |
| Lz4.Decode | src/io_cso.c:57-86 | the decoder's loops compute that run, in place |
| Merge.MergedAscends | src/save_profiles.c:750-848 | the merge of two ascending lists with no equal ranks ascends |
| Records.Rewrite | src/save_profiles.c:804-848 | the archive is written back with the new records merged in, exactly when every old one reads and none ranks as a new one |
| SaveIndex.ArchiveReads | src/save_profiles.c:663-676 | what is written parses back to what was meant |
| SaveIndexBytes.ArchiveIff | src/save_profiles.c:678-680 | which bytes are an archive, and where it counts its entries |
| SaveIndexBytes.EntryIff | src/save_profiles.c:655-676 | which bytes are an entry, and of which key and value |
| SaveIndexBytes.AddedAre | src/save_profiles.c:782-888 | what a publish adds: the account's entry under its user, the device's under none, each with its id |
| SaveIndex.BeforeIff | src/save_profiles.c:743-756 | one record comes before another exactly where the first of program, type, user, static id, index and rank that differs is lower, the user one 128-bit number |
| SaveIndex.KeyHolds | src/save_profiles.c:782-802 | what a new key holds, byte by byte |
| SaveIndex.ValueHolds | src/save_profiles.c:782-802 | what a new value holds, byte by byte |
| SaveIndex.PublishKeeps | src/save_profiles.c:745-848 | an index in key order with new entries is in key order, holds each old and new entry once, and counts them |
| SaveIndex.HighestId | src/save_profiles.c:758-780 | every id above the one returned is above the counter, every indexed id and every listed folder's, and it is one of these itself, or 0 |
| SaveIndex.Publish | src/save_profiles.c:850-902 | the published index, its new ids, and that a refusal means the index does not read or has a key taken |
| Streaming.FoldOn | src/md5.c:68-91 | feeding more goes on from the state and the bytes left over |
| Streaming.PaddedFold | src/md5.c:93-112 | folding a padded message is folding its full blocks and then the padded rest |
| Md5.MovedIsInPlace | src/md5.c:27-57 | moving the registers round computes what RFC 1321 section 3.4 states with the registers updated in place |
| Md5.Final | src/md5.c:93-112 | pads what was fed and gives the digest of RFC 1321 sections 3.1 to 3.5 |
| Md5.DigestOf | src/md5.c:59-112 | the digest of a message fed in any pieces is the digest of the message |
| Md5Example.AbcDigest | src/md5.c:5-112 | the digest of "abc" is the one of RFC 1321, appendix A.5 |
| Md5Example.WordsTaken | src/md5.c:32-46 | which word of the block each of the 64 operations takes, as the RFC lists them |
| Md5Example.LengthIs | src/md5.c:93-112 | the length the padding ends with is the count of bits, low byte first |
| Sha1.Compress | src/sha1.c:12-45 | runs the eighty steps of FIPS 180-4 section 6.1.2 on one block |
| Sha1.DigestOf | src/sha1.c:47-94 | the digest of a message fed in any pieces is the digest of the message |
| Sha1Example.AbcDigest | src/sha1.c:8-94 | the digest of "abc" is the one of the standard's example |
| Sha1Example.ConstantsAreRoots | src/sha1.c:17-32 | the four constants are the square roots of 2, 3, 5 and 10 times 2^30, cut to whole numbers |
| Sha1Example.LengthIs | src/sha1.c:82-94 | the length the padding ends with is the count of bits, high byte first |
| Sha1.HmacSha1 | src/sha1.c:96-118 | HMAC as in RFC 2104 section 2, keys longer than a block hashed first |
| Sync.SyncedIsSafe | src/sync.c:49-161 | whatever the state has as synced was passed on in an earlier step of the run |
| Sync.NoLostUpdate | src/sync.c:361-394 | over every run, a restore not told to overwrite replaces saves only if they are the synced ones, and those were passed on before |
| Sync.ConflictIff | src/sync.c:219-251 | a restore answers a conflict exactly when it is not told to overwrite and some key it writes holds saves that are neither the synced ones nor the ones that come |
| Sync.RestoreAt | src/sync.c:253-394 | one that goes through leaves at every key it writes what came, as its saves and as synced, and every other key as it was |
| Sync.AlreadyThere | src/sync.c:221-251 | over every run a restore of saves that are there already goes through, and leaves them recorded |
| Sync.RestoreAgain | src/sync.c:221-394 | a restore that went through goes through again |
| Sync.ChangedIff | src/sync.c:139-161 | over every run a collect calls the game's saves changed exactly when they are not the synced ones and it does not ask for a restore again |
| Sync.CollectRecordsIff | src/sync.c:49-161 | for any key: a collect records its changed saves exactly when it names the key as a companion and finds some, or is for the key and the state has no record that an unmanaged restore replaced them |
| Sync.RecordIff | src/sync.c:139-394 | over every run the state has a record that certain saves replaced others exactly when an unmanaged restore for the key itself did that and every step since left the record |
| Sync.ReplacedRecordedIff | src/sync.c:49-394 | over every run, for any key an unmanaged restore wrote: its replaced saves, back again, stay unrecorded by a collect that looks at them exactly when it is for the key and a record of an unmanaged restore for the key itself stands |
| Sync.ReplacedStayIff | src/sync.c:49-394 | where no other restore left a record, that is: the restore was for the key itself, every step between left its record, and the collect is for the key |
| Sync.AgainIff | src/sync.c:139-161 | over every run a collect asks for the restore again exactly when the saves it finds are ones such a restore replaced, its record standing |
| Sync.LeavesIff | src/sync.c:49-251 | which steps keep both the record of an unmanaged restore for a game and that what it wrote is synced, both directions |
| Sync.AskedAgain | src/sync.c:139-161 | while those steps last, every collect of the restored game that finds its replaced saves asks for the restore again |
| Sync.CompanionForgets | src/sync.c:49-161 | a run of four steps in which a collect for another game records the replaced saves |
| Sync.CompanionReplaced | src/sync.c:252-394 | a run of five steps in which saves replaced as a companion's are recorded by their own game's collect, which asks for nothing |
| SerialScan.ScanLists | src/psp.c:82-112 | the scan lists serials that occur, each once; all of them, or eight and there is one more |
| SerialScan.SerialIff | src/psp.c:80-101 | an id is read where it stands exactly when it is UL, UC or NP, two capitals and five digits, spelled out with or without a dash |
| SerialScan.OccursAtIff | src/psp.c:142-147 | and counts exactly where no capital or digit stands before it |
| SerialScan.ScanSerials | src/psp.c:127-154 | the window that slides over sectors, carrying ten bytes and one before, finds what a scan of the whole file, or of its first 64 MiB, finds |
| ClockGb.GambatteBack | src/clock_gb.c:66-174 | the base-time form reads back with the same reading less stamp |
| ClockGb.WriteKeepsClock | src/clock_gb.c:66-174 | for every layout and clock in range written without reported loss: read back, it shows the same at every instant, with the same halt and carry, exactly when the stamp fits |
| ClockGb.Ticks | src/clock_gb.c:25-37 | the reading counts: 0 on a blank clock and one more after each second on its dials, until 512 days are over |
| ClockGb.TgbDualReads | src/clock_gb.c:102-107 | TGB Dual's count is read as a clock that many seconds on, carrying when it is past 512 days |
| ClockGb.TgbDualWrites | src/clock_gb.c:168-171 | and is written as the reading |
| ClockGb.GambatteWrites | src/clock_gb.c:144-149 | Gambatte's base time is the stamp less the reading, 512 days with it when the clock carries, exactly where that is in range |
| ClockGb.LossyIff | src/clock_gb.c:121-173 | what each layout is said to lose, and when |
| ClockGb.MesenForgets | src/clock_gb.c:150-158 | a clock Mesen2 reports no loss for that reads back 584 million years away |
| ClockGb.GambatteForgets | src/clock_gb.c:144-149 | a clock Gambatte reports no loss for whose base time is out of range, and reads back as another where the subtraction wraps |

## Left out

- Streams and files: `sigil_io`, loading, listing through callbacks, and writing card files; an image is already in memory. Gzip, RZIP, .vmp and container formats with them.
- malloc failure and buffer-capacity truncation: allocation succeeds and strings are long enough.
- Which storage form a dump file is in, and the compressed ones (src/card_saturn.c:86-243): a volume is its blocks once halved.
- PlayStation 2 cards whose clusters hold one 512-byte entry: inject writes the folder's second entry into its first cluster (src/card_ps2.c:745-748), so a card is taken to hold at least two a cluster.
- PlayStation 2 page error correction, dirty marks and superblock text (src/card_ps2.c:380-530): a card is its clusters and the geometry its superblock gave.
- Ps2Alloc.Allocator.Allocate: writes to the table, here and in Ps2Card.Inject and Ps2Delete.Delete, are stated for cards whose table clusters read, differ from one another and lie below the allocatable area, as a format lays them; on others one write lands in several cells, or in data. Reading is stated for every card.
- Ps2Card.Inject: the sum of clusters needed is not cut to 32 bits; and a root directory whose chain is shorter than its own count is left to the cases where there is no space either, because beyond them the source indexes past the end of the walked chain (src/card_ps2.c:572-575).
- GameCubeCard.Repair: the notes on entries whose chain is corrupt (src/card_gamecube.c:606-611) are left out; they change nothing on the card.
- Ps2FolderTheorems.PackUndoesUnpack: stated for names without a line's end, and `Ps2LineEnd` for those whose rest after it is a plain word; for the others `PackIff` has the condition on the rows read. File names are distinct. The folder's own entry for itself and for its parent are not kept by a folder card.
- SaturnScan.Scan: the whole volume is scanned; the source's callbacks that stop early see a prefix of the same saves.
- ClockGb.GambatteForgets: the signed overflow at src/clock_gb.c:146, which C leaves undefined, is taken to wrap.
- ClockGb.WriteKeepsClock: the layouts are functions on values, not writes through pointers; the source's loops only copy fields.
- Calendar.CivilInverse: the date functions are on values and unbounded integers; the source's 64-bit arithmetic does not reach its limits on card dates.
- SaveIndex.Publish: ids past 64 bits are excluded from the numbering, and the JSON and folder names around the index are not parsed.
- Md5.DigestOf, Sha1.DigestOf: a stream holds its block function as a function value, which cannot be a method; that `Compress` computes that function is its own contract.
- Sync.CollectRecordsIff: a request that names its own game as a companion is not modelled (`IsRequest`); the source does not refuse one.
- Sync.NoLostUpdate: identities stand for saves; that equal digests mean equal saves is assumed. Which files, cards or profiles make up a game's saves is not modelled.
- SerialScan.ScanSerials: reads succeed and the image reaches to the end of the file's last sector.
- PlayStation 1 cards, Nintendo 64 saves and MBC2 packing: easier members of the same families.
- Title ids, disc sheets, Switch and Wii containers, the command line and the bindings.
- GameCube serial binding and the .gcs and .sav wrappers (src/card_gamecube.c:488-578), Dreamcast .vmi times (src/card_dreamcast.c:550-590): conversions that would add easy members.
- `verify` of each card: it compares an extracted save with a unit, which the extract theorems cover.
