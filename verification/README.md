# eos-shard: both index formats, from writing to reading

eos-shard stores content in two on-disk formats. A *dictionary* maps strings to strings: a sorted
run of NUL-terminated keys and values, cut into about sqrt(n) blocks, followed by a block table and
a Bloom filter. A *V2 shard* holds blobs and records: blob data, blob headers, a table of blobs per
record, a sorted record table and a pool of string constants. This project models the writers and
the readers of both on a file that is one growing sequence of bytes, and proves that what was
written is what is read.

The main results:

* **Dictionary round trip.** After any run of calls to add entries, rejected ones included,
  finishing succeeds exactly if the announced number was accepted; then opening and looking up
  gives an added key its value, at any offset of any file, exactly if the entries in front of its
  match, the key and the value can be read in one window. Otherwise the program never comes back
  (`AddedKeyFound`, `AddedKeyEnds`, `EndlessLookup`, `BuildAndLookUp`, `AddedKeyRelocated`). The
  chunked scan refines a plain parse for every placement of chunk boundaries (`WindowScan`), and
  after some number of rounds it ends, or after none (`ScanEndsExactly`). The truncated comparisons
  of the bisection decide like full ones (`ProbeIsCompare`, `FindBlock`).
* **Absent keys, exactly.** The scan tests only the chunk bound, so it can run on into the block
  table. The test suite's claim that a dictionary "never reports false positives"
  (`test/dictionarySpec.js:129-134`) is false in general: `FalsePositiveWitness` is a dictionary of
  one entry that reports an absent key, a member of the family in `SizeReportedAsKey`. What a
  stretch of bytes shows as keys is every other one of its complete NUL-terminated strings
  (`ParseShows`); the *phantom keys* of a block are those shown by the bytes behind the data, as
  far as the last window of the block reaches. They are computed from the image and the bytes
  behind it alone, for all keys at once. `AbsentKeyExactly`: an absent key is reported missing if
  and only if the filter rejects it, or no block starts at or below it, or its lookup ends and it
  is no phantom key of its block. `AbsentKeyInEarlyBlock` is a simple sufficient condition.
* **Concurrent writing.** Calls to add blobs move through their steps in any interleaving
  (`AddBlobMachine`). A schedule keeps one invariant all the way if and only if no call looks up a
  place or a string offset of 4 GiB or more, whatever the size of the shard (`EverySchedule`); a
  run that stays below 4 GiB never does (`SmallRunSafe`). No call writes outside its own range
  (`OwnRangeOnly`); and when all calls are back the state is the one that adding the accepted blobs
  one by one would have left (`AllBackSettled`), also for blobs that shared a range another call
  was still filling. Every fair schedule brings all calls back (`FairScheduleEnds`).
  `ReadConcurrentRun` takes this through finishing, opening, finding a record by name and reading
  its blobs, with the packed bytes of every call that returned.
* **Shard round trip.** After any run of adding blobs, records and blobs to records, in any order
  and with refused calls among them, finishing and opening, a record is found by its name if and
  only if it was added, and every blob name in it reads as the first blob added under it, with its
  packed bytes in place and its contents on loading (`RoundTrip`). A record keeps all its blobs up
  to 255; of more, whose count does not fit its byte, exactly those in `KeptIds` are left. The file
  is laid out without overlap (`Plan.Regions`, `Plan.TablesDisjoint`, `Plan.WrittenIn`).
* **By the numbers.** What the files hold, and what decides an operation, is also stated in numbers
  and bytes, independently of the functions that compute it: a finished shard (`ShardBytes`), a
  stored dictionary (`DictionaryBytes`), the string order (`CompareMeaning`), the slots of the Bloom
  filter (`ComputeHashes`, `FoldStep`), odd and even blob flags (`PackedByFlags`, `LoadMeaning`),
  "$metadata" and "$data" (`OwnBlobs`), hexadecimal digits (`DigitMeaning`).
* **Composition.** `BuildStoreAndLookUp` goes from one end to the other: a dictionary is written by
  any run of calls, stored as a blob of a record in a shard, found by the record's name and the
  blob's, and every accepted key gives its value. `LookUpAfterRun` has this for any run of calls to
  the shard writer. Streaming a blob delivers its packed bytes (`StreamBlob`).

Code that changes things step by step is modelled as classes and loops (`BloomFilter`,
`DictionaryWriter`, `Dictionary`, `ConstantPool`, `ShardWriterV2`, `ShardFileV2`, `BlobStream`,
`ShardFile`), proved against functions; what is promised is proved about those functions. The
threads of the V2 writer are a state machine.

Where the code and its documentation disagree the model follows the code:

* a content type may have 255 bytes by the format header, but only 254 read back (`KeptExactly`);
* the comment on `bloom_filter_test` says that an absent key always tests false; `Test` holds for
  every key whose positions are covered;
* places in the shard are looked up through a 32-bit cast. A call reuses the place of equal data if
  and only if that place lies below 4 GiB (`ReuseExact`); otherwise the state is no longer that of a
  correct run (`ReuseLost`). `ThirdCallMisplaced` is a run of three calls, one with 4 GiB of data and
  two with the same small blob, whose third call is sent to offset 64, into the data of the first;
  once all are back, the third blob's range holds bytes of the first (`ThirdBlobWrong`).
  Offsets of repeated strings are cast in the same way (`AnswerIsOffset`). The theorems about runs
  ask for what is looked up again to lie below 4 GiB (`Safe`, `Castable`), a limit that the format
  does not mention, and for nothing about the size of the shard;
* a refused call to add a blob returns 0, which is also the identifier of the first blob.

The dictionary format header gives 8192 bytes as the limit of a key or a value. The program checks
no limit, and the real one is 8190 bytes for a key and its value together, both NULs included: an
entry of another key that is longer makes the scan read the same window for ever, and no shorter one
does (`StallsIffTooLong`); a value is read back if and only if one read fetches its NUL (`TextReads`),
because the loop that reads it never advances (`ReadsExactly`).

SHA-256 and zlib are functions (`Codec`); that no two blobs of a run share a checksum without
sharing their bytes is a hypothesis of the theorems that need it (`CollisionFree`), never of all
inputs. The bit count and the hash count of the Bloom filter, which the program computes in floating
point, are parameters.

## Model

| member | source | states |
|---|---|---|
| Bytes.Align | src/eos-shard-writer-v2.c:40-42 | rounding up gives the least multiple of 32 that is not below the argument |
| Bytes.LeRoundTrip | src/eos-shard-format-v2.h:31-41 | a number stored in k little-endian bytes reads back modulo 256^k |
| Bytes.FromLeBytes | src/eos-shard-format-v2.h:31-41 | bytes stand for a number with the first as the least significant one, for one, two, four and eight bytes |
| CStrings.StrNCmpIsCompare | src/eos-shard-dictionary.c:92-104 | strncmp over strlen(key)+1 bytes of a buffer that starts with a stored string has the sign of comparing the whole strings, whatever follows |
| CStrings.StrNCmpEqual | src/eos-shard-shard-file-impl-v2.c:163-166 | strncmp of two buffers of one size is 0 iff they hold the same string |
| CStrings.CompareMeaning | src/eos-shard-dictionary-writer.c:95-102 | strcmp puts a string below its proper extensions; otherwise the first byte that differs decides, as an unsigned number |
| CStrings.StrNCmpMeaning | src/eos-shard-dictionary.c:104-104 | strncmp has the sign of the first difference that is not behind a common NUL, and is 0 without one |
| Words.OrMask | src/eos-shard-bloom-filter.c:166-166 | or-ing `1 << k` into a bucket sets bit k and leaves every other bit |
| Words.AndMask | src/eos-shard-bloom-filter.c:199-199 | and-ing with `1 << k` is non-zero iff bit k is set |
| Words.BitMeaning | src/eos-shard-bloom-filter.c:163-166 | bit k is the k-th binary digit |
| Words.MaskValues | src/eos-shard-bloom-filter.c:166-166 | the masks double from 1 on |
| BloomFilter.Fnv1a | src/eos-shard-bloom-filter.c:109-118 | the hashing loop computes the 32-bit fold of the sign-extended characters, mixed |
| BloomFilter.FoldStep | src/eos-shard-bloom-filter.c:109-118 | one character more, as a signed number, is exclusive-ored into the accumulator before the product wraps; it begins with the offset basis |
| DictionaryFalsePositive.HashOfPercent | src/eos-shard-bloom-filter.c:95-129 | both hashes of "%", as numbers |
| DictionaryFalsePositive.HashOfOthers | src/eos-shard-bloom-filter.c:95-129 | the accumulator of "fo" is the published one, and the hashes of "fo" and of the character 200 are given |
| BloomFilter.ComputeHashes | src/eos-shard-bloom-filter.c:131-143 | slot 0 is the hash modulo the bit count; slot i is (a + i*b) modulo the bit count where the bit count divides 2^32, and always as long as no sum wraps |
| BloomFilter.PositionStep | src/eos-shard-bloom-filter.c:136-142 | each slot is the one before plus the second hash, wrapped at 32 bits and then reduced |
| BloomFilter.BloomFilter.InitForParams | src/eos-shard-bloom-filter.c:28-39 | the bit count is the least multiple of 32 not below the optimum, and no bit is set |
| BloomFilter.BloomFilter.Add | src/eos-shard-bloom-filter.c:152-168 | exactly the positions of the key are added to the set the buckets stand for; with no bits nothing happens |
| BloomFilter.BloomFilter.SetPosition | src/eos-shard-bloom-filter.c:163-166 | the bucket index is in range, and the set grows by exactly that position |
| BloomFilter.BloomFilter.Test | src/eos-shard-bloom-filter.c:185-204 | true iff there are bits and the key's positions are all in the set |
| BloomFilter.BloomFilter.TestAll | src/eos-shard-bloom-filter.c:194-203 | the loop answers whether all positions are covered |
| BloomFilter.AllBitsMembers | src/eos-shard-bloom-filter.c:152-168 | after any run of adds a position is set iff some added key hashes to it |
| BloomFilter.KeyBitsMembers | src/eos-shard-bloom-filter.c:131-143 | the bits of a key are its slots, one for each hash |
| BloomFilter.BitsMembers | src/eos-shard-bloom-filter.c:163-166 | position p is binary digit p modulo 32 of bucket p / 32 |
| BloomFilter.AddOrderIrrelevant | src/eos-shard-bloom-filter.c:152-168 | order and repetition of adds do not matter |
| BloomFilter.AddedKeyCovered | src/eos-shard-bloom-filter.c:174-178 | no false negatives: the positions of an added key are covered |
| BloomFilter.SetOneBit | src/eos-shard-bloom-filter.c:166-166 | one or-ed mask adds one position to the set of all buckets |
| BloomFilter.BloomFilter.WriteToStream | src/eos-shard-bloom-filter.c:75-82 | the filter's bytes are written at the stream position, header first |
| BloomFilter.BloomFilter.InitForFd | src/eos-shard-bloom-filter.c:41-67 | the filter holds what the file has at the offset, zeros behind its end, whatever that is |
| BloomFilter.StoredFilterRead | src/eos-shard-bloom-filter.c:41-67 | a stored filter reads back with the same counts and buckets |
| BloomFilter.AddAllAndReload | src/eos-shard-bloom-filter.c:28-82 | after any run of adds, writing and reloading at any offset, the set is exactly the bits of the added keys |
| DictionaryFormat.CeilSqrt | src/eos-shard-dictionary-writer.c:66-66 | the block length is the least r with n <= r*r |
| DictionaryFormat.BlockBounds | src/eos-shard-dictionary-writer.c:66-67 | blocks cut the entries into consecutive non-empty runs that cover all of them |
| DictionaryFormat.BlockOfEntry | src/eos-shard-dictionary-writer.c:66-67 | every entry lies in the block its index divided by the block length names |
| DictionaryFormat.BlockCountFits | src/eos-shard-dictionary-writer.c:66-67 | for every n below 2^31 there are at most as many blocks as a block is long, and at most 46341, so the 16-bit count holds them |
| DictionaryFormat.OffsetListComplete | src/eos-shard-dictionary-writer.c:104-137 | the offsets noted while adding are the block starts, one for each block, so the assertion in `finish` cannot fail |
| DictionaryFormat.ImageParts | src/eos-shard-dictionary-format.h:54-78 | a file holds a dictionary iff it holds header, data, table and filter at the places the header gives |
| DictionaryWriter.DictionaryWriter.NewForStream | src/eos-shard-dictionary-writer.c:50-75 | block length, block count and filter size for n entries |
| DictionaryWriter.DictionaryWriter.Begin | src/eos-shard-dictionary-writer.c:77-84 | the run invariant holds with no entries |
| DictionaryWriter.DictionaryWriter.AddEntry | src/eos-shard-dictionary-writer.c:86-119 | accepted exactly if there is no last key, or the key extends it or is greater at the first difference, and otherwise nothing changes; ends the program exactly if no entries were announced; stream, filter and offsets are again the serialisation of all accepted entries |
| DictionaryWriter.DictionaryWriter.Append | src/eos-shard-dictionary-writer.c:104-118 | the new state of every field for an accepted entry |
| DictionaryWriter.DictionaryWriter.Finish | src/eos-shard-dictionary-writer.c:121-163 | refused exactly if the count is wrong, and then nothing changes; otherwise the file holds the whole dictionary, and nothing behind it that was not there |
| DictionaryWriter.DictionaryWriter.WriteBlockTable | src/eos-shard-dictionary-writer.c:144-150 | the table written is that of the blocks of the accepted entries |
| DictionaryWriter.DictionaryWriter.WriteTail | src/eos-shard-dictionary-writer.c:139-162 | table and filter behind the data, then the header in front |
| DictionaryWriter.StepFacts | src/eos-shard-dictionary-writer.c:104-118 | what one more entry adds to data, offsets and filter keeps the list sorted and everything in its place |
| DictionaryWriter.FinishedImage | src/eos-shard-dictionary-writer.c:139-162 | back-patching the header over data and tail completes the image |
| DictionaryTheorems.AddAny | src/eos-shard-dictionary-writer.c:86-163 | any run of calls, accepted or rejected, leaves exactly the accepted entries, sorted, and exactly their filter; the program ends in the first call if none were announced, and else finishing succeeds iff there are as many as announced |
| DictionaryTheorems.SortedAccepted | src/eos-shard-dictionary-writer.c:86-102 | of calls in order none is rejected |
| DictionaryTheorems.Build | src/eos-shard-dictionary-writer.c:50-163 | a dictionary written by any such run is stored, well-formed, with the accepted entries; a new file holds it and nothing else |
| DictionaryBytes.HeaderBytesAt | src/eos-shard-dictionary-format.h:54-65 | a stored dictionary begins with its magic, and at 8 and 16 with the places of block table and filter |
| DictionaryBytes.EntryBytesAt | src/eos-shard-dictionary-writer.c:111-113 | from 24 on key, NUL, value and NUL of each entry follow each other without a gap |
| DictionaryBytes.BlockCountAt | src/eos-shard-dictionary-format.h:67-78 | behind them is the number of blocks, in two bytes, of as many entries each as the least square root that is not too small |
| DictionaryBytes.BlockBytesAt | src/eos-shard-dictionary-format.h:67-78 | and for each block, 16 bytes each, where its first entry starts and how long it is |
| DictionaryBytes.FilterBytesAt | src/eos-shard-bloom-filter.h:28-32 | then bit count, bucket count, hash count and the buckets, four bytes each |
| DictionaryScan.ScanWindow | src/eos-shard-dictionary.c:145-167 | the inner loop ends and computes the plain parse of the window |
| DictionaryScan.StringInWindow | src/eos-shard-dictionary.c:134-157 | a stored string shows up complete in a window, or reaches its end; never a truncated key |
| DictionaryScan.ParseEntry | src/eos-shard-dictionary.c:146-167 | one parsing step: match, step over a complete entry, or stop at the entry's start |
| DictionaryScan.ParseRun | src/eos-shard-dictionary.c:146-167 | over entries without a match the parse steps from entry to entry, so values are never compared |
| DictionaryScan.WindowScan | src/eos-shard-dictionary.c:132-168 | for every placement of windows: the first match of a complete key, or a re-read on an entry boundary further on, or what follows the data |
| DictionaryScan.StallsIffTooLong | src/eos-shard-dictionary.c:132-157 | the scan makes no progress over an entry of another key iff the entry has more than 8190 bytes |
| DictionaryScan.ParseShows | src/eos-shard-dictionary.c:145-167 | the parse of a window reports a key iff the key is an even-numbered complete string of what is left of the window |
| DictionaryScan.StringsMeaning | src/eos-shard-dictionary.c:145-167 | the strings a piece of bytes shows, with their NULs and laid end to end, are those bytes but for what follows the last NUL |
| DictionaryScan.EveryOtherAt | src/eos-shard-dictionary.c:145-167 | of those strings the keys are the ones with even numbers |
| DictionaryScan.OverrunShowsPhantoms | src/eos-shard-dictionary.c:132-168 | a scan that runs on behind the data reports a key iff the key is one of the phantom keys of the block |
| DictionaryReader.ProbeIsCompare | src/eos-shard-dictionary.c:92-104 | the truncated comparison with a block start, running over into the value or short at the end of the file, decides like comparing the whole keys |
| DictionaryReader.Dictionary.StartsAbove | src/eos-shard-dictionary.c:89-104 | one probe tells whether the block starts above the key |
| DictionaryReader.BoundaryIsBlockFor | src/eos-shard-dictionary.c:86-116 | the boundary bisection stops at is the last block that starts at or below the key |
| DictionaryReader.Dictionary.FindBlock | src/eos-shard-dictionary.c:57-119 | finds the last block whose start key is at or below the key, with its offset and length, and fails iff there is none |
| DictionaryReader.Dictionary.BlockDecoded | src/eos-shard-dictionary.c:77-78 | entry b of the table reads as offset and length of block b |
| DictionaryReader.AddedKeyInBlock | src/eos-shard-dictionary.c:86-118 | an added key, duplicates included, occurs in the block it is looked for in |
| DictionaryReader.WindowResumed | src/eos-shard-dictionary.c:153-157 | where the first entry of a window can be passed, a window without a match leads to a later entry boundary or behind the data |
| DictionaryReader.ScanEndsExactly | src/eos-shard-dictionary.c:132-168 | the outer loop ends after some number of rounds iff the entries in front of the match, or all of the block, are passed in one window each, and the key that matches fits one; otherwise it is going on after every number of rounds |
| DictionaryReader.Dictionary.LookupKeyInBlock | src/eos-shard-dictionary.c:122-171 | where the scan ends, both loops do, and the answer is the first match of the block, or what the bytes behind the data show |
| DictionaryReader.Dictionary.LookupKeyOffset | src/eos-shard-dictionary.c:173-186 | where the lookup ends, filter, bisection and scan together compute the reference lookup |
| DictionaryReader.ReadCString | src/eos-shard-dictionary.c:237-252 | n rounds of the loop collect what the reference loop collects in n rounds |
| DictionaryReader.ReadsExactly | src/eos-shard-dictionary.c:237-252 | if the first read has a NUL, the loop stops in its first round with the string up to it; otherwise it has not stopped after any number of rounds |
| DictionaryReader.Dictionary.LookupKey | src/eos-shard-dictionary.c:255-262 | the text at the reported position, or nothing if the position is 0 |
| DictionaryReader.NewForFd | src/eos-shard-dictionary.c:188-212 | in any file: refused iff the magic number is wrong, also where the header is read short and old memory shows through; otherwise table start and filter are those the header gives |
| DictionaryReader.HeaderReadByte | src/eos-shard-dictionary.c:45-54 | a header byte is that of the file, or old memory where the file has ended |
| DictionaryReader.OpensStored | src/eos-shard-dictionary.c:188-212 | where a dictionary is stored, the opened reader stands for it |
| DictionaryTheorems.AddedKeyFound | src/eos-shard-dictionary.c:173-262 | an added key yields the value of the first match in the last block at or below it iff its lookup ends and one read fetches the value, and else the program never comes back; with distinct keys that is the value added |
| DictionaryTheorems.AddedKeyEnds | src/eos-shard-dictionary.c:132-168 | the lookup of an added key ends iff every entry in front of its match in its block has at most 8190 bytes, and the key, with its NUL, too |
| DictionaryTheorems.EndlessLookup | src/eos-shard-dictionary.c:132-168 | a lookup that does not end by that condition is in its scan after any number of rounds |
| DictionaryTheorems.AddedKeyRelocated | src/eos-shard-dictionary.c:188-262 | the same dictionary answers the same for added keys at any two offsets of any two files |
| DictionaryTheorems.TextReads | src/eos-shard-dictionary.c:237-252 | a stored value reads back iff it has at most 8190 bytes |
| DictionaryTheorems.ReportedInsideIsReal | src/eos-shard-dictionary.c:173-186 | a reported position inside the data is the value of a real entry with exactly that key |
| DictionaryTheorems.OverrunBehindData | src/eos-shard-dictionary.c:146-167 | whatever the overrun reports lies behind the data |
| DictionaryTheorems.AbsentKeyExactly | test/dictionarySpec.js:129-134 | a key that was not added is reported missing iff the filter rejects it, or no block starts at or below it, or its lookup ends and it is not among the phantom keys of its block, which depend on the image and the bytes behind it only |
| DictionaryTheorems.AbsentKeyInEarlyBlock | src/eos-shard-dictionary.c:132-170 | if the lookup ends and the chosen block ends 8191 bytes before the table, an absent key is reported missing |
| DictionaryTheorems.EmptyDictionary | src/eos-shard-dictionary.c:173-186 | a dictionary without entries reports every key missing |
| DictionaryTheorems.BuildAndLookUp | test/dictionarySpec.js:99-127 | writing by any run of calls, opening, and looking up any key whose lookup ends: an accepted key gives its value iff one read fetches it |
| DictionaryFalsePositive.SizeReportedAsKey | src/eos-shard-dictionary.c:146-167 | in every dictionary of one short entry, the one-byte key that equals the entry's size is reported with an empty value if it passes the filter |
| DictionaryFalsePositive.FalsePositiveWitness | test/dictionarySpec.js:129-134 | a concrete dictionary, with the filter the program sizes for it, reports a key that was never added |
| ConstantPool.ConstantPool.Add | src/eos-shard-writer-v2.c:119-131 | the pool is the old one plus the string if it is new; a known string's offset comes back through a 32-bit cast |
| ConstantPool.ConstantPool.Write | src/eos-shard-writer-v2.c:133-143 | the strings are written behind each other, NUL-terminated, in the order in which they were added |
| ConstantPool.InternOffsets | src/eos-shard-writer-v2.c:119-131 | equal strings get equal offsets, offsets never move, and a new string gets the current size |
| ConstantPool.InternSize | src/eos-shard-writer-v2.c:125-129 | the size grows by the new string with its NUL and no string is stored twice |
| ConstantPool.AnswerIsOffset | src/eos-shard-writer-v2.c:119-131 | the answer is the offset of the string iff the string is new or its own offset is below 4 GiB |
| ConstantPool.TwoInterns | src/eos-shard-writer-v2.c:345-349 | asking for a name and then a content type answers both right iff what is repeated lies below 4 GiB, and moves no other string |
| ConstantPool.DistinctStringsDisjoint | src/eos-shard-writer-v2.c:119-131 | different strings occupy disjoint ranges |
| ConstantPool.StringStored | src/eos-shard-writer-v2.c:133-143 | in a written pool the string stands at its offset |
| ConstantPool.PoolRun | src/eos-shard-writer-v2.c:119-131 | over any run of requests every string is there, none twice, and what was there keeps its offset |
| HexName.RawNameToHexName | src/eos-shard-shard-file.c:315-323 | the buffer holds two lower-case digits a byte and a NUL |
| HexName.HexNameToRawName | src/eos-shard-shard-file.c:334-351 | succeeds iff there are 40 characters and the first 40 are digits; a short name leaves the buffer, a bad character keeps its tail |
| HexName.DigitMeaning | src/eos-shard-shard-file.c:315-351 | the sixteen digits in lower case are written, and those from ten on are read in upper case too |
| HexName.NameMeaning | src/eos-shard-shard-file.c:337-346 | a name is read completely iff it has at least 40 characters and the first 40 are digits |
| HexName.DecodedMeaning | src/eos-shard-shard-file.c:334-351 | a long enough name is read pair by pair up to the first that is not two digits; the buffer keeps the rest |
| HexName.DecodeEncoded | src/eos-shard-shard-file.c:315-351 | reading back an encoded raw name gives it back, whatever the buffer held |
| HexName.EncodeDecoded | src/eos-shard-shard-file.c:315-351 | encoding what was read from a name gives its first 40 characters in lower case |
| HexName.OrderPreserved | src/eos-shard-writer-v2.c:504-511 | the record sort order on raw names is the order of the hexadecimal names |
| BlobLayout.FirstSameBound | src/eos-shard-writer-v2.c:386-399 | the payload a checksum leads to is the first one with it |
| BlobLayout.TableHas | src/eos-shard-writer-v2.c:387-399 | the table holds the data start of every checksum seen |
| BlobLayout.TableOnly | src/eos-shard-writer-v2.c:387-399 | and of no other |
| BlobLayout.ReserveSeen | src/eos-shard-writer-v2.c:387-413 | a checksum that is there gives the place of the first payload and reserves nothing |
| BlobLayout.ReserveFresh | src/eos-shard-writer-v2.c:394-399 | a new checksum gives the write offset, which moves past the payload to the next multiple of 32 |
| BlobLayout.TableValueAnswered | src/eos-shard-writer-v2.c:386-394 | a place survives the cast iff it is below 4 GiB, and no place is the sentinel 0 |
| BlobLayout.NextPlaceBelow | src/eos-shard-writer-v2.c:386-394 | if every repeated checksum of a sequence of payloads has a place below 4 GiB, so have those of the sequence without its last, and the one the last repeats |
| BlobLayout.RangesDisjoint | src/eos-shard-writer-v2.c:394-399 | the ranges reserved for two payloads do not overlap |
| BlobLayout.RangeInside | src/eos-shard-writer-v2.c:394-399 | all data lies between the file header and the write offset |
| BlobLayout.ShareIffSameChecksum | src/eos-shard-writer-v2.c:386-416 | non-empty payloads share a place iff their checksums are equal |
| AddBlobMachine.StepInv | src/eos-shard-writer-v2.c:320-421 | a step of a call keeps the invariant iff what it looks up is new or lies below 4 GiB |
| AddBlobMachine.EverySchedule | src/eos-shard-writer-v2.c:320-421 | over every schedule of any number of calls the invariant holds all the way iff every lookup is of that kind, and it then holds at the end |
| AddBlobMachine.SmallRunSafe | src/eos-shard-writer-v2.c:320-421 | every schedule that ends with write offset and string pool below 4 GiB is of that kind |
| AddBlobMachine.PoolStep | src/eos-shard-writer-v2.c:339-349 | refusing an oversized name, or the locked pool step, keeps the invariant iff the strings it repeats lie below 4 GiB |
| AddBlobMachine.LockReserves | src/eos-shard-writer-v2.c:383-413 | the locked step finds or reserves the place the layout gives the new payload, at any write offset |
| AddBlobMachine.OwnRangeOnly | src/eos-shard-writer-v2.c:401-410 | a step writes only inside the range of its own call, and only a write step writes |
| AddBlobMachine.ChunkFills | src/eos-shard-writer-v2.c:404-410 | each chunk extends the filled part of the range |
| AddBlobMachine.ChunkSpares | src/eos-shard-writer-v2.c:404-410 | a chunk disturbs nothing another call has written |
| AddBlobMachine.StepAdvances | src/eos-shard-writer-v2.c:320-421 | a call that is not back gets closer to its end with every own step, and one that is back changes nothing, also in runs that lose a place |
| AddBlobMachine.FairScheduleEnds | src/eos-shard-writer-v2.c:320-421 | every schedule in which each call makes six moves more than its blob has packed bytes brings all calls back |
| AddBlobMachine.AllBackSettled | src/eos-shard-writer-v2.c:345-420 | once all calls are back, headers, table, pool and data are those of adding the accepted blobs one by one |
| AddBlobMachine.IdentifiersDistinct | src/eos-shard-writer-v2.c:389-391 | the identifiers returned to accepted calls are distinct and name their blobs |
| AddBlobMachine.ReuseExact | src/eos-shard-writer-v2.c:386-394 | a call takes over the noted place iff that place is below 4 GiB |
| AddBlobMachine.ReuseLost | src/eos-shard-writer-v2.c:386-394 | a call whose checksum has its place at or above 4 GiB leaves the invariant by its locked step |
| AddBlobMachine.ThirdCallMisplaced | src/eos-shard-writer-v2.c:320-421 | a run of three calls: 4 GiB of data, then the same small blob twice; the third call is about to publish offset 64, while the place of its data is 4 GiB + 64 |
| AddBlobMachine.ThirdBlobWrong | src/eos-shard-writer-v2.c:320-421 | that run to its end: all calls are back, and the range of the third blob holds bytes of the first |
| BlobStore.SettledFresh | src/eos-shard-writer-v2.c:383-416 | adding a blob with new contents keeps all places, headers and data, and puts the new data at the write offset |
| BlobStore.SettledSeen | src/eos-shard-writer-v2.c:383-416 | adding a blob with known contents keeps everything and gives it the place of the first |
| BlobStore.PackedBytesStored | src/eos-shard-writer-v2.c:386-416 | the range of every blob holds its packed bytes, whoever wrote them |
| BlobStore.PackedByFlags | src/eos-shard-writer-v2.c:359-382 | odd flags store the contents deflated, even flags as they are; the checksum is that of the stored bytes; names and content types may have 255 bytes |
| ShardWriter.ShardWriterV2.NewForFd | src/eos-shard-writer-v2.c:192-283 | a new writer is settled with no blobs and no records |
| ShardWriter.ShardWriterV2.AddBlob | src/eos-shard-writer-v2.c:320-421 | refused with 0 and without a change iff name or content type is over 255 bytes; otherwise the next identifier, one blob more, and the pool grown by its strings; a settled writer stays settled iff what is repeated lies below 4 GiB, if there is anything to place |
| ShardWriter.Mislaid | src/eos-shard-writer-v2.c:345-413 | a lookup that loses the upper half of an offset leaves a wrong header or a wrong write offset |
| ShardWriter.WriteChunks | src/eos-shard-writer-v2.c:404-410 | the copy loop writes all the data from its start on |
| ShardWriter.ShardWriterV2.AddRecord | src/eos-shard-writer-v2.c:434-449 | a record with the decoded raw name, zero where the name could not be read, and no blobs; settled or not stays as it was |
| ShardWriter.ShardWriterV2.AddBlobToRecord | src/eos-shard-writer-v2.c:459-467 | the record's list grows by the blob, other records stay |
| ShardWriter.ShardWriterV2.WriteBlobHeaders | src/eos-shard-writer-v2.c:528-534 | all headers in order, each entry with the place of its header |
| ShardWriter.ShardWriterV2.WriteBlobTable | src/eos-shard-writer-v2.c:477-491 | the record's blobs sorted by name, as pointers to their headers |
| ShardWriter.ShardWriterV2.WriteBlobTables | src/eos-shard-writer-v2.c:536-540 | the tables of all records behind each other |
| ShardWriter.ShardWriterV2.WriteRecords | src/eos-shard-writer-v2.c:542-547 | the records in sorted order from an aligned offset on |
| ShardWriter.ShardWriterV2.Finish | src/eos-shard-writer-v2.c:513-554 | the file is the planned layout over the old one, and the new state of every field |
| Sorting.SortedPermutes | src/eos-shard-writer-v2.c:519-519 | sorting rearranges the records and loses none |
| Sorting.SortedAscending | src/eos-shard-writer-v2.c:504-511 | sorting leaves ascending keys |
| Sorting.SortedStable | src/eos-shard-writer-v2.c:482-482 | blobs of equal names keep the order in which they were added |
| Sorting.SortedDistinct | src/eos-shard-writer-v2.c:519-519 | distinct record names stay distinct |
| ShardFormat.HeaderRoundTrip | src/eos-shard-format-v2.h:45-61 | the file header reads back, modulo the widths of its fields, behind the magic |
| ShardFormat.RecordRoundTrip | src/eos-shard-format-v2.h:70-85 | a record reads back; the blob count modulo 256 |
| ShardFormat.BlobRoundTrip | src/eos-shard-format-v2.h:99-119 | a blob header reads back; the flags modulo 2^16 |
| ShardFormat.HeaderPlaces | src/eos-shard-format-v2.h:45-61 | magic, no flags, padding, and record count, records start and string constants start at 12, 20 and 28 |
| ShardFormat.RecordPlaces | src/eos-shard-format-v2.h:70-85 | raw name, flags at 20, blob count in the byte at 24, table start at 28 |
| ShardFormat.BlobPlaces | src/eos-shard-format-v2.h:99-119 | flags, name at 4, content type at 12, checksum at 20, sizes at 52 and 60, data start at 68 |
| ShardLayout.Plan.Regions | src/eos-shard-writer-v2.c:513-554 | header, data, blob headers, tables, records and pool occupy consecutive disjoint ranges; records and pool start at multiples of 32 |
| ShardLayout.Plan.TablesDisjoint | src/eos-shard-writer-v2.c:477-491 | the tables of two records are disjoint and inside the region of the tables |
| ShardLayout.Plan.WrittenIn | src/eos-shard-writer-v2.c:513-554 | after finishing every region is in its place, whatever the file held |
| ShardLayout.Plan.WrittenKeeps | src/eos-shard-writer-v2.c:513-554 | finishing disturbs nothing between the file header and the blob headers |
| ShardReader.NewForFd | src/eos-shard-shard-file-impl-v2.c:78-105 | opens iff the magic is there and the record table, by count and start in the header, is complete; the records are those at its places in the file |
| ShardReader.ReadableMeaning | src/eos-shard-shard-file-impl-v2.c:85-97 | the header is read from bytes 12, 20 and 28, and record k from 36*k behind the records start |
| ShardReader.NotDetectedAsV1 | src/eos-shard-shard-file.c:77-99 | a file with a V2 header is never taken for V1, although that magic is searched for in its first 16 bytes |
| ShardReader.NotV1At | src/eos-shard-shard-file.c:77-99 | none of the places in those bytes holds "ShardV1" |
| ShardReader.TombstoneMeaning | src/eos-shard-shard-file-impl-v2.c:182-188 | a record is deleted iff its flags are odd |
| ShardReader.RecordMeaning | src/eos-shard-shard-file-impl-v2.c:198-201 | metadata and data are the blobs named "$metadata" and "$data" |
| ShardReader.ShardFileV2.FindBlob | src/eos-shard-shard-file-impl-v2.c:142-170 | the first readable table entry whose blob has the name |
| ShardReader.ShardFileV2.Bsearch | src/eos-shard-shard-file-impl-v2.c:219-226 | on a sorted table bisection finds the name iff it is there |
| ShardReader.ShardFileV2.FindRecordByRawName | src/eos-shard-shard-file-impl-v2.c:215-232 | with a sorted table of distinct names, tombstones allowed, a record is found iff the list of records has it |
| ShardReader.ShardFileV2.FindRecordByHexName | src/eos-shard-shard-file.c:374-383 | finds nothing for a name that is not hexadecimal, and otherwise what its raw name finds |
| ShardReader.ShardFileV2.ListRecords | src/eos-shard-shard-file-impl-v2.c:234-251 | the backward loop lists exactly the live records in table order |
| ShardReader.ShardFileV2.RecordsForeach | src/eos-shard-shard-file-impl-v2.c:253-268 | the callback sees exactly the same sequence |
| ShardReader.LiveMembers | src/eos-shard-shard-file-impl-v2.c:234-268 | the live records are exactly those that are not tombstones |
| ShardReader.LiveAscending | src/eos-shard-shard-file-impl-v2.c:234-268 | in a sorted table with distinct names they ascend strictly |
| ShardReader.ShardFileV2.ListBlobs | src/eos-shard-shard-file-impl-v2.c:282-305 | all readable blobs of the record, last first |
| ShardTheorems.StringRead | src/eos-shard-shard-file-impl-v2.c:107-113 | an interned string reads back, cut to one byte less than the buffer |
| ShardTheorems.TableBlobRead | src/eos-shard-shard-file-impl-v2.c:150-157 | a table entry leads to the header of the blob it stands for |
| ShardTheorems.NameRead | src/eos-shard-shard-file-impl-v2.c:159-166 | a stored blob is recognised by its own name and by no other |
| ShardTheorems.SearchFrom | src/eos-shard-shard-file-impl-v2.c:149-169 | the linear search finds the first entry with the name, among as many as the record header counts |
| ShardTheorems.KeptSorted | src/eos-shard-writer-v2.c:477-502 | the first blob under a name among the entries its count byte leaves of a sorted table is the first added under it: of all blobs up to 255, else of those the byte leaves |
| ShardTheorems.FirstAddedSorted | src/eos-shard-writer-v2.c:482-482 | sorting a table does not change which blob comes first under a name |
| ShardTheorems.BlobRead | src/eos-shard-shard-file-impl-v2.c:115-140 | a stored header is handed out with its flags, content type, checksum, sizes and place |
| ShardTheorems.PackedRead | src/eos-shard-writer-v2.c:386-416 | the range of a blob that is handed out holds its packed bytes, also where the place is shared |
| ShardTheorems.ReadBlobIs | src/eos-shard-shard-file-impl-v2.c:142-180 | reading a name from a stored record gives the first blob added under it among those the record keeps, or nothing if there is none |
| ShardTheorems.FirstAddedMeaning | src/eos-shard-shard-file-impl-v2.c:149-169 | the blob of a name is the first of the identifiers whose blob has the name, and none if there is none |
| ShardTheorems.ListedBlobs | src/eos-shard-shard-file-impl-v2.c:282-305 | the list has every blob of the record as it is read by name, in the reverse of the order of names |
| ShardTheorems.LoadedContents | src/eos-shard-shard-file.c:422-468 | the packed bytes of a blob are at its place, and loading it passes the checksum and gives back its contents, of a compressed blob as many as one read of the inflating stream delivers |
| ShardReader.LoadMeaning | src/eos-shard-shard-file.c:422-468 | nothing if the checksum differs; else for odd flags what inflating delivers, cut to the uncompressed size, and for even flags what was read |
| ShardTheorems.KeptExactly | src/eos-shard-shard-file-impl-v2.c:115-140 | flags are kept iff they fit 16 bits, the content type iff it has at most 254 bytes, and else what fits of them; size and checksum are those of the stored bytes; a blob without contents reads as none |
| ShardRoundTrip.RecordRead | src/eos-shard-shard-file-impl-v2.c:93-97 | slot k of the record table reads as record k in sorted order |
| ShardRoundTrip.OpensAs | src/eos-shard-shard-file-impl-v2.c:78-105 | a finished file opens, with the header and the table that were laid out |
| ShardRoundTrip.TableSorted | src/eos-shard-writer-v2.c:518-519 | the table on disk is sorted, and distinct if the names were |
| ShardRoundTrip.BlobCountKept | src/eos-shard-writer-v2.c:493-502 | a record keeps its blob count iff it has at most 255 blobs |
| ShardRoundTrip.BlobCountLost | src/eos-shard-writer-v2.c:499-499 | with 256 blobs it reads as having none |
| ShardRoundTrip.SettledFinished | src/eos-shard-writer-v2.c:513-554 | finishing a settled writer leaves all blob data in place and everything else laid out |
| ShardBytes.HeaderBytes | src/eos-shard-writer-v2.c:513-554 | a finished file has the record count, records start and string constants start at 12, 20 and 28 |
| ShardBytes.RecordBytes | src/eos-shard-writer-v2.c:493-502 | record k is at 36*k behind the number at 20: raw name, no flags, blob count, table start |
| ShardBytes.TableBytes | src/eos-shard-writer-v2.c:484-490 | the table has, eight bytes each, where the headers of the blobs are |
| ShardBytes.TableByName | src/eos-shard-writer-v2.c:469-482 | a table has the blobs of its record, in the order of their names |
| ShardBytes.BlobBytes | src/eos-shard-writer-v2.c:351-416 | the header of a blob leads to its name, its content type and its stored bytes, and has their checksum and size; odd flags mean that they are deflated |
| ShardBytes.NamesInFile | src/eos-shard-shard-file-impl-v2.c:149-166 | from the bytes of the file alone: following the numbers from the header over record and table to a blob header leads to the name of the blob |
| ShardRoundTrip.AfterWellNamed | src/eos-shard-writer-v2.c:320-467 | after any run of calls no refused blob is there, and records name only blobs that are |
| ShardRoundTrip.Run | src/eos-shard-writer-v2.c:320-467 | any run of adding blobs, records and blobs to records, in any order, refused calls included, leaves exactly what was added, and the writer settled if what is repeated lies below 4 GiB |
| ShardRoundTrip.StoreAndOpen | src/eos-shard-writer-v2.c:320-554 | any such run on a new shard, finished and opened, ends with the planned file and its record table |
| ShardRoundTrip.RecordReads | src/eos-shard-shard-file-impl-v2.c:190-205 | every stored record reads as one that was added: metadata, data and any named blob are the first added under the name among those it keeps, with packed bytes and contents |
| ShardRoundTrip.OwnBlobs | src/eos-shard-shard-file-impl-v2.c:190-205 | with a blob added under "$metadata" and another under "$data", the one is the metadata and the other the data |
| ShardRoundTrip.NamesStored | src/eos-shard-writer-v2.c:493-519 | the stored table is sorted, has every name that was added, and deletes none |
| ShardRoundTrip.ReadDelivers | src/eos-shard-shard-file-impl-v2.c:142-180 | what a name reads as is the first blob added under it among those kept, or nothing; without collisions its packed bytes are at its place and loading it gives its contents |
| ShardRoundTrip.FindAndRead | src/eos-shard-shard-file.c:374-383 | in a finished shard a record is found by its hexadecimal name iff one of that name was added, and reads as that record |
| ShardRoundTrip.RoundTrip | test/shardV2Spec.js:49-110 | after any run of calls, finishing and opening: a record is found by its hexadecimal name iff it was added, with its metadata, its data and any named blob as added, packed bytes and contents included; nothing is found under names that start with `$`; by distinct names it is that very record |
| ShardScenarios.ConcurrentRunFinished | src/eos-shard-writer-v2.c:320-554 | after every schedule from which all calls are back, and whose lookups are below 4 GiB, the finished file is that of the blobs in the order of their identifiers, and without collisions it holds the packed bytes of every call that returned |
| ShardScenarios.ReadConcurrentRun | src/eos-shard-writer-v2.c:320-554 | opening that file and looking a record and a blob up by name gives what the calls were given |
| ShardScenarios.NewDictionary | src/eos-shard-shard-file.c:470-475 | an uncompressed blob opens as the dictionary stored in it |
| ShardScenarios.DictionaryStored | src/eos-shard-shard-file.c:470-475 | a dictionary file added as an uncompressed blob is stored whole at the blob's place |
| ShardScenarios.LookUpThroughShard | src/eos-shard-shard-file.c:470-475 | looking up an added key whose lookup ends through the shard gives what the stand-alone file gives |
| ShardScenarios.LookUpAfterRun | src/eos-shard-shard-file.c:470-475 | after any run that adds a dictionary to every record of a name, finishing, opening, finding the record and the blob by name, and looking up any key whose lookup ends, an added key gives its value |
| ShardScenarios.BuildStoreAndLookUp | src/eos-shard-shard-file.c:470-475 | the same from the calls to the dictionary writer on, through a new shard with one record |
| ShardScenarios.StreamBlob | src/eos-shard-blob-stream.c:143-170 | streaming a blob in reads of any size delivers its packed bytes |
| BlobStream.BlobStream.Seek | src/eos-shard-blob-stream.c:81-124 | succeeds iff the target is inside the blob or at its end, also when the sum wraps; a failed seek moves nothing |
| BlobStream.BlobStream.Read | src/eos-shard-blob-stream.c:143-170 | delivers the contents from the position on, at most as many bytes as asked for, and moves past them |
| BlobStream.BlobStream.Run | src/eos-shard-blob-stream.c:81-170 | over every run of seeks and reads the stream answers like one in memory, and the position stays within the blob |
| BlobStream.BlobStream.ReadAll | src/eos-shard-blob-stream.c:143-170 | reading until nothing comes gives the whole packed blob |
| BlobStream.WrapOutside | src/eos-shard-blob-stream.c:95-119 | a 64-bit sum that wraps around is rejected exactly when the sum itself would be |
| BlobStream.ReadInside | src/eos-shard-blob-stream.c:156-160 | cutting the count to what is left reads the same bytes |
| AsyncInit.ShardFile.InitAsync | src/eos-shard-shard-file.c:173-206 | the first call starts the worker, calls before it is done wait, later ones are answered at once |
| AsyncInit.ShardFile.InitAsyncReady | src/eos-shard-shard-file.c:149-171 | every waiting call is answered with the worker's outcome, in the order of the list, further calls that callbacks make right behind, and nothing is left waiting |
| AsyncInit.ReplyPlace | src/eos-shard-shard-file.c:149-171 | waiting call i is answered behind the calls before it and what their callbacks called for |
| AsyncInit.CallbackPlace | src/eos-shard-shard-file.c:149-171 | right behind it come the replies to what its own callback called for |
| AsyncInit.FurtherPlaces | src/eos-shard-shard-file.c:149-171 | the further calls are those of the callbacks, in their order |
| AsyncInit.ShardFile.Run | src/eos-shard-shard-file.c:149-206 | over every interleaving: one worker at most, calls made are calls waiting plus calls answered, nothing waits once initialised |
| AsyncInit.NoSecondReply | src/eos-shard-shard-file.c:149-206 | no call is answered twice or answered while it waits |

## Left out

- The V1 shard format: its bytes are produced and parsed by GVariant, which is not part of this model; what remains is a simpler copy of V2's sort and bisection.
- GObject plumbing: properties, reference counts, boxed types, and records and blobs as handles.
- Failing and partial reads and writes: a read is short only at the end of the file, and a write always succeeds.
- Corrupt files: a dictionary opens in any file, as in the program, which checks the magic number only; lookups are described where a whole dictionary is behind it. The V2 reader's methods describe any file; its theorems are about finished ones.
- Opening files, temporary files, the detection of content types, and reading the file to be added: contents are an argument.
- The floating-point formulas for the filter's size and for the square root: the first are parameters, the second is the ceiling over the integers, with which the program's doubles agree for counts below 2^31.
- The character type is taken to be signed, as on the platforms eos-shard is built for; it enters the hash only.
- AddEntry: does not model the wrap-around of the 32-bit entry counter.
- ScanWindow: is the program's inner loop, made a method of its own; the outer loop is LookupKeyInBlock.
- LookupKeyInBlock: requires that the scan ends, as do LookupKeyOffset, LookupKey, BuildAndLookUp, LookUpThroughShard, LookUpAfterRun and BuildStoreAndLookUp, because a method here must end; ScanEndsExactly and EndlessLookup are about the other lookups. ReadCString takes the number of rounds it may make.
- LoadedContents: assumes that inflating undoes deflating for the blob at hand, and that the run has no checksum collision. The program reads a compressed blob with one call that may deliver fewer bytes than asked for; how many it does is a parameter, and the contents are given back up to there.
- ReadConcurrentRun: adding a record is not a step of the machine. It holds the same lock from start to end, and the list of records it changes is touched by no call that adds a blob. Adding a blob to a record, and finishing, take no lock in the program, and are not interleaved with calls that are still under way.
- ShardReader.NewForFd: record tables of 2^31 bytes and more, whose size the program keeps in an `int`, are read as if it were wider.
- StoreAndOpen: asks, like RoundTrip and LookUpAfterRun, for what is repeated to lie below 4 GiB (Castable). Run and AddBlob describe the other runs too, EverySchedule proves the condition exact for the state that is reached, and ThirdBlobWrong is a run without it.
- Handles: records and blobs are looked up in the file when asked for; their lifetime is not modelled.
- Seek: takes a blob of less than 2^63 bytes, and signed overflow in the sum of position and offset to wrap around.
- Sorting.Sorted: stands for the array library's sort, of which it has the specification (a stable rearrangement in ascending order), not the algorithm.
