# Verified models of the pCloud client core

Dafny models of the algorithmic parts of the pCloud console client's library, with the
properties they are there for. Each module follows one part of the C code: the same
branches, edge cases and constants, arrays and fields updated in place where the code
does so, and functions on values as their specifications.

- **Deflate tables** (`Bits`, `CanonicalCodes`, `InflateTables`, `RadixSort`, `MergeTree`,
  `MinimumCost`, `MergeCost`, `MinimumRedundancy`, `LimitedLengths`, `TableCost`, `EncoderTables`,
  `BitBuffer`, `HuffmanRoundTrip`, `CodeLengthRle`): Huffman lengths by in-place merging,
  shown to be least, their limiting, canonical codes (section 3.2.2 of RFC 1951), the
  decoder's lookup and overflow tree, its bit buffer, and whole messages through both sides.
- **Checksums and the ZIP index** (`Adler32`, `ZipIndex`).
- **Encryption** (`CryptoPrimitives`, `Cbc`, `SectorChain`, `SectorCipher`, `TextCipher`,
  `ByteBits`, `CtrCipher`): file sectors, file names and the counter mode. AES is any
  pair of inverse block functions for a key, SHA-512 any function to 64 bytes, and random
  blocks are inputs.
- **CRC32C and the streaming hash** (`Crc32c`, `Crc32cBuffers`, `FastHash`,
  `FastHashContext`, `FastHashAnswer`): the fast forms against a bitwise definition with the polynomial of
  section 12.1 of RFC 3720, without inversions.
- **Object cache** (`Cache`, `CacheSafety`, `CacheProgress`, `CacheAlone`): any number of
  threads that interleave between any two steps, with expiry timers, and what each
  operation comes to when it runs alone.
- **Binary results** (`Papi`, `PapiGrammar`, `PapiOverrun`, `PapiPasses`).
- **Transfer thread** (`AsyncFrames`, `AsyncDownloads`, `AsyncTrace`, `AsyncRun`,
  `AsyncThread`): what sockets, disk and decompressor answer are arbitrary lists; `AsyncRun`
  is the reference for a run, turn by turn.
- **Compression buffer** (`Compression`): the compressor's answers are an arbitrary list.

`LittleEndian` and `Wrappers` hold what several parts share. `dafny verify dfyconfig.toml`
covers all files.

## Where the code does less than one would expect

- The sizing pass looks for an end byte before it tests the length (papi.c, lines 196 and
  214): `PapiOverrun.OverrunExactly` gives the exact inputs, `LoneTagOverruns` the shortest.
- The assertion in the wrapping read (pcompression.c, line 244) can fail:
  `Compression.AbortHappens` reaches it, and the contract of `Deflate.Read` says when.
- A server error of 2^32 - 100 is reported as success (pasyncnet.c, lines 261 to 338):
  `AsyncDownloads.UnopenedSuccess` and the contract of `AsyncThread.Thread.Run`.
- Keys of more than 128 bytes are cut instead of hashed: `CryptoPrimitives.RfcExactly` shows
  that the code is that of section 2 of RFC 2104 for shorter keys and for no others.
- An extra buffer that a flush leaves empty makes the next read return the value that
  stands for the end of the stream: the contract of `Compression.Deflate.Read` says when,
  `EmptyFlush` when a flush leaves it so, and `EndHappens` gets there.
- A flush that ends the stream loses what does not fit the ring, and still succeeds
  (pcompression.c, lines 146 to 148): `Compression.LossHappens` reaches it, and the contract of
  `Compression.Deflate.Write` says when output is lost. No caller in the repository ends a
  stream that way.
- The longest code length the limiter can be given is 31: with 32 its 32-bit sum can never
  meet the 64-bit bound it is compared with (`LimitedLengths.LoopCanEnd`).

## Model

| member | source | states |
|---|---|---|
| InflateTables.HuffTable.Build | pCloudCC/lib/pclsync/miniz.h:1508-1532 | for every list of at most 288 code lengths of at most 15 bits, the table builder succeeds exactly when the code is complete or at most one symbol is used, and the lookup and overflow tree it leaves hold, for every prefix of every code word, the entry the canonical code demands; no index leaves the 1024 and 576 slots and no 32-bit total wraps |
| InflateTables.HuffTable.Decode | pCloudCC/lib/pclsync/miniz.h:1413-1426 | on built tables the ten-bit lookup and the tree walk return the one symbol whose canonical code starts the bit buffer, with its true length, and shift exactly that code out |
| InflateTables.NodeBound | pCloudCC/lib/pclsync/miniz.h:1528-1531 | at most 288 inner nodes are ever needed, so the overflow tree never grows past its 576 entries |
| InflateTables.ExactlyOneMatch | pCloudCC/lib/pclsync/miniz.h:1513-1518 | a fact about complete canonical codes alone: every bit buffer starts with the code word of exactly one symbol |
| CanonicalCodes.PrefixFree | pCloudCC/lib/pclsync/miniz.h:1513-1514 | canonical code words of a code that is not oversubscribed are prefix-free |
| CanonicalCodes.SomeCodeWord | pCloudCC/lib/pclsync/miniz.h:1513-1518 | a complete code covers all 15-bit strings |
| CanonicalCodes.CanonicalPlace | pCloudCC/lib/pclsync/miniz.h:1513-1514 | the rule of section 3.2.2 of RFC 1951 without its algorithm: the codes stand side by side in the tree, shorter ones first and those of one length in the order of their symbols, each beginning where those before it end |
| BitBuffer.BitReader.Decode | pCloudCC/lib/pclsync/miniz.h:1413-1426 | over the byte stream: the symbol is the one whose code starts the unused bits, the unused bits lose exactly that code, and with fewer than two bytes left in the current piece of input no byte is fetched that the code does not need |
| BitBuffer.BitReader.Fill | pCloudCC/lib/pclsync/miniz.h:1394-1409 | the careful refill stops exactly when the next code is all in the buffer: it never fetches a byte after that, as its comment promises, and never stops before |
| BitBuffer.BitReader.Ready | pCloudCC/lib/pclsync/miniz.h:1394-1406 | its test is exact: true if and only if the next code of the stream lies within the bits fetched, although the bits above them read as zero |
| BitBuffer.FetchedMatch | pCloudCC/lib/pclsync/miniz.h:1389-1406 | a buffer padded with zeros starts with a code that fits the fetched bits exactly when the real stream does, and then with the same one |
| BitBuffer.BitWriter.PutBits | pCloudCC/lib/pclsync/miniz.h:1906-1915 | the number written so far keeps its bits and gets the new ones above them, across any number of whole bytes put out |
| BitBuffer.BitWriter.Flush | pCloudCC/lib/pclsync/miniz.h:2198-2219 | padding with fewer than eight zero bits leaves bytes that spell the number written, no more of them than its bits need |
| HuffmanRoundTrip.PutCodes | pCloudCC/lib/pclsync/miniz.h:1906-1915 | the bytes of a message are the concatenated code words, low bit first, and no more bytes than these bits need |
| HuffmanRoundTrip.TakeSymbols | pCloudCC/lib/pclsync/miniz.h:1413-1426 | decoding a stream that starts with the codes of a message gives the message, leaves what follows it and uses exactly the bits of its codes, however the input is cut into pieces |
| HuffmanRoundTrip.RoundTrip | pCloudCC/lib/pclsync/miniz.h:1871-1915 | from any frequencies below 65536 in total: the decoder accepts the lengths the encoder makes, and every message over the used symbols comes back from the bytes written, which are as few as the bits of its codes need |
| MinimumRedundancy.CalculateMinimumRedundancy | pCloudCC/lib/pclsync/miniz.h:1836-1854 | in place, for sorted non-zero frequencies below 65536 in total: non-increasing lengths of at most 22 bits with Kraft sum exactly 1, and no lengths any prefix code can have make the coded data shorter; a longest length L needs a total of at least the Fibonacci number F(L+2) |
| MergeTree.DepthBound | pCloudCC/lib/pclsync/miniz.h:1836-1854 | no 16-bit weight allows a merge tree deeper than 21, so no length exceeds 22 |
| MinimumCost.ReducesStep | pCloudCC/lib/pclsync/miniz.h:1841-1846 | merging the two least weights loses nothing: the cost of a best code drops by exactly their sum |
| RadixSort.RadixSortSyms | pCloudCC/lib/pclsync/miniz.h:1819-1833 | the result is a permutation sorted by the 16-bit key, also when the second pass is skipped |
| LimitedLengths.EnforceMaxCodeSize | pCloudCC/lib/pclsync/miniz.h:1858-1869 | the loop ends, no count goes negative, no code is longer than the limit, the number of codes stays and the Kraft sum is exactly 1 again, with no 32-bit sum wrapping; nothing changes if no code was over the limit, and lists of at most one code are left alone for every limit |
| LimitedLengths.LoopCanEnd | pCloudCC/lib/pclsync/miniz.h:1860-1868 | the 32-bit sum can meet the bound at which the loop ends exactly for limits below 32 |
| EncoderTables.HuffCoder.OptimizeTable | pCloudCC/lib/pclsync/miniz.h:1871-1904 | exactly the used symbols get codes, none longer than the limit, more frequent ones never longer, complete as soon as two are used, and every code is the canonical one with its bits reversed; while the frequencies stay below F(limit+3) in total, 2584 for a limit of 15, no prefix code for the table makes the message shorter |
| EncoderTables.LeastTable | pCloudCC/lib/pclsync/miniz.h:1885-1894 | lengths that are least for the sorted list stay least when they are handed out to the symbols |
| TableCost.SameLists | pCloudCC/lib/pclsync/miniz.h:1892-1893 | two falling lists of lengths with the same number of codes of every length are the same, so handing out counts gives each symbol its own length back |
| EncoderTables.HuffCoder.StaticTable | pCloudCC/lib/pclsync/miniz.h:1874-1877 | given lengths get their canonical codes |
| CodeLengthRle.Pack | pCloudCC/lib/pclsync/miniz.h:1951-1977 | the packed form is that of the runs: zeros in chunks of 138 and then one of 11 to 137 or 3 to 10, another length once and its repeats in chunks of six and then one of three to five, and literals for fewer than three; expanding it by the inflater's rules gives back every input, it is never longer, and the symbol counts are its own |
| CodeLengthRle.UnpackConcat | pCloudCC/lib/pclsync/miniz.h:1535-1544 | the inflater's expansion of a concatenation continues from the expansion of the first part |
| Adler32.Compute | pCloudCC/lib/pclsync/miniz.h:977-990 | the blocked loop with its unrolled middle computes the per-byte modular checksum of sections 8.2 and 9 of RFC 1950, for every start value and length, without 32-bit overflow |
| Adler32.BlockFits | pCloudCC/lib/pclsync/miniz.h:979-988 | from reduced sums a block of 5552 bytes never overflows 32 bits |
| Adler32.ChecksumConcat | pCloudCC/lib/pclsync/miniz.h:977-990 | the checksum of a concatenation is that of the second part continued from the first |
| Adler32.ClosedForm | pCloudCC/lib/pclsync/miniz.h:977-990 | the two sums in closed form, reduced once by 65521: the bytes, and each byte as often as there are bytes from it on |
| ZipIndex.Directory.Sort | pCloudCC/lib/pclsync/miniz.h:3127-3166 | the heap sort permutes the entry numbers into the order of the lower-cased names |
| ZipIndex.FilenameLess | pCloudCC/lib/pclsync/miniz.h:3107-3122 | decides the strict lexicographic order of the lower-cased names |
| ZipIndex.FilenameCompare | pCloudCC/lib/pclsync/miniz.h:3460-3474 | its sign is the order of the lower-cased names, zero exactly for equal ones |
| ZipIndex.BinarySearch | pCloudCC/lib/pclsync/miniz.h:3476-3496 | finds an entry with an equal name exactly when there is one |
| ZipIndex.LocateFile | pCloudCC/lib/pclsync/miniz.h:3498-3536 | over both paths, for every combination of flags: an entry meeting the flags exactly when one exists, and by a scan the first one |
| ZipIndex.OpenAndLocate | pCloudCC/lib/pclsync/miniz.h:3228-3264 | from a directory just read, with its index sorted or left out: locating finds a wanted entry exactly when there is one |
| ZipIndex.LessTotal | pCloudCC/lib/pclsync/miniz.h:3107-3122 | any two different names are ordered one way or the other |
| ZipIndex.LessExactly | pCloudCC/lib/pclsync/miniz.h:3107-3122 | a name precedes another exactly when it ends, or has a lower byte, where they first differ |
| ZipIndex.LowerExactly | pCloudCC/lib/pclsync/miniz.h:3107-3122 | names are the same ignoring case exactly when they differ only in the case of the letters A to Z, which are the bytes replaced |
| ZipIndex.BaseNameExactly | pCloudCC/lib/pclsync/miniz.h:3521-3531 | without its path a name is what stands behind the last slash, backslash or colon, and nothing else is |
| SectorCipher.SectorRoundTrip | pCloudCC/lib/pclsync/pcrypto.c:447-590 | decoding an encoded sector returns the data and status 0, for every length, key, sector number and random block |
| SectorCipher.AcceptedIsEncoded | pCloudCC/lib/pclsync/pcrypto.c:447-590 | status 0 holds exactly for the pairs of data and authenticator the encoder can produce under that key and sector number |
| SectorCipher.NumberCounts | pCloudCC/lib/pclsync/pcrypto.c:447-590 | a sector written under one number is accepted under another, whatever the hash, if and only if they are the same number |
| SectorCipher.TagCovers | pCloudCC/lib/pclsync/pcrypto.c:457-461 | two tags agree under every hash exactly when data, sector number and random block all agree |
| SectorCipher.SectorFormat | pCloudCC/lib/pclsync/pcrypto.c:447-516 | the bytes of an encoded sector from the standards alone: where tag and random block stand, what the tag of RFC 2104 is taken over and in what order, and that it starts the CBC or CBC-CS2 chain |
| SectorCipher.EncodeSectorBuffers | pCloudCC/lib/pclsync/pcrypto.c:447-516 | the loops over buffers, with stealing and the path below 16 bytes, compute that encoding, whose bytes SectorFormat gives, and write nothing else |
| SectorCipher.DecodeSectorBuffers | pCloudCC/lib/pclsync/pcrypto.c:518-590 | the decoder's four-block and single-block loops refine the decoding, also in place; by AcceptedIsEncoded and NumberCounts status 0 depends on the sector number too |
| SectorChain.ChainIsCs2 | pCloudCC/lib/pclsync/pcrypto.c:471-515 | the chain with its stolen tail is ciphertext stealing CBC-CS2 of the Addendum to NIST SP 800-38A |
| SectorChain.ChainRoundTrip | pCloudCC/lib/pclsync/pcrypto.c:471-590 | the chain with stealing decodes to the data for every length of at least one block |
| SectorChain.ChainOnto | pCloudCC/lib/pclsync/pcrypto.c:471-590 | and every ciphertext of such a length is the encoding of what it decodes to |
| Cbc.CbcBlock | pCloudCC/lib/pclsync/pcrypto.c:484-506 | every block of the chain is the encryption of its data combined with the block before it |
| CryptoPrimitives.MemcmpConst | pCloudCC/lib/pclsync/pcrypto.c:438-445 | zero exactly for equal contents, otherwise one |
| CryptoPrimitives.HmacContext.Init | pCloudCC/lib/pclsync/pcrypto.c:40-56 | the two padded key blocks, a long key being cut to one block |
| CryptoPrimitives.HmacContext.Final | pCloudCC/lib/pclsync/pcrypto.c:62-66 | the streamed result is the one-shot one of the absorbed message |
| CryptoPrimitives.HmacKeyIsCut | pCloudCC/lib/pclsync/pcrypto.c:68-91 | keys that agree on their first 128 bytes give the same code |
| CryptoPrimitives.RfcExactly | pCloudCC/lib/pclsync/pcrypto.c:40-91 | for every key and message: the code is that of section 2 of RFC 2104, whatever the hash, if and only if the key has at most 128 bytes |
| CryptoPrimitives.RfcIsHmac | pCloudCC/lib/pclsync/pcrypto.c:40-91 | the code of the standard is this one under the key, or under its hash if it is longer than a block |
| CryptoPrimitives.HmacTells | pCloudCC/lib/pclsync/pcrypto.c:40-91 | two messages have the same code, or the same first bytes of it, under every hash if and only if they are the same message |
| TextCipher.RoundTripExactly | pCloudCC/lib/pclsync/pcrypto.c:247-356 | a non-empty name comes back as a C string if and only if it holds no NUL |
| TextCipher.TextRoundTrip | pCloudCC/lib/pclsync/pcrypto.c:247-356 | and then the decoder's buffer is the padded name and its terminator, also for whole multiples of 16 and for several blocks masked by the keyed hash of the rest |
| TextCipher.DecodedInjective | pCloudCC/lib/pclsync/pcrypto.c:282-356 | no two ciphertexts decode to the same text |
| TextCipher.AcceptedExactly | pCloudCC/lib/pclsync/pcrypto.c:282-356 | what the decoder accepts and gives back: for one block a string and zeros, otherwise any first block, a string and any number of zeros, and exactly the chains over those |
| TextCipher.TextFormat | pCloudCC/lib/pclsync/pcrypto.c:247-280 | an encoded name is CBC over the name and zeros up to a multiple of 16, started from the key's bytes or the keyed hash of all behind the first block |
| TextCipher.EncodeText | pCloudCC/lib/pclsync/pcrypto.c:247-280 | the block loop computes that encoding |
| TextCipher.DecodeText | pCloudCC/lib/pclsync/pcrypto.c:282-356 | the block loops and padding tests compute that decoding, with null exactly for refused input |
| TextCipher.CopyPad | pCloudCC/lib/pclsync/pcrypto.c:233-245 | copies what is left of the text and fills the block with zeros |
| TextCipher.RoomFits | pCloudCC/lib/pclsync/pcrypto.c:247-280 | the encoder puts out as many bytes as it has made room for exactly when the text is not empty |
| CtrCipher.CtrInPlace | pCloudCC/lib/pclsync/pcrypto.c:167-212 | in place, at any offset: every byte is combined with byte p mod 16 of the encryption of a block that is the initial one in its last eight bytes and, combined with it, spells p / 16 modulo 2^64 with the low byte first in its first eight, p being the position in the file; nothing beside the range changes |
| CtrCipher.HeadFits | pCloudCC/lib/pclsync/pcrypto.c:175-184 | the step before the first whole block stays inside the range exactly when the range starts on a block boundary or reaches one |
| CtrCipher.CtrConcat | pCloudCC/lib/pclsync/pcrypto.c:167-212 | adjacent ranges can be done separately |
| CtrCipher.CtrInvolution | pCloudCC/lib/pclsync/pcrypto.c:167-212 | done twice at the same offset it is the identity |
| CtrCipher.CtrRandomAccess | pCloudCC/lib/pclsync/pcrypto.c:167-212 | any part of an encoded file, decoded at its own offset, is that part of the data |
| CtrCipher.StreamBlocksDiffer | pCloudCC/lib/pclsync/pcrypto.c:125-133 | different 64-bit counters give different key stream blocks |
| Crc32cBuffers.Crc32cSw | pCloudCC/lib/pclsync/pcrc32c.c:361-400 | slicing by eight equals the bytewise CRC for every buffer, alignment and start value |
| Crc32cBuffers.Crc32cHw | pCloudCC/lib/pclsync/pcrc32c.c:598-646 | the version with three parallel lanes equals it too |
| Crc32c.ShiftChunkIsShift | pCloudCC/lib/pclsync/pcrc32c.c:582-587 | with tables that hold each byte shifted by a chunk of zero bytes, the four accesses shift a whole CRC by that chunk |
| Crc32c.Step64IsCrc | pCloudCC/lib/pclsync/pcrc32c.c:328-338 | eight table accesses are eight bytewise steps |
| Crc32c.TableIsShift | pCloudCC/lib/pclsync/pcrc32c.c:328-354 | the slicing tables of the model, defined by a recurrence: entry i of table k is byte i shifted by k + 1 bytes |
| Crc32c.CrcLinear | pCloudCC/lib/pclsync/pcrc32c.c:328-400 | the CRC is linear in its start value |
| Crc32c.CrcLanes | pCloudCC/lib/pclsync/pcrc32c.c:598-646 | a lane computed from zero is joined by shifting what came before |
| Crc32c.CrcConcat | pCloudCC/lib/pclsync/pcrc32c.c:361-400 | CRCs chain over concatenation |
| Crc32c.CheckValue | pCloudCC/lib/pclsync/pcrc32c.c:361-400 | with both inversions the text 123456789 gives the published check value of CRC-32C, 0xe3069283 |
| FastHashContext.HashInPieces | pCloudCC/lib/pclsync/pcrc32c.c:819-908 | however a message is split into updates, on hardware or software, the digest is the same |
| FastHashContext.FastHash256.Update | pCloudCC/lib/pclsync/pcrc32c.c:819-832 | after every update the context stands for the whole message so far, and the count kept in byte 63 never collides with buffered data |
| FastHashContext.FastHash256.Final | pCloudCC/lib/pclsync/pcrc32c.c:884-908 | the digest is a function of the start state and the message alone |
| FastHashContext.FastHash256.InitSeed | pCloudCC/lib/pclsync/pcrc32c.c:686-693 | the seeded start state |
| FastHashAnswer.TextDigest | pCloudCC/lib/pclsync/pcrc32c.c:676-908 | the digest of the text 12345678 in numbers: constants, rotations and the order of the words in the round, the length and the final mixing |
| FastHash.CrcBoth | pCloudCC/lib/pclsync/pcrc32c.c:794-817 | the software and the instruction step agree on all 64-bit words |
| Cache.LockOfBucket | pCloudCC/lib/pclsync/pcache.c:40-41 | hashes of one bucket use one lock although the product wraps, the one the clean loops compute from the bucket number |
| CacheSafety.StepKeeps | pCloudCC/lib/pclsync/pcache.c:97-264 | every step of every thread keeps the invariant of elements, lists, timers and locks |
| CacheSafety.NoFault | pCloudCC/lib/pclsync/pcache.c:97-264 | in no run is anything used or freed after it was freed, taken out of a list it is not in, or unlocked without being held |
| CacheSafety.ExactlyOnePlace | pCloudCC/lib/pclsync/pcache.c:97-264 | in every reachable state each value ever added is in exactly one place: its list, one thread's hands, returned once or freed once |
| CacheSafety.GetReturnsItsKey | pCloudCC/lib/pclsync/pcache.c:97-123 | what get returns was added under the key asked for |
| CacheSafety.LimitHolds | pCloudCC/lib/pclsync/pcache.c:153-184 | when an accepted add with a limit gives up its lock, at most that many entries have its key |
| CacheSafety.RefusedAtLimit | pCloudCC/lib/pclsync/pcache.c:153-184 | an add gives up only if its limit is not zero and its bucket already has that many entries for the key |
| CacheSafety.GoneForAReason | pCloudCC/lib/pclsync/pcache.c:97-264 | every value that is gone went to a get of its key, or was freed by its own add with a limit, a del of its key, a clean that selects its key, or its own timer |
| CacheSafety.ScanComplete | pCloudCC/lib/pclsync/pcache.c:97-264 | what get, del and clean leave behind was already expiring |
| CacheSafety.NothingLost | pCloudCC/lib/pclsync/pcache.c:97-264 | at rest every value is cached under an armed timer or was returned or freed exactly once |
| CacheAlone.GetAlone | pCloudCC/lib/pclsync/pcache.c:97-123 | with no other thread at work, from every state at rest, a get returns the first entry of its bucket with the key and takes nothing else out, or changes nothing |
| CacheAlone.AddAlone | pCloudCC/lib/pclsync/pcache.c:153-184 | an add puts its value in front of its bucket under an armed timer exactly unless the bucket has as many entries for the key as a limit allows, and frees it then |
| CacheAlone.DelAlone | pCloudCC/lib/pclsync/pcache.c:191-215 | a del frees every entry with its key, starting again after each, and keeps the rest in order |
| CacheAlone.CleanAlone | pCloudCC/lib/pclsync/pcache.c:217-264 | a clean frees every entry it selects in all 2048 buckets, and nothing else |
| CacheAlone.FireAlone | pCloudCC/lib/pclsync/pcache.c:143-151 | an expired entry leaves its list and is freed |
| CacheAlone.QuietReached | pCloudCC/lib/pclsync/pcache.c:97-264 | every reachable state without work in progress is such a state at rest |
| CacheProgress.NoDeadlock | pCloudCC/lib/pclsync/pcache.c:97-264 | in every reachable state a thread that waits can take its lock, or another thread has it and comes nearer to its release with its next step |
| CacheProgress.LockReleased | pCloudCC/lib/pclsync/pcache.c:97-264 | however the threads interleave, a lock is free again by the time its holder has had as many turns as its scan has work left |
| Papi.PassesAgree | pCloudCC/lib/pclsync/papi.c:139-361 | where the sizing pass accepts, the building pass is defined, stops at the same place, fills exactly the counted string slots, refers only to strings it has built, and takes the computed size less 16 bytes for each pair left out |
| Papi.OutputFits | pCloudCC/lib/pclsync/papi.c:363-381 | the output fits its block, and fills it exactly when no pair is left out |
| Papi.SizesOfOne | pCloudCC/lib/pclsync/papi.c:139-239 | 16 bytes for a number with bytes of its own, none for one in its tag, and for a string 8 and the string with its terminator in units of 8 |
| PapiGrammar.RoundTrip | pCloudCC/lib/pclsync/papi.c:139-381 | for every document and every choice of encodings the result is what the document means and exactly its bytes are used; only pairs whose key is not a string are dropped |
| PapiGrammar.AcceptedIsEncoded | pCloudCC/lib/pclsync/papi.c:139-239 | the sizing pass accepts exactly the inputs that start with a legal encoding |
| PapiGrammar.WireFormat | pCloudCC/lib/pclsync/papi.c:36-62 | the bytes of every encoding of a string, a reference, a number, a truth value and eight bytes of data, in numbers and low byte first |
| PapiGrammar.WireNesting | pCloudCC/lib/pclsync/papi.c:36-62 | an array is 17, the encodings of its items and 255; a hash is 16, those of its keys and values in turn and 255 |
| PapiOverrun.OverrunExactly | pCloudCC/lib/pclsync/papi.c:196-219 | a byte behind the input is looked at if and only if the input breaks off right behind the opening tag of an array or a hash, at any depth |
| PapiOverrun.LastByteTells | pCloudCC/lib/pclsync/papi.c:196-219 | such input ends in byte 16 or 17 |
| PapiOverrun.TagInsideString | pCloudCC/lib/pclsync/papi.c:196-219 | that test is not exact: a legal string can end in such a byte |
| PapiOverrun.LoneTagOverruns | pCloudCC/lib/pclsync/papi.c:196-219 | the shortest inputs that overrun |
| PapiPasses.Sizer.CalcRetLen | pCloudCC/lib/pclsync/papi.c:139-239 | the pass over the moving position computes the size, or -1 |
| PapiPasses.Builder.DoParseResult | pCloudCC/lib/pclsync/papi.c:241-361 | the pass over the string array and the output position builds the value |
| PapiPasses.ParseResult | pCloudCC/lib/pclsync/papi.c:363-381 | on input that does not break off, the value the bytes spell, or nothing |
| AsyncFrames.Reader.Read | pCloudCC/lib/pclsync/pasyncnet.c:494-511 | each piece read completes at most one frame, the frames are those of all bytes so far, and the 64 KiB buffer is never overrun |
| AsyncFrames.FramesAppend | pCloudCC/lib/pclsync/pasyncnet.c:559-598 | the frames of a stream do not depend on where it is cut |
| AsyncFrames.FramesOfSent | pCloudCC/lib/pclsync/pasyncnet.c:559-598 | the frames found are those that were sent, whose bytes are the stream number in four and one less than the length in two, low byte first, and the data |
| AsyncDownloads.Downloads.ProcessHeaders | pCloudCC/lib/pclsync/pasyncnet.c:323-383 | every outcome of a first packet, as HeaderStep of the stream and what the disk answers: too short, a server error, a file that does not open, an empty file, or a file that begins |
| AsyncDownloads.Downloads.ProcessData | pCloudCC/lib/pclsync/pasyncnet.c:289-321 | every outcome of a packet of file data, as DataStep of the stream and what the disk answers |
| AsyncDownloads.HeaderCodes | pCloudCC/lib/pclsync/pasyncnet.c:323-383 | what the callback is told about a first packet: a server error plus 100, 2 for a file that does not open, 0 for an empty file |
| AsyncDownloads.DataCodes | pCloudCC/lib/pclsync/pasyncnet.c:289-321 | and about file data: 1 for too much of it, 3 for a full disk, 4 for another write error, 5 for a wrong checksum and 0 for the right one, the file being kept only then |
| AsyncDownloads.ResponseLayout | pCloudCC/lib/pclsync/pasyncnet.c:323-338 | where error code, size, checksum and data stand in the 88-byte answer and behind it |
| AsyncDownloads.Downloads.Dispatch | pCloudCC/lib/pclsync/pasyncnet.c:565-587 | a frame changes its own stream as its step says, and nothing if that is unknown; it ends the thread exactly if it is refused |
| AsyncDownloads.RefusedExactly | pCloudCC/lib/pclsync/pasyncnet.c:289-383 | a frame is refused exactly if it is a first packet below 88 bytes, or carries file data beyond the announced size, behind the header or later |
| AsyncDownloads.Downloads.HandleFileDownload | pCloudCC/lib/pclsync/pasyncnet.c:385-407 | a stream is made first and activated only once its request is out |
| AsyncDownloads.Downloads.FreeAll | pCloudCC/lib/pclsync/pasyncnet.c:543-555 | at the end every open stream is reported as failed if it was active, and its file deleted |
| AsyncDownloads.UnopenedSuccess | pCloudCC/lib/pclsync/pasyncnet.c:323-338 | success is reported without a file ever being opened exactly when the server's error code is 2^32 - 100, which the added 100 wraps to zero |
| AsyncDownloads.UnopenedSuccessBytes | pCloudCC/lib/pclsync/pasyncnet.c:323-338 | so it is for every first packet that begins with 0x9c 0xff 0xff 0xff |
| AsyncThread.Thread.HandleDecompressed | pCloudCC/lib/pclsync/pasyncnet.c:494-511 | pieces of any size are dispatched in order, up to the first refused frame and no less; -1 exactly if there is one |
| AsyncThread.Thread.HandleTurn | pCloudCC/lib/pclsync/pasyncnet.c:600-647 | a turn of the loop does what NextTurn says and is the last exactly in the cases of Ends: requests that cannot be sent off, no data while none is waiting, broken data or a refused frame, and commands to exit, unreadable, unanswered or not sent |
| AsyncRun.WholeDownload | pCloudCC/lib/pclsync/pasyncnet.c:600-647 | a file of any size that fits a frame, asked for, answered correctly and written without error is kept with just its bytes, its callback called once with success, and the thread goes on |
| AsyncTrace.FrameTraced | pCloudCC/lib/pclsync/pasyncnet.c:289-383 | dispatching a frame keeps, for every stream ever made, that its answer and the bytes in its file are those that came for it since it was made |
| AsyncThread.Thread.Run | pCloudCC/lib/pclsync/pasyncnet.c:600-647 | over every run: the thread ends at the first turn that is an end and at no other; there is a record for each download asked for, its callback has been called exactly once if the request was accepted and never otherwise; a file the thread opened is left only on success, with the announced size and, unless it is empty, checksum, success being genuine for every error code but one; its bytes are those of a stretch of its stream's frames since it was asked for, behind the 88-byte header; and the frames dispatched are those of the bytes received |
| Compression.Deflate.Write | pCloudCC/lib/pclsync/pcompression.c:171-195 | exactly when it accepts data, and how much: all that the calls made want of what there is; what the compressor puts out waits behind what was waiting, from its one or two calls into the ring and, if a flush has filled that, from the further ones into an extra buffer; output is lost exactly if those end the stream or fail with some put out; the flags for more data and for the end of the stream tell what the compressor did |
| Compression.Deflate.Read | pCloudCC/lib/pclsync/pcompression.c:197-257 | what is read is the next output of the compressor, across the wrap, the extra buffer and the direct path, which hands out what the compressor gives and says that there are no data exactly if it gives none; 0 stands for the end of the stream exactly if nothing waits, nothing more is expected and the stream has ended, or the extra buffer is empty; the assertion in line 244 fails exactly for reads that cross the end of the ring and leave some of it |
| Compression.AbortHappens | pCloudCC/lib/pclsync/pcompression.c:240-246 | a run of writes and reads from a new buffer that makes the assertion fail |
| Compression.Deflate.FinishFlush | pCloudCC/lib/pclsync/pcompression.c:132-169 | the extra buffer is all that repeated calls put out until one leaves room, and there is none if the first call is stuck or the last ends the stream or fails, with that output lost |
| Compression.RoomDoubles | pCloudCC/lib/pclsync/pcompression.c:136-167 | the rooms of its calls: 4096 bytes, 4096 and 8192, as the buffer doubles |
| Compression.LossHappens | pCloudCC/lib/pclsync/pcompression.c:143-148 | a run in which a flush that ends the stream succeeds, 4096 of 4196 bytes put out are read, and then the end of the stream |
| Compression.EmptyFlush | pCloudCC/lib/pclsync/pcompression.c:143-162 | it is left empty exactly when its first call makes progress without output and without ending the stream |
| Compression.EndHappens | pCloudCC/lib/pclsync/pcompression.c:197-211 | a run of writes and reads from a new buffer in which the value for the end of the stream is returned without the stream having ended |
| Compression.SpanGrows | pCloudCC/lib/pclsync/pcompression.c:87-100 | output written behind the contents of the ring adds to them |

## Left out

- CtrCipher.CtrInPlace: requires that a range starting inside a block reaches that block's end, since the code always processes the rest of the first block; CtrCipher.HeadFits says when it may.
- LimitedLengths.EnforceMaxCodeSize: says nothing about two or more codes under a limit of 32, for which the loop does not end; callers pass 7 and 15.
- TextCipher.EncodeText: requires a text, since for an empty one the encoder puts out more than it has made room for.
- InflateTables.HuffTable.Decode: says nothing about bits that start no code, which only an incomplete code allows.
- CodeLengthRle.Pack: works on the list of lengths; the block header around it is not modelled.
- `get_result_async` and `do_prepare_command`: the asynchronous reader of result lengths and the writer of requests.
- Deflate matching, block headers, the copy loops of the inflater, PNG and ZIP writing.
- Crc32c.TableIsShift: compares no literal of the source's slicing tables; the model defines the tables by their recurrence.
- Crc32c.ShiftChunkIsShift: compares no literal of the source's chunk tables; the model defines them as shifts by a chunk.
- AES, SHA-512, SHA-1, zlib, the balanced trees and the timer thread beyond starting, dispatching and stopping a timer: parameters or environment.
- Cache callbacks that call the cache again while a clean loop holds its recursive lock; the hash seed and the hash function, which is any function.
- Downloads that depend on a local checksum and their answers; SQL writes made when a download's headers arrive; how requests are buffered and written to the socket beyond whether that works.
- The wrap of stream numbers after 2^32 - 1 downloads in one run.
- Which flush mode each call hands to zlib, whose answers are arbitrary; `psync_deflate_pending`.
- Buffers that overlap in part; only the aliasing the sector decoder's comment allows is covered.
- Copy loops that exist twice, for aligned and unaligned addresses, are modelled once, except in the CRC, where alignment decides the split.
- Memory layout of parsed results: addresses are modelled as the values they point to, with sizes kept.
- Allocation failures, logging, and the order in which two equal names appear in the ZIP index.
