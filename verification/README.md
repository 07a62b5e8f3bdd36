# Verified models of the compression library, the record store and the indexes

The repository carries, next to its services, a vendored compression library (zlib 1.1.4 under
`deps/include/zlib`) and a set of C++ headers (`deps/include/util`) with a log-structured key/value
store, persistent indexes, a domain index, a scatter/gather message centre, a membership index and
checksums.  This project models the parts of both that have state, branching or arithmetic, and proves
what they are for.

- **Decoding.**  `Canonical` defines the prefix code of section 3.2.2 of RFC 1951 and `InflateSpec` the
  decoding process, one step at a time, on numbers and sequences.  The resumable machines (`HuftBuild`,
  `InflateFast`, `InflateCodes`, `InflateBlocks`, `InflateWindow`, `Inflate`) are classes and methods
  over arrays like the originals, and every one of them is shown to follow that one run: what has been
  produced, where the input stands and which verdict is given are those of the run, wherever a call
  stopped for lack of input or of room.  `InflateTheorems` and `InflateCalls` draw the conclusions.
- **The format.**  `Format` says what a writer produces, from the rules of RFC 1951 and without the decoder:
  bits, blocks, codes, lengths and distances.  `FormatCodes` has the laws of its codes and tables;
  `FormatDecodes` shows that the decoder's run reads back whatever is written, `FormatExact` that it takes
  nothing else, and `FormatStreams` draws the conclusions for whole streams.
- **Encoding.**  `DeflateHash`, `DeflateDict` and `DeflateState` model the rolling hash, the chains, the
  sliding window and the search for matches; `DeflateStored`, `DeflateFast` and `DeflateSlow` the three
  compressors; `DeflateLevels` uses them, and `DeflateCalls` is deflate() over many calls.
  `RoundTrip` writes down what they hand over and gives it to the decoder.
- **Storage.**  `StoreGc` is the store as interleaved steps of clients, queries and the collector, which
  `StoreProgress` brings to their ends;
  `DiskQuota`, `QuotaRuns` and `StoreRecords` its files; `IndexTable`, `IndexFiles`, `IndexLog` and
  `IndexRuns` the index with the bytes of its log and its snapshots; `PersistentStorage`, `RecordLog` and
  `StorageRuns` the record log; `RwLock` the lock.  A crash is a stop after any file operation.
- **Indexes, messages, checksums.**  `DomainTree`, `DomainPages`, `DomainIndex`, `SuperSearch`,
  `CenterMessage`, `Adler32`, `Crc32`, `Md5`.

## Model

| member | source | states |
|---|---|---|
| HuftBuild.HuftBuild | deps/include/zlib/inftrees.c:106-290 | a data error exactly if the Kraft sum exceeds 1 or the tables of the code, whose number and sizes its lengths determine, need more entries than are left; else a buffer error exactly if the sum is below 1 with a code longer than one bit; no lookup bits exactly for all-zero lengths; the entries used are the ones needed; in stale space the tables decode the canonical code exactly if there is no wide gap; entries made before stay |
| HuftBuild.SoundExactly | deps/include/zlib/inftrees.c:174-285 | without a wide gap finished tables decode the canonical code whatever their space held; with one they do not if it held stale entries |
| HuftBuild.StaleIsWrong | deps/include/zlib/inftrees.c:174-285 | tables in which some stream is decoded by an entry never written do not decode the code |
| InfTrees.TablesDecode | deps/include/zlib/inftrees.c:193-285 | walking finished tables finds, for every stream, the symbol whose canonical code the stream starts with, with its length, or the invalid entry if there is none |
| InfTrees.OneSymbol | deps/include/zlib/inftrees.c:174-285 | a symbol is reached by its own code only |
| InfTrees.FewSymbolsNoGap | deps/include/zlib/inftrees.c:209-228 | a complete code of fewer than 2^(bits+1) symbols has no wide gap |
| InflateTrees.AcceptedHasNoGap | deps/include/zlib/inftrees.c:131-172 | lengths that inflate accepts, fewer than 2^(m+1) of them, have no wide gap for tables of m bits |
| InflateTrees.AcceptedIsShort | deps/include/zlib/inftrees.c:149-164 | such lengths have a code of at most m bits, so the table is not wider than asked for |
| InflateTrees.AcceptedSpace | deps/include/zlib/inftrees.c:231-240 | the tables of an accepted code of n symbols need n + 768 entries at most with 9 bits, n + 352 with 6 |
| WideGap.TablesAreWrong | deps/include/zlib/inftrees.c:174-285 | tables made for lengths 1, 2, 3, 4, 5, 6, 15 with 6 bits in stale space do not decode their code |
| WideGap.BuildThem | deps/include/zlib/inftrees.c:174-285 | huft_build makes such tables for these lengths, and reports only an incomplete code |
| HuftSize.LevelBound | deps/include/zlib/inftrees.c:209-240 | the tables after w bits with at most j more take one entry for each code of w + 1 to w + j bits and fewer than 2^(j+2) beyond that |
| HuftSize.ThreeLevels | deps/include/zlib/inftrees.c:209-240 | so all tables of a complete code take 2^l entries, one for each code, and a remainder that depends on the longest length only |
| HuftSpace.OneShape | deps/include/zlib/inftrees.c:209-240 | tables of one code for the same prefix are equally large, whenever they are made |
| HuftSpace.AtMost | deps/include/zlib/inftrees.c:231-240 | tables made so far take no more entries than all tables of the code |
| HuftSpace.Exactly | deps/include/zlib/inftrees.c:174-285 | when all codes are entered every table of the code is there: the entries used are those of all tables together |
| InflateTrees.Suits | deps/include/zlib/inftrees.c:231-240 | so such tables have no more bits than asked for, no wide gap, and room if that many entries are free |
| InflateTrees.InflateTreesBits | deps/include/zlib/inftrees.c:293-317 | success exactly for lengths that are not all zero and acceptable; then one flat table decodes the code |
| InflateTrees.InflateTreesDynamic | deps/include/zlib/inftrees.c:320-381 | success exactly if both codes are acceptable together: MANY entries are always enough for 288 and 30 of them; then both tables decode, the second being absent exactly if there is no distance code |
| InflateFixed.FixedKraft | deps/include/zlib/inftrees.c:424-440 | the fixed literal/length code is complete and the fixed distance code leaves two codes over |
| InflateFixed.InflateTreesFixed | deps/include/zlib/inftrees.c:398-454 | both fixed tables, of 9 and 5 bits, decode the fixed codes |
| Format.LenSym | deps/include/zlib/inftrees.c:41-48 | every length from 3 to 258 has a symbol and extra bits, by the rule of section 3.2.5 of RFC 1951 alone: each base follows the last length of the symbol before |
| Format.DistSym | deps/include/zlib/inftrees.c:49-54 | the same for distances from 1 to 32768 |
| FormatCodes.LengthTables | deps/include/zlib/inftrees.c:41-48 | the bases and extra bits of the decoder are those of that rule |
| FormatCodes.DistanceTables | deps/include/zlib/inftrees.c:49-54 | the same for distances |
| FormatCodes.Consecutive | deps/include/zlib/inftrees.c:174-228 | the rules of section 3.2.2 hold of the codes decoded: codes of one length are consecutive, in the order of their symbols |
| FormatCodes.ShorterFirst | deps/include/zlib/inftrees.c:174-228 | a shorter code is less than a longer one, and no beginning of it |
| FormatCodes.FirstOfLength | deps/include/zlib/inftrees.c:174-228 | codes begin at zero, and the first of a length follows the last of the length before, shifted |
| FormatCodes.Example | deps/include/zlib/inftrees.c:174-228 | the codes of the example in that section |
| FormatCodes.FixedTable | deps/include/zlib/inftrees.c:423-434 | the fixed literal/length codes are those of the table in section 3.2.6 |
| FormatCodes.FixedDistances | deps/include/zlib/inftrees.c:436-441 | the fixed distance codes are the symbols in five bits |
| FormatCodes.OrderIs | deps/include/zlib/infblock.c:19-20 | code length lengths come in the order of section 3.2.7 |
| BlockSteps.CodeLengthFound | deps/include/zlib/infblock.c:263-275 | the one entry looked up gives the code length symbol and its length that decoding by the canonical code gives |
| CodeSteps.LitFound | deps/include/zlib/infcodes.c:121-157 | the value found for a literal/length code is what the decoding process does next: literal, length, end of block or error |
| CodeSteps.DistFound | deps/include/zlib/infcodes.c:166-189 | the same for a distance code |
| CodeSteps.SourceIsBack | deps/include/zlib/infcodes.c:197-211 | the byte of the circular window that is copied is the one so far back in everything written, wrapped or not |
| InflateFast.InflateFast | deps/include/zlib/inffast.c:28-183 | with room for 258 bytes and 10 bytes of input it takes steps of the very run that inflate_codes follows, ends at a step with the bit position and the output of the run, and gives the run's verdict; no byte beyond the input is read |
| InflateCodes.CodesState.Process | deps/include/zlib/infcodes.c:81-242 | from any suspended state the machine goes on along the run; it stops only at the run's end of block or error, or for lack of input or room |
| FormatDecodes.PieceGets | deps/include/zlib/infcodes.c:81-242 | the run reads any literal or pair that is written in any codes and in either spelling of the greatest length, leaves the input where its bits end, and has added what it stands for |
| FormatExact.PiecesTaken | deps/include/zlib/infcodes.c:81-242 | the other direction: in a run that comes to an end, what was read from the first code of a block to its end are literals and pairs written in its codes, and the code for the end |
| InflateBlocks.BlocksState.Process | deps/include/zlib/infblock.c:120-369 | the same for blocks of all types with their headers and code lengths; output only grows and input is never given back |
| FormatDecodes.BlockGets | deps/include/zlib/infblock.c:120-369 | the run reads any block that is written: stored, in fixed codes, or behind a header that sends its own codes |
| FormatDecodes.BlocksGet | deps/include/zlib/infblock.c:120-369 | the same for any list of blocks, of which the last alone is marked |
| FormatExact.HeaderTaken | deps/include/zlib/infblock.c:216-315 | a header that was read is one that is written by the rules: counts of at most 286 and 30, code lengths in their order, repetitions only of what is there and not beyond the end, and three codes that inflate accepts |
| FormatExact.BlocksTaken | deps/include/zlib/infblock.c:120-369 | what was read from the beginning of a block to the end of the data are blocks written by the rules, of which the last alone is marked; so another block type, a wrong complement of the length or a symbol without meaning never ends well |
| FormatExact.SoleFails | deps/include/zlib/infblock.c:263-315 | a code for code lengths with a single symbol, whose other bit the code takes for that symbol too, never gives codes that are accepted |
| BitInput.Input.NeedBits | deps/include/zlib/infutil.h:72-76 | the bits still ahead stay the same; it fails exactly when all input is read and too few bits are held; at most a byte too much is taken |
| InflateWindow.Window.Flush | deps/include/zlib/infutil.c:23-87 | as many pending bytes as there is room for are delivered, in order and once, around the end of the window, and the checksum is that of the bytes delivered |
| InflateWindow.Window.NeedOut | deps/include/zlib/infutil.h:78-82 | success means room for a byte in the window without an undelivered byte being overwritten; failure means there is no room for output |
| InflateWindow.Window.OutByte | deps/include/zlib/infutil.h:83-83 | one byte more is produced and pending, and the window holds the last bytes produced |
| Inflate.Inflater.Inflate | deps/include/zlib/inflate.c:150-275 | the end of the stream is reported only for a stream that stands for exactly the bytes delivered, checksum included; an error only for a stream that stands for nothing; otherwise input or room is used up |
| Inflate.AcceptsOnce | deps/include/zlib/inflate.c:150-275 | a stream stands for one output at most |
| Inflate.BadIsFinal | deps/include/zlib/inflate.c:220-227 | a run that went bad never ends well, however far it is taken |
| Inflate.OutputIsPrefix | deps/include/zlib/inflate.c:150-275 | what is delivered early is the beginning of what the stream stands for |
| Inflate.WrongCheck | deps/include/zlib/inflate.c:240-264 | a stream with a wrong checksum stands for nothing |
| InflateTheorems.Complete | deps/include/zlib/inflate.c:150-275 | a decoder that was given all of a good stream and has room left ends it with exactly its output; without the wrapper that takes one byte behind the data, as deps/include/zlib/gzio.c:148 says |
| InflateTheorems.BlocksAhead | deps/include/zlib/infblock.c:136-280 | a decoder that waits for input is within a byte of the end of what it was given, or the run takes it there or goes bad with the next step |
| InflateTheorems.Delivered | deps/include/zlib/infutil.c:23-87 | at any time what was delivered is the beginning of what a good stream stands for |
| InflateTheorems.SameVerdict | deps/include/zlib/inflate.c:150-275 | two decoders of one stream that come to an end, on whatever calls, end alike with the same bytes and checksum |
| InflateTheorems.AcceptedByAll | deps/include/zlib/infcodes.c:197-211 | a stream whose copies stay near is accepted with the same output whatever the window's size and old content |
| InflateCalls.Feed | deps/include/zlib/inflate.c:150-275 | after any list of calls a decoder has been given exactly their input, the last result means what it means for one call, and the last call's room was used for output or is left |
| InflateCalls.Decode | deps/include/zlib/inflate.c:81-275 | on a whole stream, split over any calls: what is delivered is the beginning of what a good stream stands for, all of it at the end; a good stream is never an error, and ends if room is left; the last call's room was used or is left |
| InflateCalls.GoodIsDecoded | deps/include/zlib/infblock.c:136-368 | so a good stream is decoded, bytes and checksum, however it is split over calls, if the last one has room for more than its output |
| InflateCalls.SplitAlike | deps/include/zlib/infblock.c:136-368 | if one split of a stream over calls is accepted, every other is never rejected, ends if room is left, and delivers the same bytes and checksum |
| FormatStreams.RawAccepted | deps/include/zlib/inflate.c:150-275 | a stream of any blocks, written by the rules, stands for exactly their data, whatever follows it |
| FormatStreams.ZlibAccepted | deps/include/zlib/inflate.c:150-275 | so does one between the header and the checksum of RFC 1950, for every window size that the header announces or a greater one |
| FormatStreams.StoredAccepted | deps/include/zlib/infblock.c:185-215 | stored blocks written byte by byte, any number of parts of up to 65535 bytes: the mark, the length and its complement, and the data stand for the parts joined |
| FormatStreams.ZlibStoredAccepted | deps/include/zlib/inflate.c:150-275 | the same with header and checksum |
| FormatStreams.EmptyStream | deps/include/zlib/infblock.c:142-170 | the stream of no data in one last fixed block is 78 9c 03 00 00 00 00 01 |
| FormatStreams.AcceptedIsStream | deps/include/zlib/inflate.c:150-275 | whatever inflate accepts is such a stream: blocks by the rules within it, and around them the header of section 2.2 and the four bytes of the checksum of what is delivered, unless it is raw; if the distances stay near, what is delivered is what the blocks stand for |
| FormatStreams.AcceptsExactly | deps/include/zlib/inflate.c:150-275 | so a stream whose distances stay within the window and the output stands for data if and only if it is a list of blocks written by the rules for these data, in header and checksum unless raw |
| InflateSync.NextIsLongest | deps/include/zlib/inflate.c:317-336 | after a mismatch with a zero, 4 - m is how much of the marker still matches |
| InflateSync.Search | deps/include/zlib/inflate.c:317-336 | the search stops right behind the first 00 00 FF FF, also across calls, or at the end of the input with the length of the longest partial marker; nowhere before has the marker gone by |
| FormatStreams.MarkIsEmptyBlock | deps/include/zlib/inflate.c:326-326 | the marker is what an empty stored block has behind its type |
| DeflateHash.Rolls | deps/include/zlib/deflate.c:147-156 | the running hash depends on the last three bytes only, for every window and memory level |
| DeflateHash.ThirdByte | deps/include/zlib/deflate.c:814-826 | equal hashes and two equal bytes force the third to be equal |
| DeflateHash.ThirdByteExactly | deps/include/zlib/deflate.c:814-826 | so the third byte need not be compared if and only if hashes have 8 bits at least, whatever the shift |
| DeflateDict.InsertKeeps | deps/include/zlib/deflate.c:170-178 | inserting a string keeps every chain: entries name earlier strings of the same hash, at falling positions |
| DeflateDict.SlideKeeps | deps/include/zlib/deflate.c:1000-1021 | after the window moves every surviving entry names the same position of the input |
| DeflateDict.InsertFills | deps/include/zlib/deflate.c:170-178 | nothing is missing from the chains: each entry names the latest earlier string of its hash in the window, and inserting keeps this |
| DeflateDict.SlideFills | deps/include/zlib/deflate.c:1000-1021 | so does the move of the window |
| DeflateDict.Dictionary.Insert | deps/include/zlib/deflate.c:170-178 | the string is in the dictionary, the others are as they were, and the head returned is the latest earlier string of the same hash in the window, or NIL if there is none |
| DeflateDict.Dictionary.Slide | deps/include/zlib/deflate.c:1000-1021 | the arrays are rewritten in place so that the dictionary is the same with its base one window on |
| DeflateState.DeflateState.SlideWindow | deps/include/zlib/deflate.c:985-1021 | the current string, the block start and the match keep their positions in the input when the window moves |
| DeflateState.DeflateState.FillWindow | deps/include/zlib/deflate.c:960-1048 | afterwards there are 262 bytes ahead or no input left; the current position in the input, the pending match and the block start are the same, and nothing is lost of the input |
| DeflateState.DeflateState.ThirdAgrees | deps/include/zlib/deflate.c:814-826 | the third byte that is not compared does agree |
| DeflateState.DeflateState.LongestMatch | deps/include/zlib/deflate.c:725-861 | a length above prev_length is that of a true match at match_start, at most 258 bytes long, at most MAX_DIST away and inside the valid bytes; none of the strings visited along the chain agrees with the current one for longer; the walk goes on until the chain leaves the window, its budget is used up, or the match is as long as is wanted; if it left the window, no string in reach repeats the current one for longer, and otherwise none from where it stopped on |
| DeflateTokens.MatchExpands | deps/include/zlib/deflate.c:1178-1182 | expanding a true match appends exactly the data it was found in, overlapping or not |
| DeflateTokens.DecoderCopies | deps/include/zlib/infcodes.c:197-211 | a decoder at that length and distance writes the same bytes in len + 1 steps |
| DeflateStored.DeflateStored | deps/include/zlib/deflate.c:1080-1129 | the stored blocks, none above 65535 bytes, are together the input up to where they reach, and all of it when the call reports the end; a block is marked as the last exactly if it is the one that ends a finishing call |
| DeflateStored.StoredIsData | deps/include/zlib/deflate.c:1109-1121 | stored blocks that lie end to end over the data contain it |
| DeflateFast.DeflateFast | deps/include/zlib/deflate.c:1138-1227 | from any standing state: tokens expand to the input consumed and blocks cover it end to end, again on return; when it reports a flush or the end, blocks hold all of the input; a block is marked as the last exactly if it ends a finishing call |
| DeflateFast.Tokens | deps/include/zlib/deflate.c:1138-1227 | the tokens of all blocks handed over expand to the input before the open block |
| DeflateFast.Round | deps/include/zlib/deflate.c:1138-1227 | one token a round: a literal only if no string as far back as was searched repeats three bytes, a pair only if none repeats more than it stands for; the search goes back to the end of the window unless it found a match that is long enough or used up its budget |
| DeflateSlow.DeflateSlow | deps/include/zlib/deflate.c:1234-1349 | the same for lazy matching, where a match may be given up for a literal and the byte before is still pending |
| DeflateSlow.Tokens | deps/include/zlib/deflate.c:1234-1349 | the tokens of all blocks handed over expand to the input before the open block |
| DeflateSlow.Round | deps/include/zlib/deflate.c:1234-1349 | the match before is output exactly if it has three bytes and the current one is not longer, otherwise the byte before if one waits; the current match is the best one as far back as was searched, dropped exactly if it is short and filtered or too far away, and not searched for if the one before is good enough |
| DeflateLevels.Compress | deps/include/zlib/deflate.c:126-140 | on every level, window and memory size, from a new state: the blocks mean a beginning of the input, and exactly the input when the level's function reports that it is done, as it does for a finishing call with ample room for output |
| DeflateCalls.HeaderAccepted | deps/include/zlib/deflate.c:462-476 | inflate accepts the two header bytes if and only if its window is as large as the one announced |
| DeflateCalls.Deflater.Deflate | deps/include/zlib/deflate.c:435-566 | one call from any state: no input is lost, blocks are only added; a stream error exactly for another flush after FINISH; the end is reported only when the blocks stand for all input given, the last one alone is marked, and the checksum written is that of the input; a finishing call that finds room reports the end, at once if the room is ample, or comes nearer to it |
| DeflateCalls.CompressAll | deps/include/zlib/deflate.c:435-566 | any list of calls with any flush modes and any answers of the output side: the blocks stand for a beginning of all input given, and at the end for exactly that input, behind the header and before the checksum of a zlib stream for it |
| DeflateCalls.FinishAll | deps/include/zlib/deflate.c:435-566 | finishing calls end the stream if enough of them find room, however little each |
| DeflateCalls.CompressWhole | deps/include/zlib/deflate.c:435-566 | any input in any calls with any flushes, and then finishing calls of which more find room than there are bytes and two: a whole zlib stream for exactly that input, with tokens that the format allows and that reach no farther than the window or the beginning |
| RoundTrip.StreamAccepted | deps/include/zlib/deflate.c:435-566 | what deflate handed over, each block stored or written in fixed codes or codes of its own, is a stream that stands for exactly the input, to every decoder with the window announced or a greater one |
| RoundTrip.CompressStream | deps/include/zlib/deflate.c:435-566 | any input, on any level, by any calls: the bytes of such a stream |
| RoundTrip.DecodeStream | deps/include/zlib/inflate.c:150-275 | decoding such a stream, split over any calls, ends with exactly the input and its checksum |
| StoreGc.StepKeeps | deps/include/util/UT_Persistent_KeyValue.h:49-100 | every step of a client, a query or the collector, and a stop with opening again at any point, keeps the invariant of the store |
| StoreGc.RunKeeps | deps/include/util/UC_DiskQuotaManager.h:774-889 | it holds in every state of every interleaving from any store that can be opened, with whatever records that no key names |
| StoreGc.ReopenIsOpen | deps/include/util/UT_Persistent_KeyValue.h:102-132 | what is on disk between any two steps is a store that can be opened and stands for the same |
| StoreGc.StoreIs | deps/include/util/UT_Persistent_KeyValue.h:49-192 | what the store holds is what the steps alone say: an add that reached the index sets its key to its value, whether or not it was there, a del that reached it removes its key, and nothing else changes it |
| StoreGc.LookUp | deps/include/util/UT_Persistent_KeyValue.h:134-192 | a key is found exactly if the steps of the run say that it is there, and its record holds the last value added, also while records are moved and after any stop |
| StoreGc.QueryReads | deps/include/util/UT_Persistent_KeyValue.h:174-192 | a query holding a reference reads a place that is not truncated, with the value that the steps before the query began give its key, since when the store was not stopped |
| StoreProgress.AddCompletes | deps/include/util/UT_Persistent_KeyValue.h:134-157 | with the lock free, an on-line file and no query at the key, an add takes its three steps to its end |
| StoreProgress.DelCompletes | deps/include/util/UT_Persistent_KeyValue.h:159-172 | the same for a del of a key that is there |
| StoreProgress.QueryCompletes | deps/include/util/UT_Persistent_KeyValue.h:174-192 | a query can begin whenever its key is there, and end at once |
| StoreProgress.CollectCompletes | deps/include/util/UC_DiskQuotaManager.h:774-889 | with another file to move records to, the collector empties any file and the store holds the same |
| StoreRecords.PackedBack | deps/include/util/UC_DiskQuotaManager.h:283-294 | a place packed into 64 bits comes back, for offsets below 2^40 |
| StoreRecords.ReadBack | deps/include/util/UC_DiskQuotaManager.h:447-545 | reading at a record's offset gives back both buffers, or says which of the caller's is too small |
| StoreRecords.CountedIsWritten | deps/include/util/UC_DiskQuotaManager.h:314-437 | the size counted is the size written exactly if the first buffer is not empty |
| StoreRecords.OffsetsDiffer | deps/include/util/UC_DiskQuotaManager.h:314-437 | different records of a file have different offsets |
| StoreRecords.Scan | deps/include/util/UC_DiskQuotaManager.h:785-851 | the collector's scan finds every record of a file, at the offset that its writer returned |
| DiskQuota.SwapKeeps | deps/include/util/UC_DiskQuotaManager.h:420-432 | exchanging two files keeps the list a permutation |
| DiskQuota.Quota.BeginWrite | deps/include/util/UC_DiskQuotaManager.h:338-369 | disk full exactly if no file has room; busy only if a file on-line is in use; the write's number chooses one of the files on-line, each by some number, which is granted exactly if it is not in use; a file granted has room and is not being trimmed, and only it becomes in use |
| DiskQuota.Quota.EndWrite | deps/include/util/UC_DiskQuotaManager.h:407-437 | the file grew by the record and stays on-line exactly if it has room for another; nobody else changes; all files stay within their limit exactly if this one does, as it does for a record of the greatest size announced |
| DiskQuota.Quota.BeginTrim | deps/include/util/UC_DiskQuotaManager.h:726-771 | the file is taken off-line exactly if it is not in use and not empty |
| DiskQuota.Quota.EndTrim | deps/include/util/UC_DiskQuotaManager.h:880-889 | the trimmed file, still where it was left, is empty and on-line again |
| QuotaRuns.Run | deps/include/util/UC_DiskQuotaManager.h:314-889 | any interleaving of writers and the trimmer: sizes are those of the records written, every record was written where its file ended, a file in use has room and is not being trimmed, and no file passes its limit unless a record is larger than announced |
| QuotaRuns.WriteAfter | deps/include/util/UC_DiskQuotaManager.h:338-437 | once the writers before it have finished, a write is granted a file whatever its number is, and its record written, unless no file takes records |
| QuotaRuns.RecordsApart | deps/include/util/UC_DiskQuotaManager.h:397-437 | two records written to a file without its being emptied in between do not overlap |
| IndexFiles.RestoredIs | deps/include/util/UT_HashTable_Pro.h:1191-1278 | what restore finds: a finished snapshot alone, nothing after a clear, else snapshot and log |
| IndexFiles.RestoreAgain | deps/include/util/UT_HashTable_Pro.h:1191-1278 | restore stopped after any file operation and run again yields the same map from the same log |
| IndexFiles.TrimIsSafe | deps/include/util/UT_HashTable_Pro.h:1060-1101 | trim stopped after any file operation: restore yields the same map; the log is the old one until the snapshot takes its place |
| IndexFiles.ClearIsSafe | deps/include/util/UT_HashTable_Pro.h:482-546 | clear stopped after any file operation: restore yields the old map or the empty one |
| IndexFiles.TrimEnds | deps/include/util/UT_HashTable_Pro.h:1060-1101 | a finished trim leaves files that stand for the snapshot written, whatever they stood for before |
| IndexFiles.ClearEnds | deps/include/util/UT_HashTable_Pro.h:482-546 | a finished clear leaves files that stand for nothing |
| IndexFiles.AppendedFile | deps/include/util/UT_HashTable_Pro.h:1280-1305 | an item written where the items end, over whatever is left there, makes the file of the log with that item |
| IndexFiles.TornFile | deps/include/util/UT_HashTable_Pro.h:1280-1305 | the same for the first bytes of an item |
| IndexFiles.FileReads | deps/include/util/UT_HashTable_Pro.h:1232-1258 | the loop of restore finds in the file of a log the items, with whatever the bytes behind them are taken for, or fails at those |
| IndexTable.HashTable.Add | deps/include/util/UT_HashTable_Pro.h:132-300 | result and map after an add, and the log with its bytes; snapshot plus log stay what the table holds exactly if the add overwrites, or writes the value that is there, or has room for a new key, provided that restore stops behind the items |
| IndexTable.HashTable.Delete | deps/include/util/UT_HashTable_Pro.h:385-475 | the key is gone, the result says whether it was there, and snapshot plus log stay what the table holds, provided that restore stops behind the items |
| IndexTable.HashTable.Query | deps/include/util/UT_HashTable_Pro.h:329-357 | the chained table is looked up as the map |
| IndexTable.LoadDistinct | deps/include/util/UT_HashTable_Pro.h:850-918 | distinct entries, not too many, load as the map that they list |
| IndexTable.HashTable.Save | deps/include/util/UT_HashTable_Pro.h:799-848 | the snapshot written loads as the table's map |
| IndexTable.HashTable.Restore | deps/include/util/UT_HashTable_Pro.h:1191-1278 | restore succeeds exactly if snapshot and log can be replayed, with the bytes behind the items taken as the loop takes them, and then the table holds what they stand for and the log goes on where reading stopped |
| IndexTable.HashTable.Trim | deps/include/util/UT_HashTable_Pro.h:1060-1101 | table and files agree afterwards, with an empty log, also if they did not before |
| IndexTable.HashTable.Clear | deps/include/util/UT_HashTable_Pro.h:482-546 | table and files agree on the empty map, whatever they held |
| IndexRuns.Run | deps/include/util/UT_HashTable_Pro.h:1060-1278 | any run of adds, deletes, trims, clears and restores, stopped at any byte of a log item or any other file operation, with restore stopped any number of times after it: table and files hold what the adds and deletes say, if none was refused for lack of room and restore always stops behind the items |
| IndexLog.ReadLog | deps/include/util/UT_HashTable_Pro.h:1232-1258 | the loop of restore finds the items that the bytes of the log stand for, and fails exactly where a mark is neither that of an add nor of a delete |
| IndexLog.TailIsRight | deps/include/util/UT_HashTable_Pro.h:1232-1258 | restore finds exactly the items in front if and only if the bytes behind them are too few for mark and key, or too few for the value of an add |
| IndexLog.TornIsDropped | deps/include/util/UT_HashTable_Pro.h:1232-1258 | an item not written to its end is dropped, and no other with it |
| IndexLog.WrittenOver | deps/include/util/UT_HashTable_Pro.h:1260-1268 | items written after restore go over the torn one: the next restore finds all items if and only if what is left of it is shorter than mark and key, or begins with the mark of an add |
| IndexLog.ShortValuesAreSafe | deps/include/util/UT_HashTable_Pro.h:1260-1268 | which is always so if a value is no longer than mark and key |
| IndexLog.LongValueFails | deps/include/util/UT_HashTable_Pro.h:1260-1268 | with longer values, a delete over an add that lacks its last byte makes the next restore fail |
| RecordLog.AllBack | deps/include/util/UC_Persistent_Storage.h:133-183 | what was saved is read back record by record, from any record on |
| RecordLog.FixFile | deps/include/util/UH_Define.h:905-993 | the backward scan by blocks keeps the file up to the end of the last flag that lies within one block |
| RecordLog.CutIsRight | deps/include/util/UH_Define.h:905-993 | the cut leaves exactly the whole records if and only if their last flag is within a block and none is seen behind |
| RecordLog.HarmlessCut | deps/include/util/UH_Define.h:905-993 | a torn record that is harmless is cut off, and nothing else |
| RecordLog.LongTailLosesRecords | deps/include/util/UH_Define.h:905-993 | behind a torn record of 2^20 - 4 bytes the cut takes whole records too |
| PersistentStorage.Storage.Init | deps/include/util/UC_Persistent_Storage.h:20-60 | init, finished or stopped after any file operation, keeps the records and leaves files that can be repaired again, if what the repair cuts off is exactly the unfinished record; if not, the repaired file does not hold them; six operations finish it |
| PersistentStorage.Storage.Save | deps/include/util/UC_Persistent_Storage.h:62-99 | a record is added as a whole or, if the write is torn, not at all, and the torn bytes are behind the records |
| PersistentStorage.Storage.TrimSuccess | deps/include/util/UC_Persistent_Storage.h:238-265 | stopped before its first file operation the records are the old ones, after it the trimmed ones, and in either case init can repair the files |
| PersistentStorage.Storage.TravelData | deps/include/util/UC_Persistent_Storage.h:109-183 | the records come one a call, library first, each once, with an end or an error exactly when due |
| RecordLog.CuttableIs | deps/include/util/UH_Define.h:905-993 | whether the cut is right depends on the torn bytes, and on whether there are records before them, only |
| StorageRuns.Open | deps/include/util/UC_Persistent_Storage.h:20-60 | init, stopped any number of times at any file operation and then run to its end, keeps the records |
| StorageRuns.Run | deps/include/util/UC_Persistent_Storage.h:20-265 | any run of saves and trims, each stopped at any byte or file operation, with init stopped any number of times after it: the store holds exactly the records that are due, each save and trim done as a whole or not at all, and reading yields them in order up to the first that is too long; provided that the tail of each torn save is one that the cut is right for |
| RwLock.ExcludesExactly | deps/include/util/UH_Define.h:482-551 | a writer is alone inside in every run of any threads if and only if fewer than 2^30 readers are inside at a time |
| RwLock.RunKeeps | deps/include/util/UH_Define.h:482-551 | the word is the number of readers, the stop bit and the writer bit in every state of every run |
| RwLock.NoReaderOvertakes | deps/include/util/UH_Define.h:502-536 | where writers win, from the step at which one has asked in vain no reader comes in until a writer has been inside |
| RwLock.WriterComesIn | deps/include/util/UH_Define.h:519-536 | a writer comes in exactly if nobody is inside |
| RwLock.StoppedIs | deps/include/util/UH_Define.h:482-551 | the stop bit is set exactly if writers win and one has asked since the last one left |
| RwLock.ReaderComesIn | deps/include/util/UH_Define.h:503-517 | a reader comes in exactly if no writer is inside and, where writers win, none has asked since the last one left |
| DomainTree.RotationsExact | deps/include/util/coding_UT_AVLTree_3.h:500-528 | the formulas for new balance values are exact for all trees, balanced or not |
| DomainTree.RebalanceBalances | deps/include/util/coding_UT_AVLTree_3.h:281-304 | after rebalancing the node is balanced again and its height and the height flag are exact |
| DomainTree.InsertKeeps | deps/include/util/coding_UT_AVLTree_3.h:244-304 | insertion keeps order, balance and exact balance values, adds one label, and flags exactly a growth in height |
| DomainTree.SearchFinds | deps/include/util/coding_UT_AVLTree_3.h:454-468 | search finds a label exactly if it is there |
| DomainPages.CountKeeps | deps/include/util/coding_UT_AVLTree_3.h:183-242 | the counting pass keeps all counts those of the entries so far, at every level |
| DomainPages.AllotKeeps | deps/include/util/coding_UT_AVLTree_3.h:306-341 | the allotting pass gives every domain a range of its own and uses one slot an entry |
| DomainPages.FillStep | deps/include/util/coding_UT_AVLTree_3.h:343-394 | an entry filled in goes to a free slot of its domain and disturbs no other |
| DomainPages.LocateHolds | deps/include/util/coding_UT_AVLTree_3.h:396-452 | the range found for a domain holds every page at or below it as often as it was entered |
| DomainIndex.SearchIsRight | deps/include/util/coding_UT_AVLTree_3.h:396-452 | after all three passes the same of every domain, and none is found exactly if it has no page |
| DomainIndex.AllSlotsFilled | deps/include/util/coding_UT_AVLTree_3.h:343-394 | every slot holds the page of one entry |
| DomainIndex.UniversalDomain.AddDomainCount | deps/include/util/coding_UT_AVLTree_3.h:183-242 | one entry more is counted |
| DomainIndex.UniversalDomain.AddDomainAlloc | deps/include/util/coding_UT_AVLTree_3.h:306-341 | fails exactly if nothing was counted; then the index is ready for filling |
| DomainIndex.UniversalDomain.AddDomainAdd | deps/include/util/coding_UT_AVLTree_3.h:343-394 | the page goes to the next slot of its domain, in whatever order domains were counted, or nothing changes because there is no such domain; the index stays right if and only if fewer entries of the domain were filled in than counted |
| DomainIndex.UniversalDomain.SearchDomain | deps/include/util/coding_UT_AVLTree_3.h:396-452 | once as many entries are filled in as were counted: -1 exactly if no page is at or below the domain; otherwise the range in the buffer holds exactly those pages |
| DomainIndex.AsFilled | deps/include/util/coding_UT_AVLTree_3.h:343-394 | the index is then as if the entries filled in had been the ones counted |
| DomainIndex.SlotIsOwn | deps/include/util/coding_UT_AVLTree_3.h:343-394 | the next slot of a domain is one of its own if and only if fewer entries of it are filled in than were counted |
| DomainIndex.OverfillHits | deps/include/util/coding_UT_AVLTree_3.h:343-394 | otherwise it is that of another domain with pages, or beyond the buffer |
| DomainIndex.NeverCounted | deps/include/util/coding_UT_AVLTree_3.h:343-394 | a page for domain 1, never counted, is accepted and written over the page of domain 1.2 |
| DomainIndex.Build | deps/include/util/coding_UT_AVLTree_3.h:183-394 | the three passes over one list of entries end with an index for exactly these, unless the list is empty |
| CenterMessage.Keeps | deps/include/util/UC_CenterMessage.h:66-168 | every step of a caller or a worker keeps the invariant |
| CenterMessage.RunKeeps | deps/include/util/UC_CenterMessage.h:66-168 | it holds in every state of every interleaving of any number of both |
| CenterMessage.MovesTell | deps/include/util/UC_CenterMessage.h:66-168 | how many sub-tasks each message has and what was done, in order, is what the steps alone say |
| CenterMessage.NothingTwice | deps/include/util/UC_CenterMessage.h:136-165 | each sub-task that the calls asked for is processed at most once, each message combined at most once and after all its sub-tasks, and extracted only after that |
| CenterMessage.QuietIsDone | deps/include/util/UC_CenterMessage.h:136-165 | when nothing is left to do, every sub-task of every message put in is processed and every message combined |
| CenterMessage.NeverStuck | deps/include/util/UC_CenterMessage.h:136-165 | as long as something is left to do and there is a worker, a step is possible |
| CenterMessage.Nearer | deps/include/util/UC_CenterMessage.h:136-165 | and every such step comes nearer to the end, so the messages put in are dealt with |
| CenterMessage.RecycledUntouched | deps/include/util/UC_CenterMessage.h:102-134 | a node about to be recycled is held by no worker, no queue and no other caller |
| CenterMessage.WorkersNodeInUse | deps/include/util/UC_CenterMessage.h:136-165 | a worker never reads a node that has been recycled |
| SuperSearch.SplitIsOneToOne | deps/include/util/coding_UT_SuperSearch.h:12-56 | bucket and 40 low bits together are the number |
| SuperSearch.Partition | deps/include/util/coding_UT_SuperSearch.h:130-173 | both ends meet, with nothing above the pivot before and nothing below it behind |
| SuperSearch.Joined | deps/include/util/coding_UT_SuperSearch.h:166-171 | the two sorted parts fit together although they may share a position |
| SuperSearch.Sort | deps/include/util/coding_UT_SuperSearch.h:130-173 | it ends, sorts the range, moves elements only within it and loses none |
| SuperSearch.SuperSearch.Load | deps/include/util/coding_UT_SuperSearch.h:80-110 | two passes and sorting leave every bucket sorted with exactly its numbers |
| SuperSearch.SuperSearch.IsExist | deps/include/util/coding_UT_SuperSearch.h:112-128 | found exactly if the number was in the list loaded |
| Adler32.Adler32 | deps/include/zlib/adler32.c:21-45 | reducing every 5552 bytes gives the byte-by-byte sums of section 8.2 of RFC 1950, from any start value; a null buffer gives 1 |
| Adler32.NmaxIsLargest | deps/include/zlib/adler32.c:10-12 | 5552 is the greatest number of bytes for which the sums stay in 32 bits |
| Adler32.Compose | deps/include/zlib/adler32.c:21-45 | the checksum of a concatenation is computed part by part |
| Adler32.BaseIsLargest | deps/include/zlib/adler32.c:10-10 | the modulus is the largest prime below 65536 |
| Adler32.ChecksumIs | deps/include/zlib/adler32.c:21-45 | the checksum of a buffer in closed form: one and the sum of the bytes, and the length and the sum weighted from the end, modulo the largest prime below 65536 |
| Adler32.SumsAre | deps/include/zlib/adler32.c:21-45 | the same from any start value |
| Crc32.SerialIsDivision | deps/include/zlib/crc32.c:19-41 | the shift register computes the remainder of the polynomial division, for every start value and message |
| Crc32.CrcIsDivision | deps/include/zlib/crc32.c:142-162 | the checksum is that of section 8 of RFC 1952, for every buffer |
| Crc32.CrcComposes | deps/include/zlib/crc32.c:142-162 | the checksum of a concatenation is computed part by part |
| Crc32.TableStep | deps/include/zlib/crc32.c:136-136 | eight shifts need a table for the low byte only |
| Crc32.ByteStep | deps/include/zlib/crc32.c:136-136 | eight bit steps are one byte step |
| Crc32.MakeCrcTable | deps/include/zlib/crc32.c:42-63 | the table built from the terms of the polynomial has eight shifts of every byte |
| Crc32.Crc32 | deps/include/zlib/crc32.c:142-162 | the unrolled loop computes the bit-serial checksum; a null buffer gives 0 |
| Crc32.KnownChecksum | deps/include/zlib/crc32.c:142-162 | the checksum of the letter a |
| Crc32.KnownEntries | deps/include/zlib/crc32.c:68-121 | the entries of the literal table for single bits; the others are sums of these |
| Md5.CountAdds | deps/include/util/UC_MD5.h:99-104 | the carry between the count's two words makes it the bit count modulo 2^64 |
| Md5.PadInjective | deps/include/util/UC_MD5.h:130-153 | different messages are padded differently |
| Md5.PadIsStandard | deps/include/util/UC_MD5.h:130-153 | padding is the message, a one, the fewest zeros and the number of bits, low byte first, to whole blocks |
| Md5.StartIs | deps/include/util/UC_MD5.h:83-86 | the start value is the sixteen bytes of section 3.3 of RFC 1321 |
| Md5.Context.Update | deps/include/util/UC_MD5.h:93-128 | state and buffer are those of the whole message, however it was cut up |
| Md5.TestIsRight | deps/include/util/UC_MD5.h:114-115 | the test of the loop, on 32 bits, says whether another block is there if and only if the bytes kept and the input are fewer than 2^32 |
| Md5.Context.Final | deps/include/util/UC_MD5.h:130-153 | the digest is that of the message padded as in sections 3.1 and 3.2 of RFC 1321 |
| Md5.Bits128 | deps/include/util/UC_MD5.h:322-335 | the digest of the input, of any length that its type has, and zeros for an empty one |

## Findings

What the code does not keep, with an input and the exact condition.

| where | as written | input | kept if and only if | proved by |
|---|---|---|---|---|
| deps/include/zlib/inftrees.c:209-270 | in tables for an incomplete code, entries that no code fills keep what the space held before | lengths 1, 2, 3, 4, 5, 6, 15 with 6-bit tables | no K below the longest length, from 2 * bits on and a multiple of bits, leaves 2^bits or more patterns of K bits over (`NoWideGap`); the lengths that inflate accepts never do | HuftBuild.SoundExactly, WideGap.TablesAreWrong, WideGap.BuildThem, InflateTrees.AcceptedHasNoGap |
| deps/include/util/UT_HashTable_Pro.h:143-150 | an add is logged before it is refused or ignored, so that restoring yields another map, or fails | adding a key with another value without overwriting; a new key for a full table | the add overwrites, or writes the value that is there, or the key is new and there is room | IndexTable.HashTable.Add |
| deps/include/util/UH_Define.h:905-993 | the repair of a record file takes whole records when their last flag lies across the border of two blocks | whole records and behind them 2^20 - 4 bytes of a torn one without a flag | the last flag lies within a block, counted from the end of the file, and no flag is seen behind it | RecordLog.CutIsRight, RecordLog.LongTailLosesRecords, PersistentStorage.Storage.Init |
| deps/include/util/UH_Define.h:519-536 | the lock lets a writer in beside readers: their number sets the stop bit and looks like none | 2^30 readers inside | fewer than 2^30 readers are inside at a time | RwLock.ExcludesExactly |
| deps/include/util/UC_DiskQuotaManager.h:314-437 | the size counted for a record is 13 bytes and the size written 9 | an empty first buffer | the first buffer is not empty | StoreRecords.CountedIsWritten |
| deps/include/util/UC_DiskQuotaManager.h:314-437 | a file passes its limit: the size of a record is not checked against the greatest one announced | a record larger than that, for a file with no more room than was announced | the file's size and the record are within the limit | DiskQuota.Quota.EndWrite |
| deps/include/util/UT_HashTable_Pro.h:1260-1268 | a torn item is written over but not cut off, so that what is left of it is taken for an item and restore fails | an add that lacks its last byte, with a value longer than mark and key, and a delete written over it | what is left is shorter than mark and key, or begins with the mark of an add | IndexLog.WrittenOver, IndexLog.LongValueFails |
| deps/include/util/UC_MD5.h:114-115 | the loop's test wraps around and sees another block where there is none | one byte, and then 2^32 - 1 bytes | the bytes kept and the input are fewer than 2^32 | Md5.TestIsRight |
| deps/include/util/coding_UT_AVLTree_3.h:343-394 | a page of a domain with no free slot is written to a slot of another domain, or beyond the buffer, and the call succeeds | one page counted and filled in for domain 1.2, and then a page for domain 1 | fewer entries of the domain are filled in than were counted | DomainIndex.UniversalDomain.AddDomainAdd, DomainIndex.SlotIsOwn, DomainIndex.OverfillHits, DomainIndex.NeverCounted |
| deps/include/zlib/deflate.c:814-826 | the third byte is not compared: a limit of the argument in its comment and no fault, because hashes have memory level + 7 bits, at least 8 | fewer than 8 hash bits, which cannot be configured, and the strings 1, 1, 0 and 1, 1, 2^bits | hashes have 8 bits or more | DeflateHash.ThirdByteExactly, DeflateHash.ShortHash |

## Left out

- Preset dictionaries: inflateSetDictionary and deflateSetDictionary; a stream that asks for one ends with NEED_DICT, and is treated as one that stands for nothing.
- `DeflateCalls.Deflater.Deflate`: the output side answers arbitrarily (whether there is room, and whether something is pending), the markers that end a flush are not written, and a preset dictionary's checksum is not; deflateParams, deflateCopy and deflateReset.
- `RoundTrip.CompressStream`: which of stored, fixed and own codes a block gets (trees.c is not part of this model): `RoundTrip.StreamAccepted` holds for every choice, and the method stores on level 0 and takes fixed codes on the others. The empty blocks that end a flush are not written.
- The precomputed fixed tables of inffixed.h: the model builds them, as the BUILDFIXED variant does.
- The UNALIGNED_OK and FASTEST variants, and the literal CRC table, whose content is that of make_crc_table.
- inflateReset and reuse of a decoder; inflateSync beyond its search; inflateSyncPoint.
- `Inflate.Inflater.Inflate`: the object for the blocks is made once the header is read, and a byte given back by inflate_codes may come from an earlier call, so input is one sequence that grows.
- `InflateCodes.CodesState.Process`: tables are read from a value that equals the array's content; memcpy is a loop over bytes.
- `InflateTheorems.Complete`: without the wrapper it needs a byte behind the data, because the code looks up more bits than a code may have; that a stream without it may not end is not stated.
- `DeflateStored.DeflateStored`, `DeflateFast.DeflateFast` and `DeflateSlow.DeflateSlow`: whether output room is left after a block is an arbitrary answer unless the room is ample.
- `DeflateFast.Round` and `DeflateSlow.Round`: that lazy matching compresses better is not stated, only what either chooses among the matches in reach.
- `StoreGc.LookUp`: records have numbers for places (`StoreRecords.OffsetsDiffer` and `StoreRecords.PackedBack` say why that is enough), and a section under a lock is one step; a stop leaves whole records and the index of its last step, as `RecordLog` and `IndexRuns` say of their files.
- `IndexTable.HashTable.Add`: no failing allocation or write; the path that leaves an old version for its readers; travel_del, travel_modify, save_quick and load_quick.
- `PersistentStorage.Storage.TravelData`: nothing is said of a call after an error; errors of file operations and their retries are left out.
- `DiskQuota.Quota.BeginWrite`: file operations succeed; dqm_travel and dqm_delete_data are left out.
- `RwLock.ExcludesExactly`: the inner mutex makes each round one step, waiting is trying again, and whether a thread ever comes in is not stated.
- `DomainIndex.UniversalDomain.AddDomainAdd`: a page written beyond the buffer, which `DomainIndex.OverfillHits` does not exclude, is not modelled; trees are values and not nodes with pointers; labels are ordered numbers in the place of strings, cut from the URL beforehand (a URL whose host is empty is added, but not searched for); saving and loading.
- `DomainIndex.UniversalDomain.SearchDomain`: of searches before all entries are filled in nothing is said, since slots not yet filled hold nothing in particular.
- `CenterMessage.RunKeeps`: queues have no capacity, and get_message reads its reference only if it has one.
- `SuperSearch.SuperSearch.Load`: positions do not pass 2^31 - 1, and the file is a list of numbers.
- `Adler32.Adler32` and `Crc32.Crc32`: the checksum's type has 32 bits.
- `Md5.Context.Update`: needs that the bytes kept and the input are fewer than 2^32, beyond which `Md5.TestIsRight` shows the loop to go wrong; the round function is a parameter.
- The other headers of deps/include/util and everything under src.
