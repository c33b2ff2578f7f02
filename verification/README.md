# Verified models of the audio library, the sensor gateway and the producer/consumer kitchen

The repository holds student labs and a copy of libsndfile 1.0.28. This project models the parts of
it whose correctness spans several functions and proves what they are for.

* **DWVW codec** (`Bits`, `Dwvw`, `DwvwFormat`, `DwvwLossless`, `DwvwTheorem`, `DwvwCalls`, `DwvwCodec`).
  A delta coder with words of varying width, packed through a 32-bit reservoir and a 256-byte buffer. Bit
  strings are the common ground: the classes `Encoder` and `Decoder` work on reservoir, index and buffer as
  the source does and are tied to codeword functions; the theorems are about these, and `DwvwFormat` says
  what the codewords are, bit by bit. Losslessness is stated exactly, with the lists that are not read back,
  for one decode call and for reading in several.
* **ALAC container** (`AlacTable`, `AlacStream`, `AlacSeek`, `AlacReader`, `AlacWriter`,
  `AlacRoundTrip`, `AlacSession`, `AlacPcm`). The packet table and its base-128 form, reading and
  seeking through it, gathering samples into blocks, and the whole way from writer to reader. The
  per-packet codec is a parameter.
* **Sensor gateway** (`Sensors`, `SensorTheorems`, `SensorNodes`, `Gateway`, `GatewayRuns`,
  `GatewayWindow`). The list functions on heap nodes, what they mean per sensor, and the three threads as
  an interleaving of steps.
* **Kitchen** (`Slots`, `Kitchen`). The two bounded buffers with their semaphores, for any number of
  producers, consumers and consumers of both, and any capacity.
* **Header codec** (`HeaderFormat`, `HeaderBytes`, `Header`, `HeaderReader`, `HeaderSession`). The growing
  header cache, printing and parsing by format strings, what the bytes are in either order, and both
  together.
* **Sample rate** (`SampleRate`) and **interleaving** (`Interleave`). `Common` holds what several share.

Where the code and what is written about it differ, the code was followed. The DWVW test expects every
sample back; `DwvwTheorem.Lossless` gives the lists for which that fails in one call, and
`DwvwCalls.ReadInCalls` those for which the library's reading in chunks loses the last samples.
An ALAC packet table can outgrow the bytes set aside for it: `AlacTable.OverrunsExactly` says when.
The comment at `aiff.c:1753-1756` puts the range of sample rates at 1 to 800 MHz; the conversions are
exact up to 2^30 - 1. A sensor does not always keep at most four records at rest:
`GatewayWindow.WindowKept` says exactly which runs of the threads leave more, and
`GatewayRuns.BurstBreaksTheWindow` is such a run. And a header that was written whole is not always read
whole: `HeaderSession.WriteThenRead` says when.

Modelling choices: integers are unbounded except where the source's width matters, where wrap-around is
written out; `x | y` of disjoint bits is a sum and shifts are products and quotients by powers of two;
markers are in little-endian memory order; temperatures are real numbers. What the operating system
decides is a parameter or an arbitrary choice: which thread moves, whether a timed wait gives up,
whether a file opens.

`dafny verify dfyconfig.toml` checks the whole project.

## Model

| member | source | states |
|---|---|---|
| DwvwTheorem.Lossless | LAB_PWM/play_music/libsndfile-1.0.28/src/dwvw.c:130-555 | Encode any list of 32-bit samples, close, open and decode in one call: every sample comes back with the bits below the sample width cleared if and only if the list is not one of `Lost` (at widths of 18 and more, at most three silent samples; at 14 and 15, a last silent sample coded in one bit when the samples fill three bits over whole bytes). For a lost list it says what is returned instead. All widths from 4 to 24. |
| DwvwTheorem.ShippedWidthsAreLossless | LAB_PWM/play_music/libsndfile-1.0.28/src/dwvw.c:305-359 | At the widths 4 to 13, 16 and 17, the 12- and 16-bit formats among them, one decode call for all samples loses none; split reading at 16 bits is another matter, see `DwvwCalls.ReadInCalls`. |
| DwvwTheorem.ShortSilenceLost | LAB_PWM/play_music/libsndfile-1.0.28/src/dwvw.c:318-319 | One to three silent samples at 18 to 24 bits decode to nothing: the end-of-input check fires although samples are there. |
| DwvwTheorem.ThirdSilentSampleLost | LAB_PWM/play_music/libsndfile-1.0.28/src/dwvw.c:385-386 | Of three silent samples at 14 or 15 bits only two are read back. |
| DwvwTheorem.ShortStream | LAB_PWM/play_music/libsndfile-1.0.28/src/dwvw.c:130-151 | A closed file is never empty, and is a single byte exactly for at most three silent samples. |
| DwvwCalls.DecodeInTwoCalls | LAB_PWM/play_music/libsndfile-1.0.28/src/dwvw.c:318-322 | After a full call for m samples, a second call for n gives what one call for m + n would have given if and only if its first count of zeros does not find the end of the input or there is no further sample at all; if it finds the end, it gives nothing. |
| DwvwCalls.ReadInCalls | LAB_PWM/play_music/libsndfile-1.0.28/src/dwvw.c:187-238 | A file read in calls of any sizes: below 16 bits the sizes do not matter; from 16 bits on all samples come back if and only if the file is not lost to a single call either and the last call begins with half a width of bits ahead of it, and otherwise fewer do. |
| DwvwCalls.ElevenSilentSamples | LAB_PWM/play_music/libsndfile-1.0.28/src/dwvw.c:318-322 | At 16 bits eleven silent samples come back from one call for eleven, but only ten of them from a call for ten and one for one. |
| DwvwCodec.Decoder.ReadShorts | LAB_PWM/play_music/libsndfile-1.0.28/src/dwvw.c:187-213 | Reading 16-bit numbers through a fixed buffer gives the upper halves of what the calls of that size give, up to the first short one, from any state. |
| DwvwCodec.WriteCloseReadShorts | LAB_PWM/play_music/libsndfile-1.0.28/src/dwvw.c:187-213 | Running encoder, close and the reader of 16-bit numbers through its buffer of 2048: below 14 bits the upper halves of the masked samples come back; from 16 bits on they do exactly when a single call would lose nothing and the last chunk begins with half a width of bits, and otherwise fewer numbers come back. |
| DwvwLossless.CloseLosesNothing | LAB_PWM/play_music/libsndfile-1.0.28/src/dwvw.c:137-148 | Whatever was encoded before, the closing samples push every bit of it into whole bytes of the file; of the bits left over, at most seven, each belongs to the closing samples. |
| DwvwLossless.FoldKeepsDelta | LAB_PWM/play_music/libsndfile-1.0.28/src/dwvw.c:489-517 | The folded delta is the wanted delta itself when that is at most the largest magnitude either way, and else the span less or more; its magnitude is below the largest, it is negative exactly when its value is below zero, and there is an escape bit exactly at the largest magnitude. |
| DwvwLossless.ModifierReachesWidth | LAB_PWM/play_music/libsndfile-1.0.28/src/dwvw.c:519-528 | The width modifier is the difference of the widths when that is at most half the sample width either way, and else exactly one sample width away from it; it brings the decoder from the old delta width to the new one modulo the sample width. |
| DwvwFormat.CodewordBits | LAB_PWM/play_music/libsndfile-1.0.28/src/dwvw.c:489-550 | Every bit of every codeword, from the numbers: as many zeros as the width changes by, the shorter way around, a one unless they are half the sample width, a bit set for a fall, then the size below its leading one, the sign, and at the largest size the extra bit. The memory then holds the sample and the width. |
| DwvwFormat.DecodedMemory | LAB_PWM/play_music/libsndfile-1.0.28/src/dwvw.c:325-345 | Whatever the input, the new width is the old one plus the change modulo the sample width, and the new sample is the old one plus the delta, brought into range by at most one span. |
| DwvwFormat.CutShort | LAB_PWM/play_music/libsndfile-1.0.28/src/dwvw.c:328-338 | A delta whose low bits are missing counts as one down where its sign bit is there and clear, and else as one up. |
| DwvwFormat.MissingSign | LAB_PWM/play_music/libsndfile-1.0.28/src/dwvw.c:321-322 | The sign of a width change is negative when its bit is set and also when that is missing. |
| DwvwFormat.UpAndDownFile | LAB_PWM/play_music/libsndfile-1.0.28/src/dwvw.c:519-545 | The five bytes of a file with one sample of 0x800000 at 16 bits: eight zeros with no one behind them and a clear sign bit where the width changes by exactly half the sample width. |
| Bits.PackedAt | LAB_PWM/play_music/libsndfile-1.0.28/src/dwvw.c:435-441 | Each eight bits are one byte, the first counting most, wherever it stands. |
| Bits.StreamBitAt | LAB_PWM/play_music/libsndfile-1.0.28/src/dwvw.c:388-401 | Bits are taken from the top of each byte. |
| DwvwLossless.CodewordDecodes | LAB_PWM/play_music/libsndfile-1.0.28/src/dwvw.c:313-356 | With the bits of one codeword in front, the decoder's memory becomes the encoder's and exactly that codeword is consumed. |
| DwvwLossless.DecodeWide | LAB_PWM/play_music/libsndfile-1.0.28/src/dwvw.c:305-359 | From any encoder state in step with the decoder, at 16 bits and more, all samples whose bits are present come back. |
| DwvwLossless.DecodeNarrow | LAB_PWM/play_music/libsndfile-1.0.28/src/dwvw.c:305-359 | Below 16 bits all samples come back but possibly the last, which needs half a width of bits behind it. |
| Dwvw.DecoderInRange | LAB_PWM/play_music/libsndfile-1.0.28/src/dwvw.c:313-356 | Any input whatsoever leaves the sample in [-2^(w-1), 2^(w-1)) and the delta width in [0, w). |
| DwvwCodec.Encoder.StoreBits | LAB_PWM/play_music/libsndfile-1.0.28/src/dwvw.c:428-449 | The bits written so far grow by exactly the low bits of the data, most significant first; at most seven bits stay in the reservoir and the staging index stays below 253, for all widths. |
| DwvwCodec.Encoder.EncodeData | LAB_PWM/play_music/libsndfile-1.0.28/src/dwvw.c:483-555 | The loop over samples appends their codewords and leaves the memory the codec function says. |
| DwvwCodec.Encoder.EncodeSample | LAB_PWM/play_music/libsndfile-1.0.28/src/dwvw.c:489-550 | One sample: delta, folding, width, modifier and payload together append one codeword. |
| DwvwCodec.Encoder.Fold | LAB_PWM/play_music/libsndfile-1.0.28/src/dwvw.c:491-517 | The branches on the delta compute the folded delta: its value, its sign and when it has an extra bit are said in numbers. |
| DwvwCodec.Encoder.WidthModifier | LAB_PWM/play_music/libsndfile-1.0.28/src/dwvw.c:519-527 | The remainder and the two corrections give the difference of the widths, one sample width away from it exactly when it is more than half of that. |
| DwvwCodec.Encoder.HighestBit | LAB_PWM/play_music/libsndfile-1.0.28/src/dwvw.c:473-480 | The shifting loop computes the length of the magnitude in bits. |
| DwvwCodec.Encoder.Close | LAB_PWM/play_music/libsndfile-1.0.28/src/dwvw.c:137-148 | The closed file is the packed bits of everything written and twelve zero samples. |
| DwvwCodec.Decoder.LoadBits | LAB_PWM/play_music/libsndfile-1.0.28/src/dwvw.c:362-413 | Reading n bits, or a unary count ended by a one, takes exactly those bits off the input, refilling the 256-byte buffer as it goes; the reservoir never holds more than 29 bits, for any input. |
| DwvwCodec.Decoder.DecodeData | LAB_PWM/play_music/libsndfile-1.0.28/src/dwvw.c:305-359 | One call gives the samples, the memory and the remaining input of the decoding function, with its three early ends. |
| DwvwCodec.Decoder.Refill | LAB_PWM/play_music/libsndfile-1.0.28/src/dwvw.c:388-394 | Refilling the staging buffer changes nothing of what is still to be read, and finds nothing exactly at the end. |
| DwvwCodec.Decoder.Rewind | LAB_PWM/play_music/libsndfile-1.0.28/src/dwvw.c:154-172 | Going to the start puts the decoder back into its first state with the whole file ahead. |
| DwvwCodec.WriteCloseRead | LAB_PWM/play_music/libsndfile-1.0.28/tests/dwvw_test.c:52-108 | Running encoder, close and decoder on the heap gives back the masked samples if and only if the list is not lost. |
| AlacSeek.SeekAgrees | LAB_PWM/play_music/libsndfile-1.0.28/src/alac.c:589-633 | In a well-formed file, seeking to any frame below the total that the 32-bit limit admits and then reading in any split gives what reading from the start gives after dropping that many frames. |
| AlacSeek.SeekLands | LAB_PWM/play_music/libsndfile-1.0.28/src/alac.c:596-630 | After a seek exactly the samples from that frame on are still to be read; a frame above count * frames_per_block modulo 2^32 is refused and nothing moves; no frame below the total is refused when that product does not wrap. |
| AlacStream.SeekRefused | LAB_PWM/play_music/libsndfile-1.0.28/src/alac.c:589-633 | In any state: which seeks are refused, and that a refused one changes nothing. |
| AlacStream.SeekKeepsPlace | LAB_PWM/play_music/libsndfile-1.0.28/src/alac.c:613-630 | A seek that is not refused takes the place in the block from the frame, decoded or not; when the packet cannot be decoded the old block stays under it. |
| AlacStream.ReadTakes | LAB_PWM/play_music/libsndfile-1.0.28/src/alac.c:490-517 | A read of m frames hands out the next m frames of the file, fewer only when they are the last, and leaves the rest to be read. |
| AlacStream.ReadManyTakes | LAB_PWM/play_music/libsndfile-1.0.28/src/alac.c:490-517 | Any sequence of reads hands out one contiguous stretch. |
| AlacStream.FetchInStep | LAB_PWM/play_music/libsndfile-1.0.28/src/alac.c:404-435 | While the file position is the data offset plus the sizes before the next packet, decoding takes that packet and stays in step; it fails exactly when no packet is left. |
| AlacStream.FetchFails | LAB_PWM/play_music/libsndfile-1.0.28/src/alac.c:404-435 | In any state and any file: a packet is decoded if and only if there is one, its size is not zero and fits the byte buffer, and all of it is in the file; otherwise it is passed over and nothing else changes. |
| AlacSeek.FrameInBlock | LAB_PWM/play_music/libsndfile-1.0.28/src/alac.c:613-614 | Quotient and remainder by the block length give the block that holds a frame and its place there. |
| AlacSeek.CalcFramesCounts | LAB_PWM/play_music/libsndfile-1.0.28/src/alac.c:377-401 | The frames counted when a file is opened are those of all packets if and only if there is at most one packet, or the table's length in full blocks stays below 2^32, or the last packet holds no frames and the others stay below it. |
| AlacStream.NothingCounted | LAB_PWM/play_music/libsndfile-1.0.28/src/alac.c:377-401 | With no file, no table or a first size of zero, no frames are counted, and where the table then stands. |
| AlacStream.WalkStops | LAB_PWM/play_music/libsndfile-1.0.28/src/alac.c:383-388 | The walk over the table stops behind the first size that is zero or not below the file's length, and no sooner. |
| AlacSeek.LongFileFails | LAB_PWM/play_music/libsndfile-1.0.28/src/alac.c:611-614 | A well-formed file of more than 2^20 packets: its last frame cannot be sought and the frames counted at opening are not those it has. |
| AlacReader.Reader.DecodeBlock | LAB_PWM/play_music/libsndfile-1.0.28/src/alac.c:404-435 | Decoding a block moves packet number, file position, block and place as the function says, on every success and failure. |
| AlacReader.Reader.ReadInts | LAB_PWM/play_music/libsndfile-1.0.28/src/alac.c:490-517 | The read loop fills the caller's array with what the function reads, whatever the file and the length, and touches nothing behind it. |
| AlacReader.Reader.Seek | LAB_PWM/play_music/libsndfile-1.0.28/src/alac.c:589-633 | The result and the whole new state of a seek, refused or not. |
| AlacReader.Reader.CalcFrames | LAB_PWM/play_music/libsndfile-1.0.28/src/alac.c:377-401 | The counting loop, the seek and the two decodes give the function's count and state. |
| AlacTable.TableRoundTrip | LAB_PWM/play_music/libsndfile-1.0.28/src/alac.c:804-933 | The table that was encoded, padded and stored is decoded to the same sizes, with one zero behind them exactly when padding was added; a size of zero ends the table there. |
| AlacTable.SizeReadsBack | LAB_PWM/play_music/libsndfile-1.0.28/src/alac.c:899-925 | The one to four bytes of a size below 2^28 are read back as that size, all of them and no more. |
| AlacTable.HeaderDescribes | LAB_PWM/play_music/libsndfile-1.0.28/src/alac.c:890-892 | The four fields in front of the table, read from their bytes as big-endian numbers, whatever follows. |
| AlacTable.SizeLayout | LAB_PWM/play_music/libsndfile-1.0.28/src/alac.c:899-925 | The groups of seven bits of a stored size denote it, the first counting most; only the last byte has its top bit clear, and no byte in front is wasted on zero. |
| AlacTable.StoredIsAligned | LAB_PWM/play_music/libsndfile-1.0.28/src/chunk.c:233-249 | A stored chunk ends at the next multiple of four bytes, with zeros behind the chunk as it was. |
| AlacTable.FiveBytes | LAB_PWM/play_music/libsndfile-1.0.28/src/alac.c:844-861 | A number of five bytes, below 2^35, is kept modulo 2^32. |
| AlacTable.OverlongIsZero | LAB_PWM/play_music/libsndfile-1.0.28/src/alac.c:850-858 | Five bytes that go on and one more are taken as a zero, which ends the table. |
| AlacTable.TruncatedIsZero | LAB_PWM/play_music/libsndfile-1.0.28/src/alac.c:850-858 | A number the chunk ends in is taken as a zero, one byte past the end. |
| AlacTable.PacketTable.Append | LAB_PWM/play_music/libsndfile-1.0.28/src/alac.c:786-801 | Appending adds one size behind the others, and a table with room for two or more is never overrun. |
| AlacTable.PacketTable.NextPacketSize | LAB_PWM/play_music/libsndfile-1.0.28/src/alac.c:370-374 | The next size, and zero past the end without moving. |
| AlacTable.PacketTable.BlockOffset | LAB_PWM/play_music/libsndfile-1.0.28/src/alac.c:936-944 | The loop sums the sizes before a block. |
| AlacTable.PacketTable.Encode | LAB_PWM/play_music/libsndfile-1.0.28/src/alac.c:877-933 | The chunk says the number of packets in its first eight bytes, the frames in the next eight, zero in four and 4096 less the frames of the partial block in four, the most significant byte first, and the encoded sizes follow; this exactly when every size is below 2^28 and the encoding fits the 100 + 2 * count bytes set aside. Whether it would be written past them is reported. |
| AlacTable.OverrunsExactly | LAB_PWM/play_music/libsndfile-1.0.28/src/alac.c:886-925 | The encoding goes past the bytes set aside if and only if the sizes of three bytes, plus twice those of four, are more than 76 above the sizes of one byte. |
| AlacTable.LargePacketsOverrun | LAB_PWM/play_music/libsndfile-1.0.28/src/alac.c:886-917 | Packets of 16384 bytes up to 2 MB overrun it from the 77th on. |
| AlacTable.PacketTable.ReadDecode | LAB_PWM/play_music/libsndfile-1.0.28/src/alac.c:804-874 | The nested loops decode any chunk to the table that the function reads, truncated and over-long numbers included. |
| AlacWriter.Writer.WriteInts | LAB_PWM/play_music/libsndfile-1.0.28/src/alac.c:671-699 | Whatever the split into calls, everything written is in the blocks encoded so far and the one being filled, in order. |
| AlacWriter.Writer.EncodeBlock | LAB_PWM/play_music/libsndfile-1.0.28/src/alac.c:439-453 | A block's bytes go behind the others in the temporary file and their number into the table. |
| AlacWriter.Writer.Close | LAB_PWM/play_music/libsndfile-1.0.28/src/alac.c:165-221 | The finished blocks concatenate to all that was written, all but the last are full, and each table entry is the byte length of its block, always; the stored chunk is the padded table when that is encodable and fits the bytes set aside, its first 24 bytes saying the packets, the frames and 4096 less those of the partial block, and else which of the two failed is told. |
| AlacRoundTrip.WriteThenRead | LAB_PWM/play_music/libsndfile-1.0.28/src/alac.c:165-221 | A file left behind by the writer is well formed for the reader when the codec undoes itself on the blocks, and reading it gives the samples of the blocks; the trailing zero of a padded table does no harm. |
| AlacSession.OneBlocking | LAB_PWM/play_music/libsndfile-1.0.28/src/alac.c:671-699 | There is only one way to cut samples into blocks that are full but for the last, so the writer's blocks do not depend on its calls. |
| AlacSession.WriteCloseRead | LAB_PWM/play_music/libsndfile-1.0.28/src/alac.c:165-305 | Running writer, close, table decoding, frame count, seek and reader on the heap, with a codec that undoes itself on the blocks of what is written: unless the table of exactly these blocks overruns its room, all that was written is read; with two blocks of room below 2^32 frames, the count is right and a seek to any frame gives the samples from it on. |
| AlacPcm.PcmWorks | LAB_PWM/play_music/libsndfile-1.0.28/src/alac.c:439-453 | What is asked of the codec can be met: samples stored as four bytes each meet it for up to eight channels and any 32-bit samples. |
| SensorTheorems.SortedIsOrdered | LAB_Server_Client/src/processing_linked_list.c:17-93 | The two selection passes give a permutation of the whole records in order of id, then time. |
| SensorTheorems.SortedStays | LAB_Server_Client/src/processing_linked_list.c:17-93 | Sorting a sorted list moves nothing, not even among equal records. |
| SensorTheorems.EventsPerId | LAB_Server_Client/src/processing_linked_list.c:95-137 | One event for every id with at least five records, about the first five of its group, and none for another. |
| SensorTheorems.EventAverages | LAB_Server_Client/src/processing_linked_list.c:115-137 | Of five records: five times the event's temperature is the sum of theirs; too hot exactly when that sum is above 80, too cold exactly when it is below 70; and five times its time is the sum of their times but for a remainder below five. |
| SensorTheorems.EventsReport | LAB_Server_Client/src/processing_linked_list.c:95-143 | In an ordered list every id with five records or more has one event, about the first five, and the others have none. |
| SensorTheorems.FlaggedPerId | LAB_Server_Client/src/processing_linked_list.c:139-139 | Marking flags the first record of each group of five or more and nothing else. |
| SensorTheorems.SlidingWindow | LAB_Server_Client/src/processing_linked_list.c:17-197 | One data pass and one store pass over an unmarked list, for every id: the event is about the five records of smallest time, five times its temperature being their sum and its verdict the one of that mean, and the record of smallest time, no other, goes from the list to the file. |
| SensorTheorems.FourAtRest | LAB_Server_Client/src/processing_linked_list.c:6-197 | If both passes follow every insertion, an id holds as many records as it sent but never more than four. |
| SensorTheorems.DataPassTwice | LAB_Server_Client/src/processing_linked_list.c:17-143 | A second data pass before the store pass changes nothing. |
| SensorTheorems.BurstLeavesBacklog | LAB_Server_Client/src/processing_linked_list.c:95-197 | Of the passes as functions: any number of data passes followed by as many store passes takes one record of an id from the list, however many arrived. |
| SensorNodes.SensorList.Save | LAB_Server_Client/src/processing_linked_list.c:6-15 | A new unmarked node in front of the same nodes. |
| SensorNodes.SensorList.SwapValues | LAB_Server_Client/src/processing_linked_list.c:34-50 | All four values of two nodes change places; nodes and links stay. |
| SensorNodes.SensorList.Sort | LAB_Server_Client/src/processing_linked_list.c:17-93 | The nested loops terminate on every list and leave the sorted records in the same nodes with the same links. |
| SensorNodes.SensorList.SortOneGroup | LAB_Server_Client/src/processing_linked_list.c:61-91 | The loop over one group sorts it by time and stops at the first node of another id. |
| SensorNodes.SensorList.FindLeastId | LAB_Server_Client/src/processing_linked_list.c:23-32 | The inner loop finds the first node of smallest id. |
| SensorNodes.SensorList.FindLeastTime | LAB_Server_Client/src/processing_linked_list.c:64-73 | The inner loop finds the first node of smallest time in the rest of the group. |
| SensorNodes.SensorList.Average | LAB_Server_Client/src/processing_linked_list.c:95-143 | The events and the marks of one pass over the groups; for every id with five records or more one event, with the mean, the verdict and the time in numbers, if the list is ordered. |
| SensorNodes.SensorList.SumGroup | LAB_Server_Client/src/processing_linked_list.c:100-114 | The sums of the first five records of a group, and where it ends. |
| SensorNodes.SensorList.Copy | LAB_Server_Client/src/processing_linked_list.c:145-168 | The marked records go behind the file's, in order; nothing when it cannot be opened. |
| SensorNodes.SensorList.Remove | LAB_Server_Client/src/processing_linked_list.c:170-197 | The marked nodes are unlinked; the others stay, the same nodes in the same order with their values. |
| SensorNodes.SensorList.ManageData | LAB_Server_Client/server.c:131-149 | The data manager's critical section is one data pass, and its events are about the first five records of every id that has them, in numbers. |
| SensorNodes.SensorList.ManageStore | LAB_Server_Client/server.c:151-167 | The store manager's critical section writes the marked records out and takes them away. |
| Gateway.StepKeepsInv | LAB_Server_Client/server.c:131-167 | Every step of every thread keeps the invariant: mutex ownership, conservation of readings, marks covered by a token, and the two counts of passes due. |
| Gateway.RunsKeepInv | LAB_Server_Client/server.c:125-167 | So does every interleaving of any length. |
| Gateway.OneInside | LAB_Server_Client/server.c:142-145 | At most one thread is in its critical section, and one is exactly when the mutex is held. |
| Gateway.NothingIsLost | LAB_Server_Client/server.c:125-167 | In every interleaving, at rest: nothing is marked, every insertion has had one data pass and one store pass, and every reading is in the list, in the file or dropped, once. List and file hold all readings, at rest and, but for those just copied, at any moment, if and only if no executed step has removed marked records after a failed open. |
| Gateway.DropsOnlyByLosing | LAB_Server_Client/src/processing_linked_list.c:145-197 | From the start, a run drops nothing if and only if no step of it removes marked records that could not be written. |
| Gateway.FailedOpenDrops | LAB_Server_Client/src/processing_linked_list.c:145-153 | In any state of the invariant, removing marked records after a failed open leaves readings that are neither in the list nor in the file. |
| Gateway.KeepsMarksCovered | LAB_Server_Client/server.c:131-167 | Marked records are there only while a store token is posted, about to be posted, or taken and not yet used. |
| Gateway.SomeThreadCanStep | LAB_Server_Client/server.c:125-167 | While any work is due, some thread can take a step: no deadlock. |
| Gateway.StepDoesWork | LAB_Server_Client/server.c:125-167 | Each thread step lowers the work due by one, and only a new reading adds to it. |
| Gateway.ComesToRest | LAB_Server_Client/server.c:125-167 | From every state of the invariant the threads can come to rest, in as many steps as there is work. |
| Gateway.TurnsSlideTheWindow | LAB_Server_Client/src/socket_server.c:151-157 | Readings that each come in at rest: whatever the interleaving, the list is that of the passes made in turn, and every id holds as many records as it sent, but at most four. |
| GatewayWindow.WindowKept | LAB_Server_Client/server.c:125-167 | Every run: the unmarked records of an id and the data passes together are as many as its readings and the data passes that marked none of it. At rest, the id holds four records or fewer if and only if these readings and passes are at most four more than all readings, and never more than it sent. |
| GatewayWindow.MarkPerId | LAB_Server_Client/src/processing_linked_list.c:95-143 | Seen from one id, marking the sorted list marks the first of its records if they are five or more, and nothing else. |
| GatewayWindow.EventsOfRuns | LAB_Server_Client/server.c:131-149 | In every run the events of an id are one for each time a data pass came upon five records of it or more, in that order, each about the five of smallest time then in the list. |
| GatewayWindow.FileOnlyGrows | LAB_Server_Client/src/processing_linked_list.c:145-168 | In every run from any state, what has been written to the file stays, and in its place. |
| GatewayRuns.BurstBreaksTheWindow | LAB_Server_Client/server.c:131-167 | A run of the three threads from the start, with n readings of one sensor, then n data turns, then n store turns, comes to rest with n - 1 records of it for every n from five on. |
| GatewayRuns.BurstLosesAReading | LAB_Server_Client/src/processing_linked_list.c:145-153 | The same run with a file that never opens comes to rest with one reading neither in the list nor in the file. |
| Kitchen.StepKeeps | LAB_Producer_Consumer/main.c:167-364 | Every step of every process keeps the invariant of both buffers, for any number of processes and any capacity. |
| Kitchen.RunsAreSafe | LAB_Producer_Consumer/main.c:167-364 | Every state of every run satisfies the invariant. |
| Kitchen.RunsAccessSafely | LAB_Producer_Consumer/main.c:173-263 | In every run a producer that writes finds a free slot, and a consumer that reads gets 11 or 12 from the vegan buffer and 21 or 22 from the other. |
| Kitchen.RunsKeepKinds | LAB_Producer_Consumer/main.c:11-14 | In every run the vegan buffer holds only 11 and 12 and the other only 21 and 22, and zeros. |
| Kitchen.DrawDecides | LAB_Producer_Consumer/main.c:178-224 | An even draw makes 11 or 21, an odd one 12 or 22, by the buffer of the producer. |
| Kitchen.ProducerTurn | LAB_Producer_Consumer/main.c:173-195 | A producer left alone: all three semaphores after each of its five steps, the write between taking and giving back the mutex, and the meal announced before the mutex is given back. |
| Kitchen.ConsumerTurn | LAB_Producer_Consumer/main.c:243-263 | A consumer left alone, that of both included: the mutex is given back before the free slot is announced. |
| Kitchen.BothGivesUp | LAB_Producer_Consumer/main.c:309-337 | The consumer of both that times out on either buffer has changed nothing and starts over. |
| Kitchen.MutualExclusion | LAB_Producer_Consumer/main.c:175-192 | In every run at most one process is in the critical section of a buffer. |
| Kitchen.Accounting | LAB_Producer_Consumer/main.c:64-70 | In every run, everything made has been eaten or is in the buffer, as multisets, and empty, full and the processes in between add up to the capacity. |
| Kitchen.Progress | LAB_Producer_Consumer/main.c:301-364 | With a producer and a consumer of its own, a buffer always has some attached process that can move, even when timed waits count as blocking. |
| Kitchen.RunsNeverStick | LAB_Producer_Consumer/main.c:167-364 | So no run ever gets stuck on such a buffer. |
| Slots.WriteToBuffer | LAB_Producer_Consumer/main.c:128-138 | The loop puts the item into the lowest free slot, and nowhere when there is none. |
| Slots.ReadFromBuffer | LAB_Producer_Consumer/main.c:140-152 | The loop takes the item out of the lowest filled slot, and returns 0 when there is none. |
| Slots.WriteAdds | LAB_Producer_Consumer/main.c:128-138 | With a free slot, the contents grow by exactly the item. |
| Slots.ReadRemoves | LAB_Producer_Consumer/main.c:140-152 | With an item there, the contents lose exactly the item returned. |
| Slots.FirstPlace | LAB_Producer_Consumer/main.c:128-152 | Writing changes the first free place only, reading the first filled one only; without one nothing changes and 0 is read. |
| HeaderSession.WriteThenRead | LAB_PWM/play_music/libsndfile-1.0.28/src/common.c:545-1130 | Printing items into one buffer and reading the result back through another by the same format: when all was written, every argument comes back reduced to its field and all bytes are counted, if and only if the last item is not raw bytes that fill the buffer up to its limit; if it is, zeros come back for it and its bytes are not counted. |
| HeaderSession.GrantedAgain | LAB_PWM/play_music/libsndfile-1.0.28/src/common.c:733-846 | The reader is granted room for a format exactly when the writer was and did not end with such an item, from any place and with buffers of equal length: the writer grows when a raw field goes beyond the buffer, the reader when it reaches its end. |
| HeaderSession.TwoHalvesFill | LAB_PWM/play_music/libsndfile-1.0.28/src/common.c:733-846 | Two raw items of 51200 bytes are such a case: they are written whole from a fresh buffer. |
| HeaderReader.PrintThenRead | LAB_PWM/play_music/libsndfile-1.0.28/src/common.c:545-791 | The bytes a format prints, wherever they stand in a file, read straight from it by the same format: every argument reduced to its field, as many bytes counted as were printed. |
| HeaderFormat.ParsePrinted | LAB_PWM/play_music/libsndfile-1.0.28/src/common.c:944-1083 | Parsing the printed bytes, whatever follows them, takes exactly these and gives every argument back reduced to its field, under every sequence of byte-order switches. |
| HeaderFormat.FieldReadsBack | LAB_PWM/play_music/libsndfile-1.0.28/src/common.c:470-538 | A number written into 1 to 8 bytes in either order is read back modulo its width, signed for eight bytes only. |
| HeaderBytes.FieldByteAt | LAB_PWM/play_music/libsndfile-1.0.28/src/common.c:472-538 | The byte of each weight is the one at its place from the end in big-endian order, and from the front in little-endian. |
| HeaderBytes.FieldDenotes | LAB_PWM/play_music/libsndfile-1.0.28/src/common.c:1001-1043 | Any bytes are read as the number they denote in that order; only eight bytes are signed. |
| HeaderBytes.LastSwitchWins | LAB_PWM/play_music/libsndfile-1.0.28/src/common.c:966-973 | The order behind a format is that of its last switch. |
| HeaderBytes.PrintedOrder | LAB_PWM/play_music/libsndfile-1.0.28/src/common.c:569-660 | In any printed items, the bytes of a number behind a switch to big-endian order are the most significant first, behind one to little-endian the least; those of a marker always the least. |
| HeaderBytes.ParsedOrder | LAB_PWM/play_music/libsndfile-1.0.28/src/common.c:966-1043 | In any parsed bytes, a number is what its bytes denote in the order of the last switch before it, and the values around it are as they would be without it. |
| HeaderFormat.FittingIsKept | LAB_PWM/play_music/libsndfile-1.0.28/src/common.c:992-1043 | A number that fits its field comes back as it is. |
| HeaderReader.ReadF | LAB_PWM/play_music/libsndfile-1.0.28/src/common.c:944-1130 | For steps inside the file the reading loop gives what the steps give through the buffer: where no room is granted it ends with the size or offset used last, a raw read that is refused gives zeros and moves nothing. While growth is granted wherever a step needs it, jumps included, that is what reading straight from the file gives. |
| HeaderReader.GrantedReads | LAB_PWM/play_music/libsndfile-1.0.28/src/common.c:944-1130 | While growth is granted the buffer is never seen: the steps give the same through it and straight from the file. |
| HeaderReader.CountIsDistance | LAB_PWM/play_music/libsndfile-1.0.28/src/common.c:1107-1117 | The count returned is the way from the first place to the last, and behind any jump from the start it is the last place itself. |
| HeaderReader.RefusedCount | LAB_PWM/play_music/libsndfile-1.0.28/src/common.c:963-964 | Where the loop ends for want of room it returns the last size or offset of the steps made instead of the count. |
| HeaderReader.ReachIsGranted | LAB_PWM/play_music/libsndfile-1.0.28/src/common.c:60-66 | Growth is granted to all steps that go no further than a quarter of the limit, whatever the length of the buffer. |
| Header.Buffer.Read | LAB_PWM/play_music/libsndfile-1.0.28/src/common.c:841-860 | With the cache in step, a read gives the bytes at the logical position and keeps it in step; past the end of the file or without room it takes nothing. The buffer's new length is given for every call. |
| Header.Buffer.SeekSet | LAB_PWM/play_music/libsndfile-1.0.28/src/common.c:867-879 | An absolute jump sets the logical position whenever it fits the buffer, growth granted or not, and keeps the cache in step exactly when it stays inside the file; one that does not fit moves only the file's own position. |
| Header.Buffer.SeekCur | LAB_PWM/play_music/libsndfile-1.0.28/src/common.c:881-906 | A jump forwards or backwards from inside the buffer to a place inside buffer and file keeps the cache in step, growth granted or not; one that does not fit the buffer moves index and file apart. |
| Header.Buffer.Bump | LAB_PWM/play_music/libsndfile-1.0.28/src/common.c:56-77 | Growth keeps all bytes, gives the computed length, and is denied above the limit without changing anything. |
| Header.OneGrowthIsEnough | LAB_PWM/play_music/libsndfile-1.0.28/src/common.c:60-60 | One growth always makes room for the bytes asked for, from any index in the buffer, with one to spare. |
| Header.GrowthDoubles | LAB_PWM/play_music/libsndfile-1.0.28/src/common.c:56-66 | A growth doubles the larger of length and need, and is granted if and only if neither is above 51200. |
| Header.LastRoom | LAB_PWM/play_music/libsndfile-1.0.28/src/common.c:563-564 | At the limit an item other than raw bytes is written if and only if more than 16 bytes are left. |
| Header.Buffer.WriteF | LAB_PWM/play_music/libsndfile-1.0.28/src/common.c:545-791 | The printing loop appends the function's bytes and counts them, stopping where growth is denied; what the bytes are is said by `HeaderBytes.PrintedOrder`. |
| Header.PrintsSomeItems | LAB_PWM/play_music/libsndfile-1.0.28/src/common.c:563-564 | Whatever growth is denied, what is written are whole first items, and all of them when nothing is denied. |
| Header.SmallHeadersFit | LAB_PWM/play_music/libsndfile-1.0.28/src/common.c:60-66 | A header that ends 16 bytes below half the limit is always written whole. |
| SampleRate.RateRoundTrip | LAB_PWM/play_music/libsndfile-1.0.28/src/aiff.c:1762-1819 | Encoding a 32-bit rate and decoding it gives it back if and only if it is from 1 to 2^30 - 1. |
| SampleRate.EncodeIsExact | LAB_PWM/play_music/libsndfile-1.0.28/src/aiff.c:1787-1819 | For the rates from 1 to 2^30 - 1 the ten bytes stand for exactly that number as an extended float. |
| SampleRate.DecodeIsFloor | LAB_PWM/play_music/libsndfile-1.0.28/src/aiff.c:1762-1785 | Of all normalised numbers that are not negative, exactly those from 1 up to 2^30 are decoded to their whole part. |
| SampleRate.DecodeOfAny | LAB_PWM/play_music/libsndfile-1.0.28/src/aiff.c:1762-1785 | What any ten bytes are decoded to: 0 below zero, 1 below two, the whole part up to 2^30, normalised or not, then 800000000, and 2^26 for the largest exponents. |
| SampleRate.EncodeOutside | LAB_PWM/play_music/libsndfile-1.0.28/src/aiff.c:1787-1800 | 0 is stored as 1 is, and a rate of 2^30 or more as ten bytes that denote zero and are decoded to 800000000. |
| SampleRate.UintToTenByteFloat | LAB_PWM/play_music/libsndfile-1.0.28/src/aiff.c:1787-1819 | The loop and the shifts fill the ten bytes with the encoding. |
| SampleRate.FindTopBit | LAB_PWM/play_music/libsndfile-1.0.28/src/aiff.c:1804-1808 | The loop over the mask finds the highest bit set. |
| Interleave.MergeThenSplit | LAB_PWM/play_music/libsndfile-1.0.28/programs/sndfile-deinterleave.c:160-176 | Splitting the merged file gives back every channel, with silence up to the longest one, and as many frames as that has. |
| Interleave.InterleaveInt | LAB_PWM/play_music/libsndfile-1.0.28/programs/sndfile-interleave.c:153-176 | Over any number of blocks and inputs of any lengths, the output is the merged frames up to the longest input. |
| Interleave.MergedAt | LAB_PWM/play_music/libsndfile-1.0.28/programs/sndfile-interleave.c:166-167 | Sample c of frame k is sample k of input c, or silence behind its end. |
| Interleave.DeinterleaveInt | LAB_PWM/play_music/libsndfile-1.0.28/programs/sndfile-deinterleave.c:160-176 | Over any number of blocks, output c is channel c of every whole frame. |
| Interleave.PutChannel | LAB_PWM/play_music/libsndfile-1.0.28/programs/sndfile-interleave.c:166-167 | One channel's samples go to their places in every frame and no other place changes. |

## Left out

- DwvwTheorem.Lossless: widths below 4, which no file format uses, are covered only by the codeword lemmas and the range invariant.
- DwvwCodec.WriteCloseReadShorts: at 14 and 15 bits the samples are those of one decode call, of which `DwvwTheorem.Lossless` says what is missing.
- DwvwCodec.Encoder.EncodeData: writes to the file are always complete; the short, float and double variants only convert samples before and after.
- DwvwCodec.Decoder.Rewind: seeking elsewhere than to the start is refused by the source and not modelled.
- The number of frames of a DWVW file, found by decoding it once, is not modelled.
- AlacSeek.SeekAgrees: at exactly count * frames_per_block, and after a packet that cannot be read, the source keeps a stale block; the state is modelled, agreement is claimed below the total only.
- AlacStream.ReadTakes: reads are of whole frames, as the callers check; the reading function itself takes any length.
- AlacTable.PacketTable.Append: memory is always granted and the capacity does not wrap.
- AlacTable.PacketTable.Encode: where the source would write past the bytes set aside, the method stops and says so; what the source does then is not modelled.
- AlacWriter.Writer.EncodeBlock: the early returns on a short write to the temporary file and on a failed growth of the table are not modelled; both are failures of the environment.
- AlacWriter.Writer.WriteInts: the short, float and double variants only convert samples.
- AlacWriter.Writer.Close: the magic cookie chunk is not modelled.
- AlacSession.WriteCloseRead: how the header stores and finds the packet table chunk is not modelled; the chunk goes from writer to reader as it is, and the temporary file is copied behind the header whole.
- SensorNodes.SensorList.Average: sums are exact; printed rounding, the log and its sequence number are not modelled.
- SensorNodes.SensorList.Copy: a line of the file is the record it was printed from, not its digits.
- SensorNodes.SensorList.Remove: freeing memory is not modelled; an unlinked node is no longer reachable from the head.
- Gateway.NothingIsLost: sockets, parsing of a reading, the log, signals and shutdown are environment; posts do not overflow.
- Kitchen.RunsNeverStick: sleeps, forks, shared-memory set-up and signals are environment; no order or fairness among waiting processes is claimed, since the code takes the lowest slot.
- Header.Buffer.Bump: memory is always granted below the limit.
- HeaderReader.ReadF: after a step outside the file, or a jump that is denied room and does not fit the buffer, only the buffer's bounds are claimed.
- HeaderFormat.ParsePrinted: the specifiers s, S, p, h, z, o, t, T, f and d are not symmetric between writer and reader and are left out.
- Interleave.InterleaveInt: reads are short only at the end of a file and writes are complete; the double variants differ only in type.
- The rest of libsndfile, its other codecs and formats, and the GPIO, PWM, menu and exercise code of the labs: thin wrappers or finite tables.
