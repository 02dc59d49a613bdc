# Verified model of PIF's codecs, actuators and CAN stream

PIF is a C framework for small microcontrollers. This project models the four parts of it whose correctness is hardest
to see from the code, and proves what they promise. The modules follow the program:

- **Huffman coding, end to end.** `HuffmanMerge` is the heap loop of the table generator, `HuffmanOptimality` and
  `HuffmanRuns` prove it optimal for any way of breaking ties, `HuffmanTies` what the tool's way of breaking them does,
  `HuffmanDepth` how much weight a deep code takes, `LimitedLengths` that flattening the weights ends with codes of at
  most 16 bits, `UnseenValues` which codes the values get that never occur, `CanonicalCodes` and `HuffmanTable` that the
  table is prefix-free and complete, `PrefixCodes` that no prefix-free table is better, `HuffmanCode` what a bit stream
  means, and `HuffmanCodec` is the encoder and the decoder of the firmware. `Numbers`, `Kraft`, `Bits` and `Seqs` hold
  the arithmetic.
- **COBS, varints and zigzag.** `Cobs` says block by block what the encoding means, `CobsCodec` is the encoder and the
  batch decoder that may run in place, `CobsStream` the byte-at-a-time decoder, `CobsWire` whole streams. `Varint` has
  the compact integers.
- **Deadlines on a wrapping clock.** `SolenoidSpec` and `SolenoidRuns` tell in absolute times what a solenoid channel
  does, and `SolenoidEffects` what that means for those who give orders: when which ON and OFF is driven, over whole
  runs; `SolenoidChannel` and `Solenoid` are the code, with 32-bit clock values and a queue of differences, shown to do
  exactly that. `ServoMath`, `ServoSpec`, `ServoChannel` and `Servo` do the same for the servo driver; `ServoCurves`
  tells in plain arithmetic where a move is at any time, `ServoEffects` what each command does, and `ServoEvents` how
  every move ends. `Clock` has the 32-bit microsecond clock, `Words` the integers of C.
- **A byte stream over CAN.** `RingData` is the queue whose writer may interrupt its reader, `CanFrames` the frames and
  their lengths, `CanRuns` a run of the receive task as a function of when frames arrive, `Can` the controller with its
  interrupts, `CanCounts` and `CanStream` the stream, `CanNode` a controller with its clients and tasks, and `CanLink`
  two nodes on a bus and whatever they do in any order. `Marked` and `CanData` hold the lists.

What changes in place in the source is a class or an array here, and each method is proved against a function or a
sequence that the lemmas are about. Fields marked `ghost` record what the outside has seen (bits sent, pulses given,
frames delivered) and are what the theorems speak of. Time is an argument: where the source reads the clock, a method
takes the reading and, as a ghost argument, the absolute time it stands for.

Where the code and what is written about it differ, the model follows the code:

- `pifEncoding_CobsEncode` writes one byte past its destination exactly when the frame ends in a full block and the
  destination has just the length of the encoding (`CobsCodec.CobsEncode`, `CobsCodec.WritesPast`). A destination of
  `PIF_COBS_MAX_ENCODED` bytes, which the header asks for, is always enough (`CobsCodec.MaxEncodedIsEnough`), one of
  the exact length is not (`CobsCodec.ExactSizeIsNotEnough`).
- `tools/gen_huffman_table.py:10` says that values which never occur get the longest codes. That holds unless flattening
  makes a value that does occur as light as they are: then it may get a longer code than one that comes after it, and
  never than one before it (`UnseenValues.UnseenGetLongest`), as in the table made by `UnseenValues.UnseenGetsShorter`.
  Told from the counts alone: with less than 3925 * 2^k sample bytes it holds of every value that occurs 2^(k+1) - 1
  times or more (`UnseenValues.OftenEnoughKeepsPromise`), so of all of them up to 3924 bytes.
- The comment at `source/communication/pif_can.c:74` says that frames put while the receive task runs wait for the next
  run. The count there is the capacity of the queue and not its filling (`include/core/pif_ring_data.h:27`), so such
  frames may be handled in the same run. They wait if and only if the queue is full at the start, or no frame comes
  before the look that would find it empty (`CanRuns.WaitsForNextRun`); a queue for two frames with one in it and one
  that arrives is a run in which they do not (`CanRuns.DeliveredInSameRun`).
- `source/communication/pif_can_stream.c:137` says that a client that wrote something is asked again. It is not exactly
  when the number of bytes taken is a multiple of 65536, which can be told before the call from what is pending, the
  free slots, the frame size and what the client will write (`CanCounts.WhoWroteIsAskedAgain`); 65536 bytes in two
  writes into a queue for 1024 frames of 64 bytes are such a call (`CanStream.NotAskedAgain`).
- `include/actuator/pif_servo.h` says at lines 152 and 259 that `evt_arrive` is called when a move has reached its
  target. Only the task calls it. Once the time of a move has passed, the next step that concerns it ends it, and it
  goes unreported if and only if that step is a command (`ServoEvents.MissedExactly`, and over runs
  `ServoEvents.FirstStepDecides`). The header says so of `pifServo_SetAngle`, `SetPulse`, `Stop` and `Detach`, which
  stop a move without `evt_arrive`; it does not of `pifServo_MoveTo`, `MoveSync`, a new range, and `MoveAtSpeed` at any
  speed but 0, accepted or not (`ServoEvents.MissedAgainstContract`). They take the channel to the target before they
  end the move (`ServoEvents.MissedAtTarget`). Two such runs are `ServoEvents.NextMoveMisses` and
  `ServoEvents.RefusedMoveMisses`; when a refused command does this is told by `ServoEvents.RefusedEnds`.

## Model

| member | source | states |
|---|---|---|
| HuffmanMerge.HuffmanLengths | tools/gen_huffman_table.py:44-59 | The heap loop gives the lengths of joining the two least entries by weight, then order, until one is left |
| HuffmanMerge.DeepenInPlace | tools/gen_huffman_table.py:55-56 | The inner loop adds one for each time a symbol is listed |
| HuffmanMerge.Least | tools/gen_huffman_table.py:53-54 | What the heap pops: no other entry comes before it by weight and then order |
| HuffmanOptimality.TwoDeepest | tools/gen_huffman_table.py:52-58 | Any code that satisfies Kraft's inequality can be had, at no more cost, with two symbols of one deepest length |
| HuffmanOptimality.Exchange | tools/gen_huffman_table.py:52-58 | Giving a deepest place to a symbol no heavier than the one there keeps the Kraft sum and does not cost more |
| HuffmanOptimality.LightestDeepest | tools/gen_huffman_table.py:53-54 | The two lightest symbols may take the two deepest places of any rival code |
| HuffmanOptimality.JoinRival | tools/gen_huffman_table.py:53-57 | From any rival code, one for the weights with the two lightest joined, cheaper by at least these two weights |
| HuffmanRuns.MergeKeepsSound | tools/gen_huffman_table.py:52-58 | Merging any two entries keeps every entry a full subtree with the weight of its symbols, and each symbol in one of them |
| HuffmanRuns.MergeCost | tools/gen_huffman_table.py:55-57 | A merge raises the cost of the lengths by the weight of the entry it pushes |
| HuffmanRuns.MergeKeepsRival | tools/gen_huffman_table.py:52-58 | If some way to finish costs no more than a bound before merging the two lightest, one does after it |
| HuffmanRuns.RunSound | tools/gen_huffman_table.py:44-59 | Every state of every run that merges two lightest entries has the invariant |
| HuffmanRuns.RunOptimal | tools/gen_huffman_table.py:44-59 | However ties are broken, the lengths fill Kraft's inequality and cost no more than any lengths that satisfy it |
| HuffmanRuns.TieBreakingDoesNotMatter | tools/gen_huffman_table.py:46-47 | Two runs that break ties differently end at the same cost |
| HuffmanRuns.ToolRun | tools/gen_huffman_table.py:52-59 | The loop of the tool, with its order numbers, is one of these runs |
| HuffmanRuns.HuffmanCodeOptimal | tools/gen_huffman_table.py:44-59 | So for any weights, at least one, the tool's lengths fill Kraft's inequality and are optimal |
| HuffmanTies.StaysAhead | tools/gen_huffman_table.py:52-58 | Through a merge, of two symbols the one that comes off the heap first stays deeper, or as deep in an entry no later |
| HuffmanTies.FinishInStep | tools/gen_huffman_table.py:52-59 | From any state with that order the loop ends with it |
| HuffmanTies.SoonerNotShorter | tools/gen_huffman_table.py:46-47 | The tool's lengths follow its order: of any two symbols the lighter, or of equals the first, has no shorter a code |
| HuffmanDepth.MergeKeepsHeavy | tools/gen_huffman_table.py:52-58 | Every entry keeps the weight that its depth takes, and every other one that of the depth above |
| HuffmanDepth.DeepNeedsWeight | tools/gen_huffman_table.py:44-59 | A code of d bits takes a total weight of at least the Fibonacci number of d |
| HuffmanDepth.LightFits | tools/gen_huffman_table.py:69-71 | Weights of less than 4181 in all make no code above 16 bits |
| HuffmanDepth.ChainGrows | tools/gen_huffman_table.py:44-59 | In an optimal code a symbol heavier than all before it is one level above them |
| HuffmanDepth.OutgrowingMakesChain | tools/gen_huffman_table.py:69-73 | Weights that outgrow the sum of those before them make a chain, which is how a code gets too deep |
| LimitedLengths.EqualWeightsDepth | tools/gen_huffman_table.py:65-66 | An optimal full code for 256 equal weights has no length above 8 |
| LimitedLengths.FlattenShrinks | tools/gen_huffman_table.py:73 | Halving keeps weights positive, and lowers their sum as long as one is above 1 |
| LimitedLengths.TooDeepCanFlatten | tools/gen_huffman_table.py:69-73 | A code that is too deep has weights whose sum halving lowers: the loop ends |
| LimitedLengths.LimitedCode | tools/gen_huffman_table.py:62-73 | It ends, with every length from 1 to 16 and Kraft sum 1, optimal for the counts flattened the least number of times that makes the code fit |
| LimitedLengths.NoEmptyCode | tools/gen_huffman_table.py:69-72 | No symbol of a full code for two or more has length 0 |
| CanonicalCodes.OrderedSorts | tools/gen_huffman_table.py:81 | The order of the loop is a permutation of the symbols by length, then by symbol |
| CanonicalCodes.AssignCodes | tools/gen_huffman_table.py:76-86 | Each code, as an interval of bit strings, starts where the intervals of all codes before it end |
| CanonicalCodes.CodeFits | tools/gen_huffman_table.py:82-84 | With Kraft sum at most 1 each code fits in its length |
| CanonicalCodes.IntervalsApart | tools/gen_huffman_table.py:76-86 | The intervals of two symbols do not meet |
| CanonicalCodes.CodesInOrder | tools/gen_huffman_table.py:77 | Shorter codes come first, and equal lengths by symbol |
| CanonicalCodes.EveryStringCovered | tools/gen_huffman_table.py:76-86 | With Kraft sum exactly 1 every bit string is in the interval of some symbol |
| HuffmanTable.CanonicalPrefixFree | tools/gen_huffman_table.py:76-86 | No code of a canonical table is the beginning of another, in particular none equals another |
| HuffmanTable.CanonicalComplete | tools/gen_huffman_table.py:76-86 | With Kraft sum 1 every 16 bits begin with a code |
| HuffmanTable.CanonicalTable | tools/gen_huffman_table.py:125-126 | A canonical table for the tool's lengths is well formed, prefix-free and complete |
| HuffmanTable.GenerateTable | tools/gen_huffman_table.py:9-14 | From any counts the tool makes a prefix-free, complete, canonical table with a code of 1 to 16 bits for every byte value, of the lengths LimitedCode promises |
| PrefixCodes.WordsSatisfyKraft | tools/gen_huffman_table.py:44-59 | Kraft's inequality for any words none of which begins another |
| PrefixCodes.PrefixFreeSatisfiesKraft | source/codec/pif_huffman.c:57-59 | The lengths of every prefix-free table satisfy it, canonical or not |
| PrefixCodes.NoTableIsBetter | tools/gen_huffman_table.py:44-59 | So no prefix-free table at all costs less than lengths that are optimal, as the tool's are |
| UnseenValues.LighterNotShorter | tools/gen_huffman_table.py:52-58 | In any optimal code a lighter symbol has no shorter a code |
| UnseenValues.UnseenGetLongest | tools/gen_huffman_table.py:10 | A value has a longer code than one that never occurs only if flattening made both equally light, by its count and the number of flattenings, and it comes first |
| UnseenValues.FlattenedSum | tools/gen_huffman_table.py:73 | After k flattenings what the weights have above 1 is at most the 2^k-th part of the sample bytes |
| UnseenValues.FlatteningsNeeded | tools/gen_huffman_table.py:69-73 | Fewer than 3925 * 2^k sample bytes need no more than k flattenings |
| UnseenValues.OftenEnoughKeepsPromise | tools/gen_huffman_table.py:9-12 | With so many sample bytes no value that occurs 2^(k+1) - 1 times or more has a longer code than one that never occurs |
| UnseenValues.FewSamplesKeepPromise | tools/gen_huffman_table.py:9-12 | Samples of up to 3924 bytes need no flattening, and no value that occurs has a longer code than one that does not |
| UnseenValues.OddOnesDiffer | tools/gen_huffman_table.py:62-73 | An odd number of least weights among heavier ones cannot all get codes of one length |
| UnseenValues.UnseenGetsShorter | tools/gen_huffman_table.py:10 | Counts for which the tool gives a value that occurs a longer code than one that does not |
| HuffmanCode.Find | source/codec/pif_huffman.c:57-59 | The first symbol of the table with that code and length, if any |
| HuffmanCode.ReadIffPrefix | source/codec/pif_huffman.c:50-66 | Reading bit by bit finds a symbol exactly if its code is the beginning of the bits |
| HuffmanCode.DecodeEncoded | source/codec/pif_huffman.c:16-68 | Decoding the codes of some bytes, whatever bits follow, gives these bytes |
| HuffmanCode.DecodeStops | source/codec/pif_huffman.c:50-66 | Followed by bits that begin with no code, it gives these bytes and no more |
| HuffmanCode.FittingIsLongest | source/codec/pif_huffman.c:24-40 | Fitting is the longest beginning of the input whose codes fit in that many bits |
| HuffmanCode.CutStream | source/codec/pif_huffman.c:26-33 | Cut at any bit, a stream is the codes of the longest fitting beginning and then bits that begin with no code |
| HuffmanCode.DecodeCutStream | source/codec/pif_huffman.c:24-66 | So a stream cut off decodes to exactly the longest beginning that fits |
| HuffmanCode.DecodeAnything | source/codec/pif_huffman.c:44-68 | On any bits, the codes of the result are their beginning, and it stops short only where no code follows |
| HuffmanCode.DecodeStopsAtEnd | include/codec/pif_huffman.h:88 | With a complete table that is only where fewer than 16 bits are left |
| HuffmanCodec.Encoder.constructor | source/codec/pif_huffman.c:6-14 | An encoder that has been fed and has written nothing |
| HuffmanCodec.Encoder.Open | source/codec/pif_huffman.c:28-34 | A new byte is zero, and beyond the buffer nothing changes |
| HuffmanCodec.Encoder.SetBit | source/codec/pif_huffman.c:35-37 | The buffer is the bits sent, now one more, and zeros |
| HuffmanCodec.Encoder.EncodeByte | source/codec/pif_huffman.c:25-39 | Appends the whole code of a byte, or as much of it as fills the buffer |
| HuffmanCodec.Encoder.Encode | source/codec/pif_huffman.c:16-42 | Over any split of the input into calls: the buffer holds the codes of all input so far and zeros; without room it is full with the beginning of them, and stays so |
| HuffmanCodec.Lookup | source/codec/pif_huffman.c:57-59 | The linear search finds the first entry with code and length |
| HuffmanCodec.ReadSymbol | source/codec/pif_huffman.c:51-65 | The bit loop reads the next symbol of the stream and moves on by the length of its code; the 16-bit register loses no bit |
| HuffmanCodec.Decode | source/codec/pif_huffman.c:44-68 | Writes what the bits decode to and nothing else |
| HuffmanCodec.EncodeThenDecode | source/codec/pif_huffman.c:16-68 | Decoding an encoder's buffer gives everything fed in all pieces, or after an overflow exactly the longest beginning whose codes fit |
| Cobs.DecodeEncoded | source/codec/pif_encoding.c:78-125 | Decoding an encoded frame gives the frame, for every frame |
| Cobs.EncodedNoZero | source/codec/pif_encoding.c:67-68 | No byte of an encoding is zero |
| Cobs.EncodedLength | include/codec/pif_encoding.h:18-19 | An encoding has more bytes than the frame, and at most length + length / 254 + 1; below that for a frame that ends in a full block |
| Cobs.EncodedInjective | source/codec/pif_encoding.c:78-103 | Different frames have different encodings |
| CobsCodec.CobsEncode | source/codec/pif_encoding.c:78-103 | Writes the encoding and its length if it fits, 0 if not; what it does past the destination, exactly |
| CobsCodec.EncodeByte | source/codec/pif_encoding.c:84-100 | One turn keeps the done blocks in place and the open one behind them, or finds that the encoding cannot fit |
| CobsCodec.MaxEncodedIsEnough | include/codec/pif_encoding.h:18-19 | In a destination of PIF_COBS_MAX_ENCODED bytes the encoding fits and nothing is written past it |
| CobsCodec.ExactSizeIsNotEnough | source/codec/pif_encoding.c:90-101 | A frame of 254 bytes and a destination of exactly its encoding's 255: one byte is written past it |
| CobsCodec.CobsDecode | source/codec/pif_encoding.c:105-125 | Accepts exactly the well formed frames that fit and gives their bytes, also when destination and source are the same array |
| CobsCodec.CopyBlock | source/codec/pif_encoding.c:114-117 | Copies the data of a block; the write index stays behind the read index, so in place the rest is not disturbed |
| CobsCodec.EndBlock | source/codec/pif_encoding.c:118-121 | Writes the zero a block stands for, unless it is the last or a full one |
| CobsStream.ScanIsDecode | source/codec/pif_encoding.c:142-166 | Byte by byte, a segment ends at the end of a block exactly if batch decoding takes it, and with the same bytes |
| CobsStream.SegmentScan | source/codec/pif_encoding.c:105-166 | So for every segment of nonzero bytes both decoders agree |
| CobsStream.CobsDecoder.constructor | source/codec/pif_encoding.c:127-132 | A decoder in the middle of nothing |
| CobsStream.CobsDecoder.Reset | source/codec/pif_encoding.c:134-140 | What came before is forgotten |
| CobsStream.CobsDecoder.Append | source/codec/pif_encoding.c:69-76 | A byte is appended, or the frame marked as one that does not fit |
| CobsStream.CobsDecoder.Put | source/codec/pif_encoding.c:142-166 | A zero is answered with what batch decoding makes of the bytes since the last one, for the same size: its length, an error, or nothing for no bytes |
| CobsWire.FramesSurvive | source/codec/pif_encoding.c:78-103 | Every list of frames that fit, encoded with a zero after each, comes out as the same list |
| CobsWire.GarbageIsForgotten | source/codec/pif_encoding.c:142-153 | From the next zero on, bytes that came before change nothing of the frames after them |
| CobsWire.NextByte | source/codec/pif_encoding.c:146-151 | A zero ends a segment, another byte goes on with it |
| CobsWire.Receive | source/codec/pif_encoding.c:142-166 | For any bytes at all, what the decoder reports is each segment between zeros decoded on its own |
| Varint.ZigzagRoundTrip | source/codec/pif_encoding.c:8-17 | Encoding and decoding are inverses, both ways, on all of 32 bits |
| Varint.ZigzagSign | source/codec/pif_encoding.c:8-12 | Values from 0 on get the even codes in order, and negative values, and no others, the odd ones |
| Varint.ZigzagKeepsOrder | source/codec/pif_encoding.c:8-12 | Smaller magnitudes get smaller codes |
| Varint.VarintRoundTrip | source/codec/pif_encoding.c:19-49 | Every 32-bit value comes back whatever follows it, from at most five bytes |
| Varint.ReadIsCanonical | source/codec/pif_encoding.c:33-49 | The bytes read are those the encoder would write exactly if they carry no empty last group |
| Bits.OrDisjoint | source/codec/pif_encoding.c:42 | A group of bits or-ed above all bits of a number is added to it |
| Varint.UvarintEncode | source/codec/pif_encoding.c:19-31 | Writes the varint and its length if it fits, 0 if not |
| Varint.UvarintDecode | source/codec/pif_encoding.c:33-49 | Reads the value and the length of the varint in front; refuses what is cut off, longer than five bytes or above 32 bits |
| Clock.RemainExact | source/actuator/pif_solenoid.c:15-20 | Across any wrap the time left is exact, 0 when over, for deadlines within half a lap of the clock |
| SolenoidSpec.DueCount | source/actuator/pif_solenoid.c:151-169 | The commands in front whose time has come |
| SolenoidSpec.RunsExactlyTheDue | source/actuator/pif_solenoid.c:142-170 | A run carries out exactly the commands whose time has come, in order, and the others keep their times |
| SolenoidSpec.DueIsByTime | source/actuator/pif_solenoid.c:151-169 | With the targets in order, a command is among those carried out exactly if its time has come |
| SolenoidSpec.LateRunKeepsTimes | source/actuator/pif_solenoid.c:152-154 | However late a run is, the commands after it are due when they would have been |
| SolenoidRuns.ApplySane | source/actuator/pif_solenoid.c:142-365 | Every operation keeps the invariant: driven as the hardware allows, waiting commands in order and within 65,535,000 us of each other |
| SolenoidRuns.EveryRunSane | source/actuator/pif_solenoid.c:142-365 | So every reachable state of a channel has it |
| SolenoidRuns.SuccessiveOnsDiffer | source/actuator/pif_solenoid.c:83-105 | With two coils, an ON and the next one without a reset between them have different valid directions |
| SolenoidRuns.OffFollowsOn | source/actuator/pif_solenoid.c:61-81 | Before every OFF there is an ON with no other OFF after it |
| SolenoidRuns.ProcessClears | source/actuator/pif_solenoid.c:142-170 | After a run no pulse and no command of the channel is due at its time |
| SolenoidRuns.QueuedTarget | source/actuator/pif_solenoid.c:310-319 | A queued command is due at the later of the command before it and its delay after now, or after the waiting deadline if that is over |
| SolenoidRuns.CommandDeadlines | source/actuator/pif_solenoid.c:304-329 | A command only brings deadlines ahead of it |
| SolenoidEffects.HasItsEffect | source/actuator/pif_solenoid.c:68-365 | Every operation of a channel has its effect on what is driven, what waits and the pulse length, and no other: what is driven is told by the ONs and OFFs before, not by the fields of the channel |
| SolenoidEffects.EndsOver | source/actuator/pif_solenoid.c:72-81 | A pulse is over 1000 times its length after its ON, and is then ended by OFF and evt_off; before that nothing happens |
| SolenoidEffects.RunDrives | source/actuator/pif_solenoid.c:142-170 | What is driven for the commands whose time has come, in their order, but for those that two coils refuse |
| SolenoidEffects.PulsesEnd | source/actuator/pif_solenoid.c:72-100 | Over any run: a channel that is ON after a run of the task is so by an ON that lasts or whose time has not passed; a pulse whose time has passed ends with OFF and evt_off at that run, before anything else; all else is ON, now and for the time set last |
| SolenoidEffects.OrderToIdle | source/actuator/pif_solenoid.c:304-329 | An order for a channel where nothing waits is driven at once, or waits for exactly its delay, in its direction |
| SolenoidEffects.OrderQueued | source/actuator/pif_solenoid.c:310-319 | Behind others it is refused exactly if the queue is full, else it waits for the greater of the time in front of it and its delay from now or from the first deadline |
| SolenoidEffects.StaysWaiting | source/actuator/pif_solenoid.c:142-170 | Over any run, what waits goes on waiting, at its time, until that has come or something replaces or drops it |
| SolenoidEffects.NothingEarly | source/actuator/pif_solenoid.c:151-169 | Before its time no run of the task drives it, or anything behind it |
| SolenoidEffects.WaitingIsCarriedOut | source/actuator/pif_solenoid.c:142-170 | The first run of the task when its time has come drives its ON, then and for the time set last, behind the commands in front of it, unless two coils refuse its direction |
| SolenoidEffects.DelayedOrder | source/actuator/pif_solenoid.c:304-329 | From a delayed order for an idle channel to its ON: no ON before its time, and its ON, first of all, at the first run after it |
| SolenoidChannel.LinkedAppend | source/actuator/pif_solenoid.c:312-318 | A delay stored as the difference to the last deadline extends the list of absolute times |
| SolenoidChannel.SolenoidChannel.CheckOff | source/actuator/pif_solenoid.c:70-81 | Ends a pulse that is over, by the wrapping clock as by the absolute one |
| SolenoidChannel.SolenoidChannel.SwitchOn | source/actuator/pif_solenoid.c:83-105 | Does what the absolute-time model says, an overdue pulse ended first |
| SolenoidChannel.SolenoidChannel.TakeQueue | source/actuator/pif_solenoid.c:160-168 | Taking differences from the deadline before gives back the absolute times |
| SolenoidChannel.SolenoidChannel.Process | source/actuator/pif_solenoid.c:142-170 | A run on one channel does what the absolute-time model says |
| SolenoidChannel.SolenoidChannel.TimeToLast | source/actuator/pif_solenoid.c:187-199 | The sum of the queue is the time left to its last command, counted from the waiting deadline if that is over |
| SolenoidChannel.SolenoidChannel.Enqueue | source/actuator/pif_solenoid.c:311-319 | Queues a command with the absolute time the model says, or refuses it when full |
| SolenoidChannel.SolenoidChannel.Order | source/actuator/pif_solenoid.c:304-329 | Accepts, refuses and carries out commands as the absolute-time model says |
| SolenoidChannel.SolenoidChannel.Cancel | source/actuator/pif_solenoid.c:355-362 | Drops what waits, and drives OFF exactly if the channel is ON |
| Solenoid.Solenoid.OnTimeIsEnough | source/actuator/pif_solenoid.c:4-7 | In every state that operations lead to, no deadline is over for half a lap of the clock as long as the task has not been released for that long, less the time one operation takes |
| Solenoid.Solenoid.Schedule | source/actuator/pif_solenoid.c:116-140 | The trigger is at a deadline of some channel, and no later than the earliest one of all channels; the task has not been released for longer than any deadline is over, but for the time one operation takes |
| Solenoid.Solenoid.DoTask | source/actuator/pif_solenoid.c:172-185 | Every channel ends the pulse that is over and drives what has come, nothing due is left, and the trigger is at a deadline, no later than any |
| Solenoid.Solenoid.ActionOnDir | source/actuator/pif_solenoid.c:331-347 | Which commands are refused, what an accepted one drives or for what time it waits, and that every pending deadline stays served by the trigger |
| Solenoid.Solenoid.ActionOff | source/actuator/pif_solenoid.c:349-365 | Nothing waits afterwards, the channel is OFF, and one OFF has been driven exactly if it was ON; the other channels stay served |
| Solenoid.Solenoid.SetBuffer | source/actuator/pif_solenoid.c:263-272 | Drops what is queued, but not the command that waits; the queue has the new size, or there is none |
| Solenoid.Solenoid.SetInvalidDirection | source/actuator/pif_solenoid.c:274-284 | Resets the direction and nothing else |
| Solenoid.Solenoid.SetOnTime | source/actuator/pif_solenoid.c:286-296 | Sets the length of pulses to come and nothing else |
| ServoMath.Scaled | source/actuator/pif_servo.c:58-83 | Taking a value from one scale to another rounds to the nearest, within the scale and within 32 bits |
| ServoMath.FitIsExact | source/actuator/pif_servo.c:58-83 | The condition on the spans of a range holds if and only if no conversion of an angle or a pulse overflows 32 bits |
| ServoMath.Range.ClampAngle | source/actuator/pif_servo.c:51-56 | The nearest angle of the range |
| ServoMath.Range.AngleToPulse | source/actuator/pif_servo.c:59-70 | Every converted pulse is positive and has 16 bits |
| ServoMath.Range.EndPulses | source/actuator/pif_servo.c:59-70 | The ends of the range get the ends of the pulses, the other way round if reversed |
| ServoMath.Range.PulseMonotone | source/actuator/pif_servo.c:59-70 | The pulse rises with the angle, or falls if reversed |
| ServoMath.Range.PulseToAngle | source/actuator/pif_servo.c:72-83 | The angle of any pulse is in the range |
| ServoMath.Range.AngleComesBack | source/actuator/pif_servo.c:59-83 | With no more angles than pulses, an angle comes back from its pulse unless that was held to 16 bits |
| ServoMath.Range.PulseComesBack | source/actuator/pif_servo.c:59-83 | With no more pulses than angles, a pulse of the range comes back from its angle |
| ServoMath.Range.AngleComesBackNear | source/actuator/pif_servo.c:59-83 | From the finer scale it comes back within about half a step of the coarser one |
| ServoMath.Range.PulseIsNearest | source/actuator/pif_servo.c:58-70 | The pulse of an angle divides the pulses as the angle does the angles, to the nearest, before it is held to 16 bits |
| ServoMath.Range.AngleIsNearest | source/actuator/pif_servo.c:72-83 | The angle of any pulse divides the angles as the pulse, less the trim and held between the ends, does the pulses, to the nearest |
| ServoMath.Smooth | source/actuator/pif_servo.c:115-118 | Smoothstep stays within 0 to 1024, is full exactly at the end, and its sum within 32 bits |
| ServoMath.SmoothMonotone | source/actuator/pif_servo.c:115-118 | Smoothstep never falls |
| ServoMath.SmoothMirrors | source/actuator/pif_servo.c:116-117 | The second half of smoothstep mirrors the first, rounding apart |
| ServoMath.SmoothStartsSlowly | include/actuator/pif_servo.h:65 | An eased move starts and ends slowly: what it covers near its ends is at most three times the square of the share of the time |
| ServoMath.Progress | source/actuator/pif_servo.c:107-120 | A move's share is full exactly once its time has passed; before that ServoCurves.LinearProgress and ServoCurves.EasedProgress tell it |
| ServoMath.ProgressMonotone | source/actuator/pif_servo.c:107-120 | The share never falls, with either profile |
| ServoMath.Position | source/actuator/pif_servo.c:127-134 | Between start and target, C's truncating division included |
| ServoMath.NeverTooFast | source/actuator/pif_servo.c:407-408 | A linear move whose time is rounded up never covers more than speed times elapsed time |
| ServoMath.TimeAtSpeed | source/actuator/pif_servo.c:408 | The fewest milliseconds in which the distance does not pass the speed, computed within 32 bits |
| ServoSpec.MoveIsMonotone | source/actuator/pif_servo.c:107-136 | A move never turns back, stays between start and target, and is at the target exactly once its time has passed |
| ServoCurves.LinearMove | source/actuator/pif_servo.c:107-134 | A linear move has made distance * elapsed / time of its way, never more, and less by under 1/1024 of it and one step |
| ServoCurves.LinearProgress | source/actuator/pif_servo.c:114 | The share of the time in 1024 steps, rounded down |
| ServoCurves.EasedProgress | source/actuator/pif_servo.c:114-118 | The share of the time and of the way in 1024 steps, each rounded down |
| ServoCurves.EasedMove | source/actuator/pif_servo.c:114-134 | An eased move has made distance * (3x^2 - 2x^3) of its way for the share x of its time, never more, and less by at most 5/2048 of it and one step |
| ServoCurves.CubicBounds | source/actuator/pif_servo.c:116-117 | The curve 3x^2 - 2x^3 rises, nowhere steeper than three halves |
| ServoCurves.UpdateFollows | source/actuator/pif_servo.c:122-136 | An update puts the channel that way from the start of its move, towards the target, gives the pulse of that angle, and ends the move exactly when its time has passed |
| ServoSpec.Update | source/actuator/pif_servo.c:122-136 | An update puts the channel where the move is at that time, ends it exactly when it is over, and keeps the invariant |
| ServoSpec.StartMove | source/actuator/pif_servo.c:157-175 | A move starts where the channel is, at its target if detached, with the target held within the range; the invariant is kept |
| ServoSpec.Refit | source/actuator/pif_servo.c:287-292 | An attached channel gets the pulse of its angle, held within the new range |
| ServoSpec.Apply | source/actuator/pif_servo.c:270-467 | Every command, accepted or refused, keeps the invariant |
| ServoSpec.ChangeRange | source/actuator/pif_servo.c:270-295 | A refused range changes nothing, an accepted one ends the move; both keep the invariant |
| ServoSpec.EveryRunSane | source/actuator/pif_servo.c:85-97 | Over any commands at any times: no pulse is given twice in a row, the trim is smaller than the least pulse, what moves is attached and within its range |
| ServoSpec.LateRunsCatchUp | source/actuator/pif_servo.c:5-8 | A late update leaves the channel where updates in between would have |
| ServoSpec.AcceptedSpeeds | source/actuator/pif_servo.c:397-417 | A move at a speed is accepted exactly if the speed is not 0 and it takes at most 65535 ms |
| ServoSpec.SpeedIsKept | source/actuator/pif_servo.c:388-421 | At any later time such a linear move has covered no more than the speed gives |
| ServoSpec.NoJump | include/actuator/pif_servo.h:259-260 | A move replaced halfway goes on from where it has got to, with the same pulse |
| ServoSpec.ArriveTogether | source/actuator/pif_servo.c:434-437 | Attached channels started together with one time arrive at the same update, each at its target |
| ServoEffects.TrimIsAdded | source/actuator/pif_servo.c:67-69 | The trim is added to the pulse of every angle, up to the limit of 16 bits |
| ServoEffects.ReverseMirrors | source/actuator/pif_servo.c:67 | Reversing mirrors every pulse between the pulses of the ends |
| ServoEffects.HasItsEffect | source/actuator/pif_servo.c:122-467 | Every command and run of the task has its effect on setup, angle, pulse, move and calls of act_control, and no other: where a stop, a move and a new range leave the channel, which angle is taken, which time a speed takes, what is refused, and what is given |
| ServoEffects.EveryStepHasItsEffect | source/actuator/pif_servo.c:122-467 | So has every step of every run |
| ServoEffects.SilentWhileDetached | include/actuator/pif_servo.h:301 | After a detach the pulse is 0 and act_control is not called until a command attaches the channel again |
| ServoEvents.EndingIsExact | source/actuator/pif_servo.c:122-200 | Every step starts a move, leaves the one under way as it is, or ends it; evt_arrive is called exactly by a run of the task once the time of the move has passed, with the channel at its target |
| ServoEvents.MissedExactly | include/actuator/pif_servo.h:152 | Of a move whose time has passed: a step ends it unreported if and only if it is a command other than a trim, a reverse, a profile, a refused range, a pulse of 0 and a move at speed 0, which leave it; a run of the task, and nothing else, reports it |
| ServoEvents.MissedAgainstContract | include/actuator/pif_servo.h:259-280 | Of these commands, those that the header does not except are a move, a move at a speed but 0, accepted or refused, and a new range |
| ServoEvents.MissedAtTarget | source/actuator/pif_servo.c:122-175 | They and a stop take the channel to the target of the move they end, held within the new range |
| ServoEvents.RefusedEnds | source/actuator/pif_servo.c:397-420 | A refused command ends a move if and only if it is a move at a speed, not 0, that comes when the move is over and whose way from there takes more than 65535 ms |
| ServoEvents.EveryMoveEndsOnce | source/actuator/pif_servo.c:194 | Over any commands at any times: the moves started are those reported, those missed, those cut before their time, each once, and the one under way |
| ServoEvents.FirstStepDecides | source/actuator/pif_servo.c:183-202 | Over any run: a move that nothing has ended when its time has passed stays under way until a step concerns it, and is reported, at its target, if and only if that is a run of the task |
| ServoEvents.RefusedMoveMisses | source/actuator/pif_servo.c:397-420 | From 180 degrees to 0 in 1 s, and at 2 s a refused move at the speed 1: one move started, none reported, the channel at 0 |
| ServoEvents.NextMoveMisses | source/actuator/pif_servo.c:157-175 | The same with a move to 90 degrees at 2 s, which is accepted and starts at 0: two moves started, none reported |
| ServoChannel.ServoChannel.Output | source/actuator/pif_servo.c:86-97 | act_control gets a pulse only if it changes |
| ServoChannel.ServoChannel.Update | source/actuator/pif_servo.c:123-136 | Does by the wrapping clock what the model says in absolute time |
| ServoChannel.ServoChannel.StopMove | source/actuator/pif_servo.c:147-155 | A move stops where it has got to |
| ServoChannel.ServoChannel.StartMove | source/actuator/pif_servo.c:157-175 | Starts a move as the model says |
| ServoChannel.ServoChannel.SetRange | source/actuator/pif_servo.c:270-295 | Refuses or sets a range as the model says, the move stopped first |
| ServoChannel.ServoChannel.SetTrim | source/actuator/pif_servo.c:297-314 | Refuses or sets a trim as the model says |
| ServoChannel.ServoChannel.SetReverse | source/actuator/pif_servo.c:316-327 | Swaps the ends as the model says |
| ServoChannel.ServoChannel.SetProfile | source/actuator/pif_servo.c:329-343 | A move under way keeps the profile it started with |
| ServoChannel.ServoChannel.SetAngle | source/actuator/pif_servo.c:345-356 | Stops a move and gives the pulse of the angle |
| ServoChannel.ServoChannel.SetPulse | source/actuator/pif_servo.c:358-375 | Stops a move, gives the pulse as it is and takes over its angle; 0 is refused |
| ServoChannel.ServoChannel.MoveAtSpeed | source/actuator/pif_servo.c:388-421 | Accepts and starts moves at a speed as the model says |
| ServoChannel.ServoChannel.Detach | source/actuator/pif_servo.c:456-467 | Stops the move and the pulse |
| Servo.Servo.DoTask | source/actuator/pif_servo.c:183-202 | Puts every moving channel where its move has got to, with that pulse, calls evt_arrive for exactly those whose move the run ends, and comes again after a period exactly if something still moves |
| Servo.Servo.Do | source/actuator/pif_servo.c:270-467 | The command has its effect on one channel, the others stay; as long as anything moves the task comes again within a period |
| Servo.Servo.MoveSync | source/actuator/pif_servo.c:423-443 | Starts all channels but those to be kept, at the same time |
| RingData.RingData.CommitAdd | source/core/pif_ring_data.c:168-174 | What was written to the slot becomes the newest record, the others stay; a full queue stays as it is |
| RingData.RingData.WriteSlot | source/core/pif_ring_data.c:154-166 | Writing to the slot given for the next record changes no record |
| RingData.RingData.GetData | source/core/pif_ring_data.c:100-107 | The record at any index from the oldest one, if there is one, and the slot it is in |
| RingData.RingData.Remove | source/core/pif_ring_data.c:176-193 | Drops the oldest record, the others stay in order |
| CanFrames.DlcIsLeast | source/communication/pif_can.c:287-294 | The DLC of a length holds it, and no lower one does |
| CanFrames.LengthToDlc | source/communication/pif_can.c:287-294 | The search of the table finds that DLC |
| CanFrames.FloorIsLargest | source/communication/pif_can_stream.c:19-26 | The largest length a frame can have that is not above a length; never 0 for something |
| CanFrames.KnownFrames | source/communication/pif_can.c:14-29 | The frames accepted are those with an ID of 11 or 29 bits, a length that a DLC stands for, above 8 bytes and with a second bit rate only in CAN FD, and no remote frame there |
| Marked.KeptAndMissing | source/communication/pif_can.c:230-246 | What is kept and what is missing is everything |
| CanRuns.FirstTaker | source/communication/pif_can.c:76-79 | The first client in the list that takes a frame, by what each answers in that turn |
| CanRuns.ArriveAdds | source/communication/pif_can.c:230-246 | Interrupts add to the end of the queue, within its capacity, and take frames off the bus in order |
| CanRuns.ArriveAccounted | source/communication/pif_can.c:230-246 | After any of them, the frames kept of all frames heard are those that have left the queue and those in it |
| CanRuns.TurnIsHandled | source/communication/pif_can.c:75-81 | Interrupts at every point of a turn leave what all of them together would: the head of the queue is the frame seen |
| CanRuns.RunDelivers | source/communication/pif_can.c:71-81 | A run delivers every frame queued at its start, and no more frames than the queue holds |
| CanRuns.RunHears | source/communication/pif_can.c:66-81 | A run takes frames off the bus in order and drops none from the record |
| CanRuns.RunInOrder | source/communication/pif_can.c:71-81 | The frames queued at the start are the first to be delivered, in order |
| CanRuns.RunAccounted | source/communication/pif_can.c:71-81 | Over a run the frames kept of all heard are those that had left the queue, those delivered and those still queued, in this order |
| CanRuns.WaitsForNextRun | source/communication/pif_can.c:74 | A run delivers just the frames queued at its start, in order, if and only if the queue is full then, or none arrives before the look that would find it empty |
| CanRuns.DeliveredInSameRun | source/communication/pif_can.c:71-81 | A queue for two with one frame in it and one that arrives while it is offered: both are delivered in that run, whatever the clients answer |
| Can.PutQueue | source/communication/pif_can.c:41-49 | Appends a frame, or refuses it when the queue is full, with nothing changed |
| Can.Can.PutRxFrame | source/communication/pif_can.c:230-246 | A frame is appended, or counted as lost exactly for want of room; the account of frames heard, delivered, queued and lost holds at any point of the receive task |
| Can.Can.Interrupt | source/communication/pif_can.c:230-246 | Any number of interrupts between two steps put just the next frames of the bus |
| Can.Can.PeekRx | source/communication/pif_can.c:52-55 | With interrupts before the head is read and between that and the tail: empty exactly if the queue was when the head was read, and never a slot that is not complete |
| Can.Can.Deliver | source/communication/pif_can.c:76-80 | A frame is delivered once, and leaves the queue only then |
| Can.Can.SendFrame | source/communication/pif_can.c:205-218 | Accepts exactly the frames CAN knows while there is room |
| Can.Can.Transmit | source/communication/pif_can.c:104-115 | The hardware gets the frames in order, one for each time it accepts; a refused one stays queued |
| Can.Can.AddClient | source/communication/pif_can.c:296-309 | At the end of the list, refused exactly if it is there already |
| Can.Can.RemoveClient | source/communication/pif_can.c:311-322 | Takes out that client, the others keep their order |
| CanCounts.WhoWroteIsAskedAgain | source/communication/pif_can_stream.c:137-138 | A client that wrote something is not asked again if and only if what it writes fits and is a multiple of 65536 bytes, or does not fit and the room is, told from the state before the call |
| CanCounts.WriteMore | source/communication/pif_can_stream.c:56-73 | Over any writes, what is taken is the beginning of all of them put together, as much as there was room for |
| CanStream.CanStream.QueueFrame | source/communication/pif_can_stream.c:39-54 | Queues a legal frame of the first pending bytes, the rest stays pending in order; refused exactly when the queue is full, with nothing changed |
| CanStream.CanStream.ActSend | source/communication/pif_can_stream.c:56-73 | Takes exactly the bytes there is room for, and fewer than given only when queue and pending frame are full; bytes accepted are the data of all frames queued and then the pending ones, and the send queue gets exactly the frames queued |
| CanStream.CanStream.Flush | source/communication/pif_can_stream.c:75-81 | Everything pending is queued, in frames that each hold as much as a frame can of the rest, unless the queue fills up; what is left and how many slots is told from the state before |
| CanStream.CanStream.EvtSending | source/communication/pif_can_stream.c:123-139 | Leftovers go first; then everything the client writes is taken, in order, and queued, or the queue is full; how many bytes is told from the state before, and the client is asked again exactly if their number is no multiple of 65536 |
| CanStream.NotAskedAgain | source/communication/pif_can_stream.c:134-138 | Two writes of 32768 bytes into an empty queue for 1024 frames of 64 bytes are taken, and the client is not asked again |
| CanStream.CanStream.ActReceive | source/communication/pif_can_stream.c:28-33 | Hands out the oldest bytes, as many as there are up to the number asked for |
| CanCounts.CalledForOnce | source/communication/pif_can_stream.c:91-93 | How often a client is called is fixed by its answers: while there are bytes, up to 16 times, and as long as it reports progress |
| CanCounts.EagerClientReads | source/communication/pif_can_stream.c:90-94 | A client that reads something and reports progress each time gets all the bytes, or 16 at least |
| CanStream.CanStream.DoParse | source/communication/pif_can_stream.c:83-95 | Calls the client that often; it gets the oldest bytes, as many as its calls ask for and as there are |
| CanStream.CanStream.EvtReceive | source/communication/pif_can_stream.c:97-112 | Takes exactly the frames of its ID; one with bytes goes behind the bytes buffered, whole, exactly if there is room for it once the client has been called for what it reads, and is counted as lost mod 2^16 if not |
| CanStream.CanStream.SetClient | source/communication/pif_can_stream.c:143-167 | Attaching, with or without either function of the client, and detaching leave nothing of an earlier client's bytes; frames queued stay queued |
| CanNode.Node.constructor | source/communication/pif_can_stream.c:200-239 | A stream joins the clients of a controller that may have others |
| CanNode.Node.DoTxTask | source/communication/pif_can.c:90-117 | All clients are asked so, the stream taking as many bytes of its client as there is room for then; the hardware gets frames in order; nothing happens at bus off; the frames queued with the stream's ID stay those the stream has queued |
| CanNode.Node.Offer | source/communication/pif_can.c:76-79 | The frame goes to the first client that takes it, whatever is put meanwhile, and to the stream exactly if it carries bytes for it |
| CanNode.Node.ReceiveOne | source/communication/pif_can.c:75-81 | One turn, with interrupts at every point of it, does what the model of the run says |
| CanNode.Node.DoRxTask | source/communication/pif_can.c:66-88 | Exactly the run that the arrivals make: which frames, to which client, in which order, and what is left; the frames delivered with bytes for the stream have been given to it |
| CanNode.Node.SetClient | source/communication/pif_can_stream.c:143-167 | At any time, with frames queued and on the bus, the accounts of both ways hold on |
| CanLink.KeptOfQueued | source/communication/pif_can_stream.c:97-112 | In every state of the link, what the receiver has kept is some of what the sender queued, in order |
| CanLink.ReaderGetsWholeFrames | source/communication/pif_can_stream.c:56-112 | In every state of the link, the bytes read and buffered are the bytes of whole frames of what was written, each once and in order |
| CanLink.NothingLostNothingMissing | source/communication/pif_can_stream.c:56-112 | While nothing was lost, every byte written has gone to an earlier client or is read, buffered, queued, on the bus or pending, in this order; for first clients what is read is the beginning of what was written |
| CanLink.LossesAreCounted | source/communication/pif_can_stream.c:108-110 | The two counters tell the frames and the bytes lost, mod 2^16, and every frame heard is delivered, queued or counted |
| CanLink.RunTxTask | source/communication/pif_can.c:90-117 | A send task of a node, what it transmits coming onto the bus, keeps the link |
| CanLink.RunRxTask | source/communication/pif_can.c:66-88 | A receive task with interrupts anywhere keeps the link |
| CanLink.RunClient | source/communication/pif_can_stream.c:143-167 | Reading, attaching, detaching, other clients that come and go and bus states keep the link |
| CanLink.Run | source/communication/pif_can_stream.c:56-112 | Any steps of two nodes in any order keep the link, so both ways the bytes read and buffered are those of whole frames of what was written, each once and in order |
| CanLink.NewLink | source/communication/pif_can_stream.c:200-239 | Two nodes as initialised, with other clients in their lists, are linked |

## Left out

- Text and files of the table generator: `count_bytes`, `render` and `main` only read samples and print the table.
- `heapq` and `sorted`: a pop gives the least entry and a sort the sorted order; how Python does it is not modelled.
- HuffmanCodec.Encoder: `uint16_t` sizes are naturals; no count in it exceeds the size of a buffer, which the caller gives in 16 bits.
- Float bit access (`pifEncoding_FloatToBits`, `pifEncoding_BitsToFloat`): a copy of bits between types Dafny does not have.
- CobsCodec.CobsEncode: requires one byte beyond the destination to exist, so that what is written there can be told.
- Callbacks that call back into an instance (`evt_off`, `evt_arrive`) and the lock actions: calls are taken one at a time, as the lock contract asks for.
- The order of `act_control` calls of different channels; each channel's own calls are in order.
- Solenoid.Solenoid.Schedule: the trigger counts from the clock reading of `_schedule`, and `pifTask_SetTrigger` is taken to accept it; the task manager itself is not part of this model.
- SolenoidChannel.SolenoidChannel: the ring of queued commands is a sequence with a capacity, not the ring of `RingData`; `pifSolenoid_Clear` only switches off and frees.
- ServoSpec.Apply: requires of a range that is not refused for its ends, whatever the trim, that its spans keep the 32-bit sums of conversions exact. The code does not check that; without it some angle or pulse overflows a signed sum (ServoMath.FitIsExact), for which C promises nothing.
- ServoSpec.ChangeRange: requires the same.
- ServoChannel.ServoChannel.SetRange: requires the same.
- Servo.Servo.Do: requires the same of the command it passes on.
- UnseenValues.UnseenGetLongest: whether two values that flattening made equally light get codes of one length or not depends on all counts, and is not told from them other than by building the code.
- ServoChannel.ServoChannel.Update: a move must have started less than a lap of the clock before, about 71 minutes, as the source says.
- `pifServo_Clear`, and the answers of the getters, which only read a field.
- Bit timing (`pifCan_GetFrameTime`) and the periods that tasks return: they decide when something happens, not what; the steps of CanLink come in any order.
- CanLink.Run: requires that no other client or node sends frames with bytes under the IDs of the streams, and no client before the stream takes them. The code leaves that to the application as well.
- CanLink.Run: a step of one node during a task of the other is taken as a step before it, as they share only the bus; interrupts, which do touch what the receive task reads, come at every point of it.
- CanNode.Node.DoRxTask: of `evt_rx_done` only that of the stream, and of the controller's own `evt_receive` only which frames it gets.
- CanStream.CanStream.ActSend: a write is a sequence of any length, so those of up to 65535 bytes that `uint16_t` allows are covered.
- Whether the CAN hardware ever takes a frame: only what happens when it does or does not is modelled.
- Linked list of CAN clients: the clients in their order, each with an identity, not the pointers between them.
- The ring buffer of received bytes (`source/core/pif_ring_buffer.c`): a queue of bytes with a size, as its header describes it.
- CanStream.CanStream.EvtReceive: what the client does in `evt_parsing` is an argument, a number of bytes to read and an answer for each call.
- Signals for `pifCollectSignal`, taps, log names, IDs, memory failures and the creation of tasks.
