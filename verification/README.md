# LiteStep, modelled and proved in Dafny

This project models the parts of LiteStep whose results can be stated without the Windows API,
and proves what they are for.

- **PNG images** (`lsapi/picopng.cpp`). Bits, CanonicalCode, Huffman: tables for Huffman codes
  and the proof that decoding with them inverts the code. Inflate: what the decoder computes, on
  every input. Deflate, Encoder: the format of RFC 1951 from the side of the encoder, as a
  relation and as an encoder, and the proof that inflate inverts it. Format: what the tables and
  the order of bits have to be, which encoder and decoder share, without reference to them.
  Inflator: the methods with their loops and buffers. Filter, Rows, Adam7: scanline filters and
  interlacing. Png: all of it together, from compressed bytes to pixels.
- **The pool of background workers** (`lsapi/TaskExecutor.cpp`). Pool: all interleavings of its
  atomic steps, with the invariant and what follows from it for every run. PoolRuns: what runs
  mean for those who submit and cancel. TaskExecutor: the class, each of whose methods takes one
  step and keeps the object at the end of a run.
- **Wildcards** (`lsapi/match.cpp`). Glob: patterns, the language they stand for and the one the
  matcher accepts. Patterns: how patterns are written. Matcher: the two mutually recursive
  functions and their loops.
- **Configuration files** (`lsapi/SettingsFileParser.cpp`). Prefixes: groups. Blocks: conditional
  blocks and included files. SettingsFileParser: the parser class.
- **Expressions** (`lsapi/MathScanner.cpp`, `lsapi/MathParser.cpp`). Tokens, MathScanner: the
  scanner. Expressions, MathParser: trees, their printed forms and the parser that evaluates.
- **Variables** (`lsapi/settingsmanager.cpp`). Variables, SettingsManager: references in settings
  and their expansion, with the expressions inside them.
- **Tokens of settings** (`lsapi/lsapi.cpp`). Tokenizer.
- **Application bars** (`litestep/TrayService.cpp`). AppBars, TrayService: where bars are placed
  and what remains as work area.

Code that the source writes as loops over buffers, cursors and fields is written as methods and
classes here; each method is proved to compute a function, on all inputs, and the theorems are
about the functions. Growing vectors of the source are sequences that the methods reassign,
buffers of a fixed size are arrays.

Where the code does not do what it is documented or evidently meant to do, the code is modelled
as it is and the exact condition is proved:

- a pattern with a dead tail, such as one that ends in `**`, does not match a text that ends
  where the tail begins, because the end of the text is looked at before the stars are
  (`Glob.PromiseKept`, `Glob.DeadTailFails`);
- the head of a prefix group leaves the part of its value up to the last `@` in the caller's
  buffer, in front of the next value (`Prefixes.GroupsMeanConcatenation`, `Prefixes.HeadSpoilsValue`);
- beginnings of keywords such as `en` are not given their prefix, since the comparison is over
  the length of the key (`Prefixes.PrefixIsApplied`, `Prefixes.BeginningOfKeyword`);
- `Wait` can return before the completion has been called, while the drain of a shutdown is on
  its way, but not before a shutdown has begun (`Pool.WaitMeansCompleted`, `Pool.WaitReturnsEarly`,
  `Pool.WaitBeforeShutdown`);
- a bar with an unknown edge takes the whole work area (`AppBars.UnknownEdgeTakesAll`,
  `AppBars.WorkAreaIsBounds`, `AppBars.UnknownEdgeHappens`).

Double-precision numbers, operators and functions of expressions, conditions, environment
variables, paths, monitors, folding of case in wildcards and the liveness of windows are
parameters.

## Model

| member | source | states |
|---|---|---|
| `Huffman.HuffmanTree.CountLengths` | lsapi/picopng.cpp:80 | the number of symbols of every code length |
| `Huffman.HuffmanTree.FirstCodes` | lsapi/picopng.cpp:81 | the first code of each length modulo 2^32, unused symbols counted as length 0, as the source counts them |
| `Huffman.RawCodeWord` | lsapi/picopng.cpp:80-87 | although unused symbols are counted and codes wrap at 32 bits, the low bits that are used are the canonical code word of section 3.2.2 of RFC 1951 |
| `Huffman.HuffmanTree.GenerateCodes` | lsapi/picopng.cpp:79-82 | every symbol in use gets a number whose low bits are its canonical code word |
| `CanonicalCode.CanonicalPrefixFree` | lsapi/picopng.cpp:80-82 | canonical codes within the Kraft inequality are prefix free |
| `CanonicalCode.CompleteInnerSize` | lsapi/picopng.cpp:83-92 | a complete code has fewer inner nodes than symbols, so that the table has room for it |
| `Huffman.HuffmanTree.PlaceBit` | lsapi/picopng.cpp:87-94 | one bit of a code follows or fills a slot of the table |
| `Huffman.HuffmanTree.InsertCode` | lsapi/picopng.cpp:85-95 | the inner loop inserts one code word, or stops where there is no node left |
| `Huffman.HuffmanTree.MakeFromLengths` | lsapi/picopng.cpp:76-97 | on all length vectors up to 32 bits: 0 and the table of the canonical code, or 55 when the nodes run out |
| `Huffman.BuildCorrect` | lsapi/picopng.cpp:83-96 | for every prefix-free code the table is filled if and only if the inner nodes are fewer than the symbols, and then it represents the code |
| `Huffman.LengthsMakeDecoder` | lsapi/picopng.cpp:76-97 | the same from the lengths alone: within the Kraft inequality success is exactly that the nodes fit, and a complete code always succeeds |
| `Huffman.HuffmanTree.Decode` | lsapi/picopng.cpp:98-106 | one bit leads to a symbol and back to the root, to another node, or to error 11 |
| `Huffman.DecodeAlongCode` | lsapi/picopng.cpp:98-106 | along a code word decoding stays on its prefixes and ends at its symbol |
| `Huffman.FeedInvertsConcat` | lsapi/picopng.cpp:98-106 | fed bit by bit, the table yields a symbol list and is at the root again if and only if the bits are the code words of that list |
| `Inflator.ReadBits` | lsapi/picopng.cpp:67-73 | bits are read least significant first |
| `Inflator.Inflator.HuffmanDecodeSymbol` | lsapi/picopng.cpp:137-146 | the symbol at a bit position, error 10 behind the end or error 11 outside the tree |
| `Inflator.CopyLoop` | lsapi/picopng.cpp:224-226 | the loop with the pointer that wraps around at the start equals the LZ77 copy that may read what it has written; earlier bytes stay |
| `Inflator.Inflator.ReadLengthAndDistance` | lsapi/picopng.cpp:216-223 | length and distance with their extra bits, errors 10, 11, 18 and 51 |
| `Inflator.Inflator.InflateSymbols` | lsapi/picopng.cpp:205-228 | the loop over the symbols appends literals and copies up to the end code; output is a prefix of the growing buffer |
| `Inflator.Inflator.InflateHuffmanBlock` | lsapi/picopng.cpp:201-229 | a block with fixed or dynamic codes |
| `Inflator.Inflator.CopyBytes` | lsapi/picopng.cpp:239 | a stored block appends its bytes |
| `Inflator.Inflator.ToByteBoundary` | lsapi/picopng.cpp:232-233 | the next byte boundary |
| `Inflator.Inflator.InflateNoCompression` | lsapi/picopng.cpp:230-241 | a stored block, errors 21, 23 and 52, with the unsigned comparison of the source for inputs under four bytes |
| `Inflator.Inflator.GenerateFixedTrees` | lsapi/picopng.cpp:128-135 | the tables of the fixed codes |
| `Inflator.Inflator.ReadCounts` | lsapi/picopng.cpp:151-153 | the three counts of a dynamic header |
| `Inflator.Inflator.ReadCodeLengthCode` | lsapi/picopng.cpp:154-156 | the lengths of the code length code in their permuted order, and its table |
| `Inflator.StoreLength` | lsapi/picopng.cpp:161 | a length goes to the vector that its index falls into |
| `Inflator.RepeatLength` | lsapi/picopng.cpp:169-173 | a repeat fills both vectors across the split, or fails when it overruns |
| `Inflator.Inflator.ReadRun` | lsapi/picopng.cpp:162-194 | what one of the symbols 16, 17 and 18 adds, errors 13, 14, 15 and 50 |
| `Inflator.Inflator.ReadCodeLengths` | lsapi/picopng.cpp:157-196 | the code lengths of both codes with symbols 16, 17 and 18, errors 13 to 16 and 50 |
| `Inflator.Inflator.MakeTrees` | lsapi/picopng.cpp:197-199 | the two tables, error 64 without an end code and 55 without room |
| `Inflator.Inflator.GetTreeInflateDynamic` | lsapi/picopng.cpp:147-200 | the whole dynamic header |
| `Inflator.Inflator.InflateBlock` | lsapi/picopng.cpp:122-124 | the body of one block by its type |
| `Inflator.Inflator.Inflate` | lsapi/picopng.cpp:112-127 | the loop over the blocks, errors 20 and 52; the output is cut to its size |
| `Inflator.Decompress` | lsapi/picopng.cpp:243-254 | the checks of the zlib header (errors 24, 25, 26 and 53) and what follows it |
| `Deflate.InstrsDecode` | lsapi/picopng.cpp:157-196 | every encoded list of run-length instructions yields its expansion, repeats across the split included |
| `Deflate.InstrsOverrun` | lsapi/picopng.cpp:169-193 | instructions whose last one overruns stop with error 13, 14 or 15 by its kind |
| `Deflate.HeaderDecodes` | lsapi/picopng.cpp:147-200 | an encoded dynamic header yields tables that represent the two codes it stands for |
| `Deflate.FixedComplete` | lsapi/picopng.cpp:128-135 | the fixed codes of section 3.2.6 of RFC 1951 are complete |
| `Deflate.TokensDecode` | lsapi/picopng.cpp:205-228 | the encoded tokens of a block come out as their LZ77 expansion |
| `Deflate.BodyDecodes` | lsapi/picopng.cpp:122-124 | so does the body of every encoded block |
| `Deflate.BlocksDecode` | lsapi/picopng.cpp:112-127 | so do all encoded blocks, whatever follows them |
| `Inflator.DecompressInvertsDeflate` | lsapi/picopng.cpp:243-254 | every zlib stream that encodes a list of stored, fixed and dynamic blocks decompresses to their expansion |
| `Encoder.DecompressInvertsEncode` | lsapi/picopng.cpp:112-127 | the bytes that an encoder makes of any list of blocks that the format has an encoding for come back as the expansion of the blocks |
| `Format.LengthTable` | lsapi/picopng.cpp:30-31 | the lengths of each code follow those of the code before it, from 3 on, with the extra bits of section 3.2.5 of RFC 1951 in closed form; the last code is for 258 |
| `Format.LengthHasCode` | lsapi/picopng.cpp:30-31 | each length from 3 to 257 has exactly one code, 258 one of its own next to the one that reaches it, and other lengths have none |
| `Format.DistanceTable` | lsapi/picopng.cpp:32-33 | the same for distances, from 1 on |
| `Format.DistanceHasCode` | lsapi/picopng.cpp:32-33 | each distance from 1 to 32768 has exactly one code, and others have none |
| `Format.OrderIs` | lsapi/picopng.cpp:34 | the order of the code length code in closed form |
| `Format.RunCounts` | lsapi/picopng.cpp:162-193 | symbols 16, 17 and 18 stand for 3 to 6, 3 to 10 and 11 to 138 lengths |
| `Format.RunMeans` | lsapi/picopng.cpp:162-193 | symbol 16 repeats the last length where there is one, 17 and 18 stand for zeros |
| `Format.UnsentLengths` | lsapi/picopng.cpp:157-173 | symbols and distances of which no lengths are sent do not occur |
| `Format.FixedLengthsAre` | lsapi/picopng.cpp:129-132 | the length of each fixed code, section 3.2.6 of RFC 1951 |
| `Format.FixedCodesAre` | lsapi/picopng.cpp:128-135 | the fixed codes themselves, as that section lists them |
| `Format.CanonicalOrder` | lsapi/picopng.cpp:80-82 | the two rules of section 3.2.2: shorter codes come before longer ones, and codes of a length are consecutive in the order of their symbols |
| `Format.FieldsAreBytes` | lsapi/picopng.cpp:61-73 | bits are taken from the least significant end of each byte, and the low byte of a number comes first |
| `Format.HeaderAccepted` | lsapi/picopng.cpp:246-250 | a zlib header is accepted if and only if its check bits are right, the method is 8, the window has at most 32 KB and there is no dictionary (section 2.2 of RFC 1950) |
| `Format.BlockRejected` | lsapi/picopng.cpp:119-122 | a block of type 3 is error 20, and a block that is to be there and is not is error 52 |
| `Format.StoredRejected` | lsapi/picopng.cpp:230-239 | a stored block is rejected if and only if its length and check are no complements (21), it is longer than the input (23) or there is no room for its header (52) |
| `Format.HeaderRejected` | lsapi/picopng.cpp:150 | a dynamic header that would begin behind the data is error 49 |
| `Format.DistanceRejected` | lsapi/picopng.cpp:219-220 | the two distance codes that stand for nothing are error 18 |
| `Filter.PaethPredictor` | lsapi/picopng.cpp:532-536 | the predictor is the nearest of the three neighbours to a + b - c, ties in the order left, above, upper left (section 9.4 of the PNG specification) |
| `Filter.PredictByte` | lsapi/picopng.cpp:392-423 | the prediction of each byte, case by case, with a null line above as zeros |
| `Filter.UnFilterScanline` | lsapi/picopng.cpp:387-426 | the buffer is filled in place with the unfiltered line, and nothing else changes; error 36 for other filter types |
| `Filter.UnfilterInvertsFilter` | lsapi/picopng.cpp:389-423 | unfiltering inverts the filters of section 9.2 of the PNG specification for every line, line above and filter type |
| `Filter.FilterInvertsUnfilter` | lsapi/picopng.cpp:389-423 | every filtered line stands for a line that filters to it |
| `Filter.UnfilteredBytes` | lsapi/picopng.cpp:389-423 | what each of the five filter types adds, by the bytes of the lines themselves |
| `Filter.FilteredBytes` | lsapi/picopng.cpp:389-423 | and what the filters of an encoder subtract |
| `Rows.UnfilterRow` | lsapi/picopng.cpp:340-343 | one row is put behind the rows that are in place, read against the row above in the output itself |
| `Rows.UnfilterRows` | lsapi/picopng.cpp:336-344 | the row loop fills the output with all rows |
| `Rows.LinesFail` | lsapi/picopng.cpp:424 | a filter type that does not exist spoils the rest of the image |
| `Rows.RowsRestored` | lsapi/picopng.cpp:336-344 | for at least 8 bits per pixel every image comes back from its filtered rows, whatever filter types were chosen |
| `Rows.RowBytes` | lsapi/picopng.cpp:336-344 | each byte of an image is what the scanlines have in its place plus what the filter type of its row adds, with zeros outside of the image |
| `Rows.FlattenAt` | lsapi/picopng.cpp:340 | rows stand in the output one behind the other, from the top |
| `Adam7.PassSize` | lsapi/picopng.cpp:360-361 | the size of a pass is the number of its columns and lines that lie in the image |
| `Adam7.PassesPartition` | lsapi/picopng.cpp:363 | each pixel is hit by exactly one pass, column and line (section 8.2 of the PNG specification) |
| `Adam7.PassPixelsTotal` | lsapi/picopng.cpp:360-361 | the sizes of the passes add up to width times height |
| `Adam7.PassesAdjacent` | lsapi/picopng.cpp:362-364 | the lines of a pass stand exactly between its start and the start of the next |
| `Adam7.PutPixel` | lsapi/picopng.cpp:435-436 | the bytes of one pixel are written and no other pixel changes |
| `Adam7.PlaceLine` | lsapi/picopng.cpp:435-436 | a line of a pass is scattered over its pixels |
| `Adam7.PassLine` | lsapi/picopng.cpp:433-442 | one line of a pass is unfiltered at the full width of the image and placed |
| `Adam7.Adam7Pass` | lsapi/picopng.cpp:427-444 | a pass, with the two line buffers swapped after each line |
| `Adam7.PartialLine` | lsapi/picopng.cpp:434 | unfiltering more bytes than a line of the pass has leaves the line as it should be |
| `Adam7.DecodeInterlaced` | lsapi/picopng.cpp:358-368 | all seven passes: no error if and only if every filter type exists, and then all pixels are in place |
| `Adam7.InterlacedRestored` | lsapi/picopng.cpp:358-368 | decoding the passes that were taken out of an image and filtered restores the image |
| `Png.DecodePixels` | lsapi/picopng.cpp:318-368 | from the compressed bytes to the pixels: the error or the scanlines of the zlib stream, then the rows or the passes |
| `Png.ImageComesBack` | lsapi/picopng.cpp:318-344 | every image of at least 8 bits per pixel comes back from its filtered and compressed rows, whatever filter types and blocks an encoder chooses |
| `Png.InterlacedImageComesBack` | lsapi/picopng.cpp:318-368 | so does every interlaced one |
| `TaskExecutor.WorkerCount` | lsapi/TaskExecutor.cpp:32-47 | half of the hardware threads, but two to four; three if their number is unknown |
| `TaskExecutor.TaskExecutor.constructor` | lsapi/TaskExecutor.cpp:29-53 | the object is at the start of a run; every other method of the class keeps it at the end of one and adds its step to it |
| `TaskExecutor.TaskExecutor.SubmitLook` | lsapi/TaskExecutor.cpp:63-68 | a submission is rejected at once when the pool stops or there is nothing to execute |
| `TaskExecutor.TaskExecutor.SubmitAllocate` | lsapi/TaskExecutor.cpp:70-75 | a handle is taken outside of the lock, also when the pool has been told to stop since |
| `TaskExecutor.TaskExecutor.SubmitEnqueue` | lsapi/TaskExecutor.cpp:77-81 | the lock is taken and m_stopping is looked at again |
| `TaskExecutor.TaskExecutor.SubmitPush` | lsapi/TaskExecutor.cpp:82-87 | the record is queued and registered, although m_stopping can have been set since |
| `TaskExecutor.TaskExecutor.CancelFind` | lsapi/TaskExecutor.cpp:92-99 | Cancel finds a registered record |
| `TaskExecutor.TaskExecutor.CancelStore` | lsapi/TaskExecutor.cpp:101 | and marks it, possibly much later |
| `TaskExecutor.TaskExecutor.WorkerTake` | lsapi/TaskExecutor.cpp:182-194 | a worker takes the front of the queue, or exits when the pool stops and the queue is empty |
| `TaskExecutor.TaskExecutor.WorkerCheckCancelled` | lsapi/TaskExecutor.cpp:200 | a worker skips a cancelled record, which has then not been executed or reported as executed, and goes on to run any other |
| `TaskExecutor.TaskExecutor.WorkerExecute` | lsapi/TaskExecutor.cpp:201 | or runs it |
| `TaskExecutor.TaskExecutor.WorkerLoadFlag` | lsapi/TaskExecutor.cpp:204-208 | and reports it with its mark, or finalizes it if nobody wants to know |
| `TaskExecutor.TaskExecutor.EnqueueCompletion` | lsapi/TaskExecutor.cpp:212-229 | a completion is posted, or completed by the worker when that fails |
| `TaskExecutor.TaskExecutor.CallCompletion` | lsapi/TaskExecutor.cpp:135-137 | the completion callback is called where there is one |
| `TaskExecutor.TaskExecutor.WorkerComplete` | lsapi/TaskExecutor.cpp:215-217 | the worker completes what it could not post; what is reported as not cancelled has been executed once |
| `TaskExecutor.TaskExecutor.WorkerErase` | lsapi/TaskExecutor.cpp:232-235 | the record leaves the registry |
| `TaskExecutor.TaskExecutor.WorkerFinish` | lsapi/TaskExecutor.cpp:237-241 | the record is marked finished |
| `TaskExecutor.TaskExecutor.ReceivePayload` | lsapi/TaskExecutor.cpp:128-134 | the window's thread takes a payload |
| `TaskExecutor.TaskExecutor.CompletePayload` | lsapi/TaskExecutor.cpp:135-137 | completes it |
| `TaskExecutor.TaskExecutor.ErasePayload` | lsapi/TaskExecutor.cpp:138-140 | erases its record |
| `TaskExecutor.TaskExecutor.FinishPayload` | lsapi/TaskExecutor.cpp:237-241 | and marks it finished |
| `TaskExecutor.TaskExecutor.ShutdownBegin` | lsapi/TaskExecutor.cpp:144-147 | only the first Shutdown goes on |
| `TaskExecutor.TaskExecutor.ShutdownCollect` | lsapi/TaskExecutor.cpp:157-165 | all registered records are taken and the queue is emptied; they are exactly those with an unprocessed payload |
| `TaskExecutor.TaskExecutor.ShutdownCall` | lsapi/TaskExecutor.cpp:167-170 | each is completed as cancelled; when it is through, every accepted record is finished and has been completed exactly once |
| `TaskExecutor.TaskExecutor.ShutdownFinish` | lsapi/TaskExecutor.cpp:171-175 | and marked finished |
| `TaskExecutor.TaskExecutor.WaitFind` | lsapi/TaskExecutor.cpp:105-114 | Wait is over for a handle that is not registered; unless the pool stops, an accepted one has then been completed |
| `TaskExecutor.TaskExecutor.WaitCheck` | lsapi/TaskExecutor.cpp:116-126 | what Wait waits for is that the record is finished, which means completed unless the pool stops |
| `TaskExecutor.TaskExecutor.Ready` | lsapi/TaskExecutor.cpp:59-242 | a thread in front of a step can take it: the records it uses exist |
| `TaskExecutor.TaskExecutor.AtMostOnce` | lsapi/TaskExecutor.cpp:59-242 | in whatever order the methods are called, nothing is executed or completed twice |
| `TaskExecutor.TaskExecutor.AllCompleted` | lsapi/TaskExecutor.cpp:143-177 | after the drain everything that was accepted is finished and has been completed once |
| `TaskExecutor.TaskExecutor.CancelledIsSkipped` | lsapi/TaskExecutor.cpp:200-206 | what was cancelled before a worker had looked at it is never executed, nor reported as executed |
| `TaskExecutor.TaskExecutor.ExecutedUnlessCancelled` | lsapi/TaskExecutor.cpp:200-202 | what is finished and was not cancelled has been executed once |
| `Pool.StepInv` | lsapi/TaskExecutor.cpp:59-242 | every atomic step of submitters, cancellers, workers, window and shutdown keeps the invariant |
| `Pool.RunInv` | lsapi/TaskExecutor.cpp:59-242 | the invariant holds in every state of every interleaving |
| `Pool.OnePlaceEach` | lsapi/TaskExecutor.cpp:59-88 | every accepted record is at exactly one place (queued, at one worker, posted, at the window, in the drain, done), registered until it is erased, executed at most once and completed at most once |
| `Pool.ReportedMeansExecuted` | lsapi/TaskExecutor.cpp:200-206 | a completion with cancelled = FALSE follows exactly one execution |
| `Pool.StoppingStays` | lsapi/TaskExecutor.cpp:77-87 | a pool that stops goes on stopping, and takes in no record but the one whose submitter holds the lock |
| `Pool.ExitedMeansDrained` | lsapi/TaskExecutor.cpp:186-188 | once a worker has exited the pool stops, and its queue is empty and nothing is pushed any more, for good |
| `Pool.JoinedLeavesPosted` | lsapi/TaskExecutor.cpp:149-163 | when all workers are joined the registered records are exactly those with an unprocessed payload |
| `Pool.ShutdownLosesNothing` | lsapi/TaskExecutor.cpp:143-177 | after the drain every accepted record is finished and has been completed exactly once if it has a completion callback |
| `Pool.StoppedIsFinal` | lsapi/TaskExecutor.cpp:77-82 | after the drain nothing is accepted, executed or completed any more |
| `Pool.WaitMeansCompleted` | lsapi/TaskExecutor.cpp:105-126 | when Wait returns the completion has been called, exactly unless the drain has taken the record over and not come to it yet |
| `Pool.WaitBeforeShutdown` | lsapi/TaskExecutor.cpp:105-126 | as long as the pool has not been told to stop, Wait returning means completed |
| `Pool.WaitReturnsEarly` | lsapi/TaskExecutor.cpp:157-169 | a run in which Wait returns before the completion has been called |
| `Pool.ShutdownHappens` | lsapi/TaskExecutor.cpp:143-177 | such runs exist: one in which a posted completion is called by the drain |
| `PoolRuns.CancelledInTime` | lsapi/TaskExecutor.cpp:200-206 | in every run, a record that is cancelled while it is queued or just taken is not executed and not reported as executed from then on |
| `PoolRuns.FinishedMeansExecuted` | lsapi/TaskExecutor.cpp:200-208 | a finished record that was not cancelled has been executed exactly once, and, unless the drain came before, completed with FALSE and not with TRUE |
| `PoolRuns.AbortedMeansCancelled` | lsapi/TaskExecutor.cpp:167-206 | a completion with TRUE is called for cancelled records, or by the drain |
| `PoolRuns.CancelledMeansAsked` | lsapi/TaskExecutor.cpp:90-103 | a record is cancelled if and only if Cancel has marked it |
| `PoolRuns.AcceptedAsSubmitted` | lsapi/TaskExecutor.cpp:70-84 | an accepted record has the handle and the callback it was submitted with |
| `PoolRuns.TakenInOrder` | lsapi/TaskExecutor.cpp:82-192 | until the drain, what has been pushed is what workers have taken, in this order, followed by the queue |
| `Matcher.ReadRange` | lsapi/match.cpp:355-397 | one character or range of a set, or a bad pattern |
| `Matcher.InRange` | lsapi/match.cpp:402-417 | ranges cover the same characters in either order |
| `Matcher.ScanRanges` | lsapi/match.cpp:343-418 | whether some range before the closing bracket covers the character |
| `Matcher.SkipRanges` | lsapi/match.cpp:427-449 | the rest of a set is skipped up to its closing bracket |
| `Matcher.MatchSet` | lsapi/match.cpp:324-450 | a set or negated set takes the character or not |
| `Matcher.MatchItem` | lsapi/match.cpp:313-471 | what one construct other than a star does to a character |
| `Matcher.Matche` | lsapi/match.cpp:296-481 | for every well-formed pattern: valid if and only if the text is in the language that the matcher accepts, and an abort means that no suffix of the text is |
| `Matcher.MatcheAfterStar` | lsapi/match.cpp:675-736 | the same behind a star |
| `Matcher.TryEveryStart` | lsapi/match.cpp:713-732 | the loop over the starts in the text stops at a match, or at an abort because no later start can match either |
| `Matcher.AtEnd` | lsapi/match.cpp:307-310 | at the end of the text the matcher accepts the empty pattern and a lone star only |
| `Matcher.OneStep` | lsapi/match.cpp:304-472 | a construct that takes its character leaves the match, and the absence of any later one, to the rest |
| `Matcher.StarSuffix` | lsapi/match.cpp:713-732 | a star means that the rest matches some suffix |
| `Matcher.IsMatch` | lsapi/match.cpp:807-810 | matching is membership in the accepted language, which is the documented one when the pattern has no dead tail |
| `Glob.EffectiveIsExact` | lsapi/match.cpp:307-310 | without a dead tail the matcher acts on the pattern as it is, with one it asks for one character more |
| `Glob.PromiseKept` | lsapi/match.cpp:277-292 | the documented language is accepted if and only if the pattern has no dead tail (a final run of ? and * with stars behind its first star) or matches nothing anyway |
| `Glob.DeadTailFails` | lsapi/match.cpp:307-310 | an input for which it is not: the pattern ** does not match the empty text |
| `Patterns.ParseInvertsWrite` | lsapi/match.cpp:277-292 | every list of constructs is read back from each way to write it, with characters quoted or not and sets inverted by ! or ^ |
| `Patterns.RangeCoversBetween` | lsapi/match.cpp:402-417 | a range covers the characters between its ends, whichever comes first |
| `Patterns.SetsTake` | lsapi/match.cpp:419-424 | a set takes the ends of its ranges, an inverted one what the set does not take |
| `Prefixes.ExpandIsMeaning` | lsapi/SettingsFileParser.cpp:314-349 | in a group a run of k @ is replaced by the k-th innermost group's name, or by nothing beyond the outermost |
| `Prefixes.RunNamesGroup` | lsapi/SettingsFileParser.cpp:327-344 | which is the full name of that group, as the keys along its path give it |
| `Prefixes.FullNameIsConcatenation` | lsapi/SettingsFileParser.cpp:266-292 | the full name of a key is the concatenation of the keys along its path with all stars in front, and a key that is just - adds nothing |
| `Prefixes.StackHoldsNames` | lsapi/SettingsFileParser.cpp:357-363 | the stack holds the full names of the groups, the innermost first |
| `Prefixes.FlatCarriesFullNames` | lsapi/SettingsFileParser.cpp:266-298 | each line of the flat file carries the full name of its path, if its keys are prefixed |
| `Prefixes.PrefixIsApplied` | lsapi/SettingsFileParser.cpp:276-284 | a key that is no keyword gets its prefix if and only if it is no beginning of a keyword |
| `Prefixes.KeywordsStay` | lsapi/SettingsFileParser.cpp:276-284 | keywords are left as they are inside of groups |
| `Prefixes.BeginningOfKeyword` | lsapi/SettingsFileParser.cpp:277-281 | an input for which it does not: En |
| `Prefixes.ReadGroups` | lsapi/SettingsFileParser.cpp:231-371 | reading nested groups, whatever follows: the lines with their full keys, and the stack as before behind the closing brace |
| `Prefixes.GroupsMeanConcatenation` | lsapi/SettingsFileParser.cpp:231-371 | groups mean their flat file, whatever follows, if and only if no head of a group has a value of which a part stays in the buffer until a line comes |
| `Prefixes.ValuelessGroupsMeanConcatenation` | lsapi/SettingsFileParser.cpp:231-371 | so they do whenever heads have no values |
| `Prefixes.HeadSpoilsValue` | lsapi/SettingsFileParser.cpp:322-363 | an input for which they do not: a head whose value has an @ |
| `SettingsFileParser.FileParser.ReadNextLine` | lsapi/SettingsFileParser.cpp:175-221 | the read-ahead moves by one line |
| `SettingsFileParser.FileParser.ExpandValue` | lsapi/SettingsFileParser.cpp:314-349 | the loop over the @ of a value |
| `SettingsFileParser.FileParser.ReadLineFromFile` | lsapi/SettingsFileParser.cpp:231-371 | the next line with its full key and expanded value, with braces taken care of |
| `Blocks.SkipIfCloses` | lsapi/SettingsFileParser.cpp:782-797 | skipping takes exactly the lines through the endif that closes the block at any nesting, or all lines if there is none |
| `Blocks.RunTree` | lsapi/SettingsFileParser.cpp:699-718 | a loop over the lines of a tree does what the tree means, in each of the three loops and whatever follows |
| `Blocks.BlockMeansTree` | lsapi/SettingsFileParser.cpp:670-775 | a block takes the branch its tree says and leaves the lines behind its endif |
| `Blocks.FirstDecides` | lsapi/SettingsFileParser.cpp:677-774 | the first branch whose condition is not false decides, with all conditions evaluated in the settings as they were at the if; an error skips the block |
| `Blocks.FileMeansItsTree` | lsapi/SettingsFileParser.cpp:155-163 | a file leaves the settings that its tree evaluates to |
| `Blocks.GroupedFileMeansItsTree` | lsapi/SettingsFileParser.cpp:70-166 | the same for a file that is written in groups |
| `Blocks.FileOfSettings` | lsapi/SettingsFileParser.cpp:155-163 | a file of settings adds its lines, with the names that its groups give them, in their order |
| `Blocks.FileNotRead` | lsapi/SettingsFileParser.cpp:89-138 | a name that leads nowhere, to no file or to one that is being read adds nothing |
| `Blocks.IncludeReads` | lsapi/SettingsFileParser.cpp:487-505 | an include directive reads the file it names and does nothing else |
| `Blocks.FolderOfSettings` | lsapi/SettingsFileParser.cpp:507-592 | a directive for a folder of files of settings adds the lines of all of them, in their order |
| `Blocks.SetVarReplaces` | lsapi/SettingsFileParser.cpp:594-654 | a !SetVar gives its variable the one new value, and all other names keep theirs, in their order |
| `Blocks.FileWithBlock` | lsapi/SettingsFileParser.cpp:670-775 | a file with an if and an else adds the settings of one of them, or none if the condition is in error |
| `Blocks.UnclosedBlock` | lsapi/SettingsFileParser.cpp:699-773 | a block that is not closed ends with the file |
| `Blocks.StrayLines` | lsapi/SettingsFileParser.cpp:465-486 | at the top of a file an else, elseif or endif that belongs to no if is taken for a setting |
| `Blocks.TrailIsBounded` | lsapi/SettingsFileParser.cpp:89-121 | a trail without repetition is no longer than the number of files |
| `SettingsFileParser.FileParser.SkipIf` | lsapi/SettingsFileParser.cpp:782-797 | the method skips what the function skips |
| `SettingsFileParser.FileParser.ProcessBranch` | lsapi/SettingsFileParser.cpp:699-718 | the loop over a branch that was true |
| `SettingsFileParser.FileParser.FindBranch` | lsapi/SettingsFileParser.cpp:720-773 | the loop that looks for a branch |
| `SettingsFileParser.FileParser.ProcessElse` | lsapi/SettingsFileParser.cpp:737-766 | the loop over an else branch, with the error of an elseif in it |
| `SettingsFileParser.FileParser.ProcessIf` | lsapi/SettingsFileParser.cpp:670-775 | a block, by the value of its condition |
| `SettingsFileParser.FileParser.ProcessLine` | lsapi/SettingsFileParser.cpp:465-473 | a line or block |
| `SettingsFileParser.FileParser.ProcessPlain` | lsapi/SettingsFileParser.cpp:487-662 | include, includefolder and !SetVar directives and settings; a stray else, elseif or endif is a setting |
| `SettingsFileParser.FileParser.SetVariable` | lsapi/SettingsFileParser.cpp:594-654 | a !SetVar replaces all appearances of its variable |
| `SettingsFileParser.FileParser.ParseFiles` | lsapi/SettingsFileParser.cpp:565-584 | the files of a folder one after the other |
| `SettingsFileParser.FileParser.ParseFile` | lsapi/SettingsFileParser.cpp:70-166 | reading a file terminates on every finite set of files, cyclic includes included; no file is twice on the trail, where paths are compared without regard to case, and it is as before on return |
| `Tokens.ScanInvertsWrite` | lsapi/MathScanner.cpp:80-129 | every list of tokens is read back from every way to spell them (reserved words in any case, both signs for not equal, texts in either quotes with any escapes) and to space them that keeps apart tokens which would stick together |
| `Tokens.ScanSpelled` | lsapi/MathScanner.cpp:31-129 | a token at the front of a text is found in each of its spellings, two-character symbols before their beginnings |
| `Tokens.IllegalCharacters` | lsapi/MathScanner.cpp:127-128 | $, brackets and semicolons are in no token outside of texts |
| `MathScanner.MathScanner.Next` | lsapi/MathScanner.cpp:146-160 | the buffer of two characters shifts along the input |
| `MathScanner.MathScanner.SkipSpace` | lsapi/MathScanner.cpp:253-259 | spaces are skipped |
| `MathScanner.MathScanner.ScanIdentifier` | lsapi/MathScanner.cpp:163-174 | the longest name at the front, or the reserved word it is |
| `MathScanner.MathScanner.ScanNumber` | lsapi/MathScanner.cpp:177-200 | digits with at most one point |
| `MathScanner.MathScanner.ScanString` | lsapi/MathScanner.cpp:203-250 | a text in quotes with its escapes, or the error |
| `MathScanner.MathScanner.ScanSymbol` | lsapi/MathScanner.cpp:107-128 | the first entry of the symbol table that matches |
| `MathScanner.MathScanner.NextToken` | lsapi/MathScanner.cpp:80-129 | the next token or error |
| `Expressions.ParsePrinted` | lsapi/MathParser.cpp:444-642 | parsing the printed form of a tree at any level gives its value or first error and goes on behind it; binary levels associate to the left, the unary level does not nest |
| `Expressions.ParsePrintedArgs` | lsapi/MathParser.cpp:649-659 | so do arguments, all of which are evaluated |
| `Expressions.TextHasValueOfTree` | lsapi/MathParser.cpp:166-180 | for every tree and meaning of the operators, the text with as few parentheses as can be, spelled in any way, has the value of the tree or its first error |
| `Expressions.TextWithValueHasTree` | lsapi/MathParser.cpp:166-180 | conversely every text that has a value is that of a tree with the same value |
| `Expressions.MixedOperators` | lsapi/MathParser.cpp:57-91 | of two operators in a row the tighter one takes its operands first, from the loosest to the tightest: or, and, comparisons, &, + and -, and * / div mod |
| `Expressions.UnaryFirst` | lsapi/MathParser.cpp:410-434 | signs and not take the operand next to them only |
| `Expressions.ConstantTexts` | lsapi/MathParser.cpp:326-381 | true, false, infinity and nan in any case, numbers and texts in quotes have their values |
| `Expressions.VariableText` | lsapi/MathParser.cpp:208-282 | a name has the value of its variable, which has to be defined where that is asked for |
| `Expressions.DefinedText` | lsapi/MathParser.cpp:383-393 | defined(name) tells whether the variable has a value |
| `Expressions.ErrorsAhead` | lsapi/MathParser.cpp:166-180 | a text that cannot be scanned to its end: the parser looks two tokens ahead, and has the error of the scanner only if it comes so near to it |
| `Expressions.PredefinedFunctions` | lsapi/MathParser.cpp:136-163 | the predefined functions and their numbers of arguments |
| `Expressions.EvaluateAgrees` | lsapi/MathParser.cpp:208-282 | the value of a text depends on no variables but those it names |
| `MathParser.MathParser.Fill` | lsapi/MathParser.cpp:166-171 | the first two tokens are scanned |
| `MathParser.MathParser.Next` | lsapi/MathParser.cpp:679-690 | each token taken scans the one after the next, whose error comes first |
| `MathParser.MathParser.Match` | lsapi/MathParser.cpp:662-676 | a token of the expected kind, or a syntax error |
| `MathParser.MathParser.ParsePrimaryExpression` | lsapi/MathParser.cpp:297-401 | primary expressions |
| `MathParser.MathParser.ParseCall` | lsapi/MathParser.cpp:299-319 | calls, with unknown functions and wrong numbers of arguments as errors |
| `MathParser.MathParser.ParseDefined` | lsapi/MathParser.cpp:383-393 | the test for a definition |
| `MathParser.MathParser.ParseUnaryExpression` | lsapi/MathParser.cpp:410-434 | unary expressions |
| `MathParser.MathParser.ParseBinaryExpression` | lsapi/MathParser.cpp:444-633 | the six binary levels |
| `MathParser.MathParser.ParseExpressionList` | lsapi/MathParser.cpp:649-659 | arguments |
| `MathParser.MathParser.Evaluate` | lsapi/MathParser.cpp:174-180 | an expression up to the end of the text |
| `Variables.Lookup` | lsapi/settingsmanager.cpp:71-86 | the first appearance of a name without regard to case |
| `Variables.LookupIsFirst` | lsapi/settingsmanager.cpp:71-86 | of several appearances of a name the first is found |
| `Variables.AssignedIsFound` | lsapi/settingsmanager.cpp:385-401 | a variable has the value set last and the others keep theirs |
| `Variables.ReplaceSubstitutes` | lsapi/settingsmanager.cpp:421-560 | the loop over a template is the substitution of its pieces: text, $$, references, an unterminated reference |
| `Variables.TemplateHasPieces` | lsapi/settingsmanager.cpp:421-450 | every template is made of such pieces |
| `Variables.EmptiedByVisited` | lsapi/settingsmanager.cpp:470-483 | an expansion is abandoned if and only if a reference names what is being expanded |
| `Variables.ExpandIsPure` | lsapi/settingsmanager.cpp:411-565 | if no way of references from the template comes back to a name on the way, expansion, math evaluation and variable lookup together are the substitution, which keeps no set of names; cycles that it does not reach do not matter |
| `Variables.ExpandSubstitutes` | lsapi/settingsmanager.cpp:411-565 | then the expansion of the template is the sequence of the values of its pieces, whatever is being expanded around it |
| `Variables.ReferenceUnfolds` | lsapi/settingsmanager.cpp:485-513 | a reference then stands for what the first token of its setting stands for |
| `Variables.ReferenceStandsFor` | lsapi/settingsmanager.cpp:485-534 | a reference stands for its setting, else for the environment variable of that name, else for the value of the name as an expression, or nothing if that has an error; terminal settings are taken as they are, of others the first token |
| `Variables.NameStandsFor` | lsapi/MathParser.cpp:208-282 | the value that a setting has in an expression: false, off and no, true, on, yes and nothing at all, numbers, texts in quotes and other texts |
| `Variables.ExpandIgnoresVisited` | lsapi/settingsmanager.cpp:470-483 | the names that are being expanded around a template do not change what it stands for |
| `Variables.RankedIsAcyclic` | lsapi/settingsmanager.cpp:411-565 | a condition on the settings for it: those below some rank only refer to settings of lower ranks |
| `Variables.CyclesElsewhere` | lsapi/settingsmanager.cpp:470-483 | next to a setting that refers to itself another one is expanded |
| `SettingsManager.SettingsManager.FindLine` | lsapi/settingsmanager.cpp:71-86 | the first appearance |
| `SettingsManager.SettingsManager.SetVariable` | lsapi/settingsmanager.cpp:385-401 | a variable is overwritten or added |
| `SettingsManager.SettingsManager.FindEnd` | lsapi/settingsmanager.cpp:437-442 | the end of a reference |
| `SettingsManager.SettingsManager.ReferenceValue` | lsapi/settingsmanager.cpp:460-483 | the value of a reference, or the end of the expansion |
| `SettingsManager.SettingsManager.SubstituteVariable` | lsapi/settingsmanager.cpp:485-534 | a setting, an environment variable or an expression |
| `SettingsManager.SettingsManager.VarExpansionEx` | lsapi/settingsmanager.cpp:411-565 | the loop gives the expansion and terminates on all settings, cyclic ones included |
| `Tokenizer.GetToken` | lsapi/lsapi.cpp:766-885 | the next text is strictly shorter, so that every loop over tokens ends |
| `Tokenizer.GetTokenW` | lsapi/lsapi.cpp:766-885 | the loop over the characters with bracket level and quote, and the appended text in quotes |
| `Tokenizer.BracketsQuote` | lsapi/lsapi.cpp:796-823 | a text in brackets comes back as it is, whatever spaces and quotes it has and whatever follows, if and only if its brackets are balanced |
| `Tokenizer.QuotesQuote` | lsapi/lsapi.cpp:825-842 | a text in quotes comes back as it is if it has no such quote |
| `Tokenizer.WordStands` | lsapi/lsapi.cpp:786-855 | a word ends at the first space, and the next token is looked for behind the blanks there |
| `Tokenizer.WordWithQuotes` | lsapi/lsapi.cpp:825-881 | a text in quotes that follows a word is appended to it |
| `Tokenizer.BlanksFirst` | lsapi/lsapi.cpp:781 | blanks in front of a token do not matter |
| `Tokenizer.TokenizeText` | lsapi/lsapi.cpp:633-665 | the tokens for the buffers there are, and the text left |
| `Tokenizer.Count` | lsapi/lsapi.cpp:667-673 | the number of tokens up to the first that is none |
| `Tokenizer.TokenizeInvertsWrite` | lsapi/lsapi.cpp:623-677 | a list of words and of texts in quotes and in brackets is taken apart again, with any number of buffers |
| `AppBars.WorkAreaIsRest` | litestep/TrayService.cpp:1598-1638 | the work area is exactly the points of the monitor that no bar reserves |
| `AppBars.WorkAreaIsBounds` | litestep/TrayService.cpp:1598-1638 | it is the monitor shrunk to the innermost side on each of the four edges, or empty, if and only if no bar with an unknown edge reserves space or the sides enclose nothing anyway |
| `AppBars.UnknownEdgeTakesAll` | litestep/TrayService.cpp:1616-1636 | a bar with an unknown edge leaves no work area |
| `AppBars.UnknownEdgeHappens` | litestep/TrayService.cpp:1616-1636 | an input for which this matters: a bar ten high whose edge is given as 7 |
| `AppBars.OrderDoesNotMatter` | litestep/TrayService.cpp:1600-1638 | it depends on which bars there are, not on their order |
| `AppBars.WorkAreaIsFree` | litestep/TrayService.cpp:1616-1636 | no bar that lies on its monitor covers any of it |
| `AppBars.BarTakes` | litestep/TrayService.cpp:1600-1636 | a bar that is positioned on the monitor, of a living window and over no other, takes what is up to its inner side |
| `AppBars.OtherBarsTakeNothing` | litestep/TrayService.cpp:1606-1613 | any other bar leaves the work area as it is |
| `AppBars.WindowsStayDistinct` | litestep/TrayService.cpp:906-955 | no window ever has two bars |
| `AppBars.CreateAddsOne` | litestep/TrayService.cpp:906-917 | a living window that has no bar gets one behind the others, which is nowhere yet |
| `AppBars.SetPosMovesOne` | litestep/TrayService.cpp:1017-1066 | positioning changes the bar of the window only |
| `AppBars.DestroyRemovesOne` | litestep/TrayService.cpp:932-955 | the bar of a window is removed and no other |
| `AppBars.RunIsLaid` | litestep/TrayService.cpp:1017-1066 | the invariant of runs that register bars and position them in the order of their registration on one monitor |
| `AppBars.BarsTileEdges` | litestep/TrayService.cpp:1486-1510 | after every such run the bars at an edge tile it: each keeps the size it asked for and starts where those before it end |
| `AppBars.BarsKeepClear` | litestep/TrayService.cpp:1461-1510 | bars at the same edge do not overlap, and a bar at the left or right does not overlap the bars at top and bottom that were positioned before it |
| `AppBars.BarsKeepLengths` | litestep/TrayService.cpp:1523-1537 | sideways each bar is as long as it wanted to be within the area, and at the left or right ends earlier only where a bar at the top or bottom ends |
| `AppBars.PlacedAgain` | litestep/TrayService.cpp:1443-1510 | a bar that asks for a place again, at whatever edge, gets it behind the bars before it at that edge, whatever bars there are behind it |
| `AppBars.OverlapAtEdge` | litestep/TrayService.cpp:1369-1396 | a bar that hides itself lies at the very edge of its monitor |
| `AppBars.AreaForIs` | litestep/TrayService.cpp:1410-1438 | bars of the primary monitor are placed in its reduced area, those of another one in the whole of it |
| `TrayService.NotifiedIfMoved` | litestep/TrayService.cpp:1017-1066 | the others are notified if and only if a bar that lies over no other is placed first or elsewhere |
| `TrayService.TrayService.FindBar` | litestep/TrayService.cpp:1781-1785 | the first bar of a window |
| `TrayService.TrayService.BarCreate` | litestep/TrayService.cpp:906-917 | a bar for a window that has none |
| `TrayService.TrayService.BarDestroy` | litestep/TrayService.cpp:932-955 | the bar of the window goes |
| `TrayService.TrayService.ModifyNormalBar` | litestep/TrayService.cpp:1404-1513 | the loop over the bars finds the place |
| `TrayService.TrayService.BarSetPos` | litestep/TrayService.cpp:1017-1066 | the bar is put at its place and the others stay; they are to be notified if and only if it is positioned first or anew |
| `TrayService.TrayService.AdjustWorkArea` | litestep/TrayService.cpp:1573-1638 | the loop over the bars gives the work area |

## Left out

- Inflator.Inflator.Inflate: bytes behind the end of the input, which the source would read out of bounds, count as 0; a copy from before the start of the output and symbol 16 without a length before it stop with an error code of their own, because the source reads out of bounds there.
- Huffman.HuffmanTree.MakeFromLengths: takes at least two lengths of at most 32 bits; all callers pass 19, 32 or 288 of at most 15.
- Filter.UnFilterScanline: the loops of a filter type for the first pixel and for the rest of the line are one loop here, with the cases in PredictByte.
- Adam7.DecodeInterlaced: says nothing of the image after an error, and the passes that the source then leaves at their first line are not entered.
- Png.DecodePixels: images of less than 8 bits per pixel, palettes, colour conversion and the walk over the chunks; images without columns.
- Matcher.Matche: promises a result other than a bad pattern for well-formed patterns only; one half of a malformed set can still match.
- Glob.PromiseKept: is about one of the two textually parallel copies, for narrow and for wide characters.
- Pool.RunInv: the thread of the window is the one that shuts the pool down, and drops the payloads it receives afterwards (lsapi/lsapiInit.cpp:45-50 and 173-179); handles are not bounded to 64 bits.
- TaskExecutor.TaskExecutor.WaitCheck: is one look at the record, not the waiting between looks; a time limit is that the caller looks no more.
- Pool.ShutdownLosesNothing: is about runs that end; that the workers can always be joined does not follow from the code, which sets m_stopping without the lock.
- TaskExecutor.TaskExecutor.View: records are values in a map here, shared pointers in the source; the registry is the set of its handles. Sections under m_mutex other than that of Submit are one step each.
- SettingsFileParser.FileParser.ReadNextLine: lines come without blank lines and comments and with key and stripped value apart; reading characters and stripping comments is not modelled.
- SettingsFileParser.FileParser.ProcessPlain: which files a folder has and what a file name expands to are parameters; the numbers of lines on the trail, which are for messages only, are left out.
- SettingsFileParser.FileParser.SetVariable: the variable and the value that a !SetVar directive assigns are a parameter.
- SettingsFileParser.FileParser.ProcessBranch: the three loops of _ProcessIf are methods of their own.
- Blocks.RunTree: is about the release build; the debug build drops a stray else, elseif or endif instead of storing it.
- MathParser.MathParser.Fill: fills the buffer after construction, because it can fail; the six functions for binary levels are one method.
- Expressions.TextWithValueHasTree: is about the tokens of the text, which can be spelled in several ways.
- Variables.ExpandSubstitutes: texts fit into the buffers, and settings with equal names keep the order in which they were added.
- Variables.ExpandIsPure: message boxes are left out. The substitution is given a depth, which is enough if it is the number of settings that are not being expanded.
- Tokenizer.GetTokenW: spaces are those of the C locale, and names everywhere are compared without regard to the case of ASCII letters only.
- AppBars.BarsTileEdges: in a run bars are positioned once each and in the order of their registration; one that asks again is placed as PlacedAgain says, and what happens until moved bars have answered a notification is not claimed.
- TrayService.TrayService.BarSetPos: shared memory, messages to other bars and bars that hide themselves, apart from their place.
- Registry, DDE, COM, drawing, modules, bangs and process handling: calls of the system with little logic of their own.
- DataStore, MessageManager, ModuleManager and string helpers: maps and lists that would add easy members only.
- is_valid_pattern: disagrees with the matcher on malformed sets.
