# Verified models of TWAPI's algorithmic cores

TWAPI is a Tcl extension for Windows. Most of it wraps system calls; this project models the parts
that compute something themselves and proves what their callers rely on.

**The LZMA decoder** (`twapi/base/lzmadec.c`), in layers.
`RangeCoder` is the binary range decoder on 32-bit words. `DecisionTree` describes one symbol as a
tree of adaptive and direct bits that can be run with table updates (the real decoder) or without
(the dry run), and carries the general facts about such trees: a run is not changed by bytes that
follow, a tree that never re-reads a probability runs the same either way, and a tree that shrinks
the range by less than twenty bytes' worth never reads a twenty-first byte. `SymbolGrammar` is the
tree of an LZMA symbol over the one packed table; `GrammarFacts` and `TableFacts` prove that it is
such a tree and that its indices tile the table. `History` is the circular dictionary against an
unbounded output history. `LzmaStream` is the decoder as a machine over that history: one symbol,
many symbols up to a limit, one call, many calls. `Basics` holds the words, powers and products all
models share. `LzmaFormat` states independently which bits the format writes for a symbol, and
`LzmaEncoding` is a writer of streams, the decoder's inverse: it codes these bits by narrowing an
interval, and its symbols mean what the format says. The repository has no such writer; it is there
so that "decoding gives back what was written" pins every part of the decoder down.
`SymbolDecoder`, `DryDecoder`, `LzmaDry`, `LzmaCore`, `LzmaReal`, `LzmaDecoder` (file `LzmaDec.dfy`),
`LzmaInterface` and `LzmaStreaming` are the code: loops over probabilities and dictionary held in
arrays, and a class `LzmaDec` whose
methods are proved against that machine. The zero-fill reads of the model past the end of the
input only make the functions total; every theorem about the decoder is stated for inputs that
suffice, and "the input does not suffice" is itself part of the specification (`Used > |src|`).

**The mark/release allocator** (`twapi/base/memlifo.c`): `LifoState` (blocks, marks, the ledger of
what was handed out, the invariant), `LifoSteps` (what each elementary step keeps), `MemLifo` (class
`Lifo`, one method per C function), `LifoRuns` (arbitrary balanced runs).

**C structures** (`twapi/base/ffi.c`): `Alignment` (the mask form as bitwise arithmetic),
`CStructLayout` (the layout computation in 32-bit arithmetic), `LayoutFacts` (when that is a C
layout), `CStructValues` (numbers in memory, canonical forms), `CStructCodec` (encoder, decoder,
round trip).

**Smaller cores**: `IndexTuples` and `SafeArrays` (`twapi/base/tclobjs.c`), `Pbkdf2`
(`twapi/crypto/pbkdf2.c`), `OneTimeInit` (`twapi/base/util.c`) and `CallbackHandoff`
(`twapi/base/async.c`); the last two are protocols, modelled as atomic steps under every schedule.

## Where the code does less than one might expect

- `code < range` is not kept by a direct bit: from an odd range and `code == range - 1` it leaves
  the two equal (`RangeCoder.DirectKeepsBelow`: exactly then). The start bytes set `code == range`
  exactly when four of them are 0xFF (`LzmaStream.StartCode`). The branch-free direct bit equals the
  conditional form in its comment exactly while `code < range/2 + 2^31`
  (`RangeCoder.DirectIsConditional`).
- `MemLifoExpandLast` compares an unsigned increment as a signed int and adds sizes modulo 2^32. For
  a block in a chunk an increment above 0x7FFFFFF8 always "succeeds", and up to 0xFFFFFFF8 it moves
  the free pointer past the chunk. For a big block that may move, such an increment is refused
  unless the rounding or the sum wraps; then the block is replaced by one asked for with no more
  than its old size, and the old size is copied into it: growing by 0xFFFFFFF8 asks for 8 bytes less
  (`MemLifo.RequestIs`, `MemLifo.WrappedInputs`). `MemLifoResizeLast` takes a size above 0xFFFFFFF8
  for 0, and in a chunk moves the free pointer past the end when the rounded size exceeds the old
  one by more than 0x7FFFFFF8. Success means what it should exactly under `MemLifo.CanExpand` and
  `MemLifo.CanResize`, which the two methods' contracts state as an equivalence. Above 0xFFFFFFF8
  nothing worse happens than a block that does not grow or is cut to nothing; the other cases are
  the ones before which a run in `LifoRuns` is broken off.
- The size of a new chunk is computed in 32 bits. It cannot wrap exactly for chunk sizes up to
  0x7FFFFFE8; with 0x7FFFFFF0 and the largest request it comes to 0 (`MemLifo.AskForFits`).
- The layout of a C structure uses 32-bit arithmetic without an overflow check. It is a C layout
  if and only if the structure's true size is below 2^32 (`LayoutFacts.LayoutIffFits`,
  counterexample `LayoutFacts.TooLarge`). From there on two fields always share a byte or one
  reaches past the end, in the structure or in one nested in it (`LayoutFacts.TidyIffFits`); for the
  counterexample there are values that no memory shows (`CStructCodec.NoSuchMemory`).
- PBKDF2 accepts an iteration count of 0, which section 5.2 of RFC 2898 does not define, and
  returns zeros (`Pbkdf2.Derive`). Its input buffer is large enough if and only if the salt is
  shorter than 2^32 - 4 bytes (`Pbkdf2.SaltFits`).
- A callback whose waiter times out is never deleted (`CallbackHandoff.TimedOutNeverDeleted`).
- The SAFEARRAY conversion takes its dimensions from the first elements only and uses the lists it
  finds without checking that they are there. It runs into a missing list (outcome `NullList`)
  exactly when the first tuple in row-major order that is not good passes, above the last level, an
  index its list does not have (`SafeArrays.EndsOnce`), as for {{{x} {x}} {{x}}}
  (`SafeArrays.Ragged`). A list that is too short only at the last level is reported properly. No
  tuple runs into a missing list if and only if no list above the last level is shorter than its
  dimension (`SafeArrays.NeverNull`).

## Model

| member | source | states |
|---|---|---|
| `RangeCoder.BoundIs` | twapi/base/lzmadec.c:20-22 | the 32-bit product of the adaptive bit does not wrap for any probability in [31, 2017], and leaves either side at least 31/2048 of the range |
| `RangeCoder.AdaptIs` | twapi/base/lzmadec.c:21-22 | an answer 0 moves a probability up by the whole part of a 32nd of what it lacks to 2048, a 1 down by the whole part of a 32nd of itself |
| `RangeCoder.NormalizeOk` | twapi/base/lzmadec.c:18 | from any range of at least 2^16 one byte renormalizes to at least 2^24, a second normalization does nothing, and a code below the range stays below it |
| `RangeCoder.BitStepKeeps` | twapi/base/lzmadec.c:18-26 | an adaptive bit leaves a range that one byte renormalizes, and keeps a code below the range below it |
| `RangeCoder.DirectStepKeeps` | twapi/base/lzmadec.c:326-335 | a direct bit leaves a range that one byte renormalizes |
| `RangeCoder.DirectFormsAgree` | twapi/base/lzmadec.c:326-335 | the real decoder's and the dry run's branch-free direct bits leave the same code on all 32-bit values |
| `RangeCoder.DirectStepIs` | twapi/base/lzmadec.c:652-655 | both branch-free forms are the direct bit the grammar uses |
| `RangeCoder.DirectIsConditional` | twapi/base/lzmadec.c:331-343 | the branch-free form equals the conditional form of the comment if and only if code < half + 2^31 |
| `RangeCoder.DirectKeepsBelow` | twapi/base/lzmadec.c:326-335 | a direct bit keeps code < range if and only if the range is even or code is not its last value, with a failing input |
| `DecisionTree.RunMoved` | twapi/base/lzmadec.c:132-160 | decoding from the middle of a buffer is decoding from the start of the rest |
| `DecisionTree.RunExtended` | twapi/base/lzmadec.c:132-413 | a run that found its bytes is not changed by bytes that follow, and one that did not wants at least as many however the input goes on |
| `DecisionTree.DryRunIsRun` | twapi/base/lzmadec.c:48-58 | a program that never re-reads a probability takes the same bytes and finds the same result with and without table updates |
| `DecisionTree.FitsInTwenty` | twapi/base/lzmadec.h:46-49 | a program whose range shrinks by less than twenty bytes' worth on every path never reads more than twenty bytes |
| `GrammarFacts.SymbolFits` | twapi/base/lzmadec.c:154-361 | every path of a symbol, at most 22 adaptive and 26 direct bits with their truncation, is such a program |
| `GrammarFacts.TwentyBytes` | twapi/base/lzmadec.h:46-49 | from any normalized range, any code and any probabilities, one symbol with its last normalization takes at most LZMA_REQUIRED_INPUT_MAX = 20 bytes |
| `GrammarFacts.SymbolShort` | twapi/base/lzmadec.c:92-93 | a decoded match length is below 272, so remainLen never collides with the end-mark value kMatchSpecLenStart |
| `LzmaFormat.AnswersLead` | twapi/base/lzmadec.c:154-361 | which symbol a decoding run finds: for every symbol and every context, the bits the format writes for it - literal, matched literal, length, slot, direct and reversed bits, choice of distance - each at the table entry the format codes it with, lead to exactly that symbol |
| `TableFacts.SymbolUnread` | twapi/base/lzmadec.c:154-361 | no symbol reads a probability it has already updated |
| `TableFacts.DrySymbolIsSymbol` | twapi/base/lzmadec.c:488-676 | the dry run of a symbol has the real decoder's range, code, input position and symbol |
| `TableFacts.SpecPosTiles` | twapi/base/lzmadec.c:102-103 | the reverse trees of slots 4 to 13 start where the code's index says, follow each other without gap or overlap, and end at Align |
| `TableFacts.SpecUses` | twapi/base/lzmadec.c:306-319 | a slot's reverse tree touches only its own part of SpecPos |
| `TableFacts.LenTreeUses` | twapi/base/lzmadec.c:262-293 | a length coder stays inside its 514 entries |
| `TableFacts.LiteralUses` | twapi/base/lzmadec.c:166-193 | a plain or matched literal stays inside its own 768 entries |
| `TableFacts.SymbolUses` | twapi/base/lzmadec.c:161-293 | decision by decision: kind of symbol, repeated or new, which distance, one-byte match, both length coders and the literal each ask only for entries of their own part of the table, for all twelve states |
| `TableFacts.DistanceUses` | twapi/base/lzmadec.c:297-354 | after the length: each length state's slot tree in 64 entries of its own, each slot's reverse tree in its own part of SpecPos, the align tree in its 16 |
| `TableFacts.PartsTile` | twapi/base/lzmadec.c:95-108 | those parts follow each other without gap or overlap and fill the 1846 entries before the literals |
| `TableFacts.EntriesDistinct` | twapi/base/lzmadec.c:161-241 | the flags and the slot trees: contexts that differ in what the decision depends on have different entries |
| `TableFacts.LenEntries` | twapi/base/lzmadec.c:262-293 | within a length coder: its two choices, the short and the medium lengths of each position state and the long lengths each have entries of their own |
| `History.ExtendPeriodic` | twapi/base/lzmadec.c:389-408 | the overlapping match copy in closed form: from distance d on the output is periodic with period d |
| `History.HoldsAppend` | twapi/base/lzmadec.c:194-195 | writing a byte at the position keeps "the buffer holds the end of the history" |
| `History.HoldsWrap` | twapi/base/lzmadec.c:853-854 | a full buffer may be continued at position 0 |
| `History.HoldsTail` | twapi/base/lzmadec.c:865-871 | the bytes in front of the position are the last output bytes in order |
| `History.CopyStraight` | twapi/base/lzmadec.c:389-398 | the straight copy appends "the byte rep0 back" count times and changes no byte outside the stretch it fills |
| `History.CopyWrapping` | twapi/base/lzmadec.c:399-408 | the wrapping copy appends the same and changes no other byte |
| `History.CopyMatch` | twapi/base/lzmadec.c:381-409 | the match copy appends the same and changes no other byte, whichever form is taken |
| `History.CopyRest` | twapi/base/lzmadec.c:446-451 | finishing a cut-off match appends what the match would have appended and changes no other byte |
| `SymbolDecoder.GetBit` | twapi/base/lzmadec.c:20-26 | the macro with its table update is one adaptive step of the grammar |
| `SymbolDecoder.DecodeTree` | twapi/base/lzmadec.c:28-46 | the tree loop runs the grammar's bit tree and returns its leaf |
| `SymbolDecoder.DecodePlainLiteral` | twapi/base/lzmadec.c:171-176 | the literal loop runs the grammar's plain literal |
| `SymbolDecoder.DecodeMatchedLiteral` | twapi/base/lzmadec.c:177-193 | the loop with offs and matchByte runs the grammar's matched literal |
| `SymbolDecoder.DecodeLen` | twapi/base/lzmadec.c:262-293 | the length decoder runs the grammar's length tree |
| `SymbolDecoder.DecodeReverse` | twapi/base/lzmadec.c:310-319 | the reversed tree adds each set bit to the distance |
| `SymbolDecoder.DecodeDirect` | twapi/base/lzmadec.c:323-345 | the branch-free loop runs the grammar's direct bits without losing distance bits |
| `SymbolDecoder.DecodeDistance` | twapi/base/lzmadec.c:297-361 | slot, footer bits and end mark: the symbol of a new match |
| `SymbolDecoder.DecodeOldMatch` | twapi/base/lzmadec.c:208-293 | which of the four distances, the one-byte match, and the length |
| `DryDecoder.GetBitCheck` | twapi/base/lzmadec.c:48-58 | the checking macro fails exactly when normalization would read past the input |
| `DryDecoder.MatchCheck` | twapi/base/lzmadec.c:541-672 | the dry run of a match, including the forgotten choice of distance |
| `LzmaDry.TryDummy` | twapi/base/lzmadec.c:488-676 | answers DUMMY_ERROR if and only if the decoder's next symbol and its last normalization need more than the given bytes, and otherwise the class of the symbol the decoder will find |
| `LzmaStream.LitBlocks` | twapi/base/lzmadec.c:166-169 | two literals use the same 768 entries if and only if the position bits and previous-byte bits agree, and otherwise share none |
| `LzmaStream.LitBaseInside` | twapi/base/lzmadec.c:166-169 | every literal sub-table, for all lc <= 8, lp <= 4 and histories, lies inside the table |
| `LzmaStream.ApplyKeeps` | twapi/base/lzmadec.c:363-374 | a symbol that is not an error keeps all four distances between 1 and min(produced, dicSize), the state below 12 and the table's size |
| `LzmaStream.StepKeeps` | twapi/base/lzmadec.c:154-413 | the same for one whole decoding step on any input |
| `LzmaStream.AdvanceKeeps` | twapi/base/lzmadec.c:455-477 | the same for every state reachable from the start of any stream under any limits |
| `LzmaStream.UsedSmall` | twapi/base/lzmadec.h:46-49 | in every reachable state the next symbol needs at most 20 bytes |
| `LzmaStream.StepExtends` | twapi/base/lzmadec.c:773-804 | a step is determined by the bytes it uses; that it needs more cannot be undone by looking at more input |
| `LzmaStream.AdvanceSplit` | twapi/base/lzmadec.c:720-839 | decoding a first part of the input up to a first limit and going on with the rest up to a later one is decoding everything up to the later one |
| `LzmaStream.AnySplit` | twapi/base/lzmadec.c:720-839 | any split of the input into pieces under any limits, rising or falling, none above the last, ends in the same phase (output, range, code, table, distances, state) with the same unused input as one call under the last |
| `LzmaStream.LeadsStop` | twapi/base/lzmadec.c:720-839 | where a call stops is passed by every run whose limit is not nearer, and what remains to be done is the same |
| `LzmaStream.GenuineExtends` | twapi/base/lzmadec.c:720-839 | bytes that are the first ones the input decodes to stay that however the input goes on |
| `LzmaStream.StartCode` | twapi/base/lzmadec.c:680-684 | the start bytes set a code below the range, or one equal to it exactly for four bytes 0xFF |
| `LzmaStream.AdvancePrefix` | twapi/base/lzmadec.c:720-839 | what has been decoded is never changed later |
| `LzmaStream.CallCut` | twapi/base/lzmadec.c:841-879 | a call cut off at a lower limit and continued answers as one call with the full limit |
| `LzmaStream.CallStatus` | twapi/base/lzmadec.c:720-839 | what each status of a good call means: mark read, limit reached with the code at 0, limit reached otherwise, or too little input for what comes next |
| `LzmaStream.CallFails` | twapi/base/lzmadec.c:720-839 | a call fails if and only if the bytes are not a stream, the end mark leaves a code other than 0, or an end mark was demanded at the limit and is not what comes there |
| `LzmaEncoding.RunReads` | twapi/base/lzmadec.c:18-22 | the range decoder inverts interval coding: a stream that begins with a number of the interval that the answers narrow down to makes the decoder find these answers, with range, code and probabilities to match |
| `LzmaEncoding.AppliesRecent` | twapi/base/lzmadec.c:194-374 | whatever symbol is applied, the four distances are the ones last used, most recent first, and the output is what the symbol spells |
| `LzmaEncoding.AppliesState` | twapi/base/lzmadec.c:171-374 | the state is the one that the sorts of the last four symbols determine |
| `LzmaEncoding.AppliesOnly` | twapi/base/lzmadec.c:205-373 | a symbol is taken if and only if it copies only what is there |
| `LzmaEncoding.DecodesWritten` | twapi/base/lzmadec.c:720-839 | round trip: for all properties and every sequence of symbols that copy only what is there, one call on the stream written for them gives exactly the text they spell, uses all of the stream and reports that it may be finished |
| `LzmaEncoding.DecodesMarked` | twapi/base/lzmadec.c:720-839 | the same with an end mark, under any limit that leaves room: the mark is reported and the text complete |
| `LzmaEncoding.EveryText` | twapi/base/lzmadec.c:720-839 | every text is spelled by some such symbols |
| `LzmaCore.ModMask` | twapi/base/lzmadec.c:159-169 | posState and the literal position are right although the 32-bit processedPos wraps |
| `LzmaCore.DistanceTest` | twapi/base/lzmadec.c:367-373 | the two-way distance test is "distance < min(bytes produced, dicSize)" |
| `LzmaCore.InDictionary` | twapi/base/lzmadec.c:216-226 | every byte within reach is found in the circular dictionary where the code looks |
| `LzmaCore.DecodeSymbol` | twapi/base/lzmadec.c:154-361 | the decoding part of the loop body computes the machine's next symbol |
| `LzmaCore.ApplySymbol` | twapi/base/lzmadec.c:363-410 | the writing part does to dictionary and locals what the symbol does to the history, up to the output limit; only the bytes between the old and the new position change, on errors and in the end-mark check too |
| `LzmaCore.OneAt` | twapi/base/lzmadec.c:412-413 | a normalization left for later is never noticed |
| `LzmaCore.Round` | twapi/base/lzmadec.c:154-411 | one round of the loop is one step of the machine, and writes only between the old and the new position |
| `LzmaReal.EnoughInput` | twapi/base/lzmadec.c:412 | a symbol started below bufLimit finds its bytes |
| `LzmaReal.Rounds` | twapi/base/lzmadec.c:132-413 | the loop runs the machine to the limits, never reads past the input and never writes at or past the limit, on errors too |
| `LzmaDecoder.LzmaDec.constructor` | twapi/base/lzmadec.c:686-706 | a new decoder is at the start of a stream with nothing carried over |
| `LzmaDecoder.LzmaDec.WriteRem` | twapi/base/lzmadec.c:429-453 | finishes a cut-off match up to the limit without changing the machine's state; the dictionary gains exactly what the history gains |
| `LzmaDecoder.LzmaDec.DecodeReal` | twapi/base/lzmadec.c:132-427 | takes the machine as far as input and limit allow; on error range, code, position, state and distances are what they were, nothing counts as produced, and no byte outside the stretch up to the limit has changed |
| `LzmaDecoder.LzmaDec.DecodeReal2` | twapi/base/lzmadec.c:455-477 | the same across the point where the dictionary becomes full |
| `LzmaDecoder.LzmaDec.InitStateReal` | twapi/base/lzmadec.c:708-718 | table, distances and state of a new stream |
| `LzmaDecoder.LzmaDec.FromSource` | twapi/base/lzmadec.c:773-804 | decoding straight from the caller's buffer, guarded by the dry run |
| `LzmaDecoder.LzmaDec.FromTemp` | twapi/base/lzmadec.c:805-834 | decoding through tempBuf: the bytes given back never exceed those just copied in |
| `LzmaDecoder.LzmaDec.DecodeToDic` | twapi/base/lzmadec.c:720-839 | the reply of one call on everything presented and not yet decoded, in both finish modes; *srcLen counts exactly the bytes decoded plus those kept in tempBuf; whatever the outcome, also on a data error, the dictionary from the old to the new position is what the history gained, the history is the first bytes the stream decodes to, nothing before it changes and nothing from dicLimit on |
| `LzmaInterface.PropsRoundTrip` | twapi/base/lzmadec.c:899-923 | every lc, lp, pb and dictionary size is what some five bytes mean, and is decoded from them |
| `LzmaInterface.PropsMean` | twapi/base/lzmadec.c:899-923 | which first bytes are accepted, and that lc + 9 lp + 45 pb and the four size bytes, lowest first, mean these properties and no others |
| `LzmaInterface.DecodeToBuf` | twapi/base/lzmadec.c:841-879 | decoding through a small circular dictionary gives the caller the bytes and the status that one call with an unlimited dictionary gives; short of the limit nothing decoded is held back; on a data error too the destination holds exactly what the history gained, which is the first bytes the stream decodes to, and nothing behind *destLen is touched |
| `LzmaInterface.LzmaDecode` | twapi/base/lzmadec.c:970-1000 | the one-call interface: its error codes, the input used, and in every case *destLen bytes in the destination that are the first ones the stream decodes to |
| `LzmaEncoding.Unpack` | twapi/base/lzmadec.c:970-1000 | the one-call interface on a written stream: SZ_OK and exactly the text |
| `LzmaStreaming.CallIsAdvance` | twapi/base/lzmadec.c:720-839 | with FINISH_ANY and no data error a call has gone exactly as far as bytes and limit allow |
| `LzmaStreaming.Stream` | twapi/base/lzmadec.c:720-839 | a client loop over the real object, any pieces and any limits none of which exceeds the last, in both finish modes: it fails if and only if one call on all of the input under the last limit fails, and otherwise has that call's status and phase, and the bytes in tempBuf followed by those handed back are the ones that call leaves |
| `LzmaStreaming.OneCall` | twapi/base/lzmadec.c:720-839 | a call on part of the input under a lower limit is a stretch of the way to the single call's answer, or has failed where that fails |
| `LifoSteps.AllocChunk` | twapi/base/memlifo.c:223-256 | a new chunk in front of the list keeps every mark and every handed-out item in order |
| `LifoSteps.AllocBig` | twapi/base/memlifo.c:257-288 | a new big block does |
| `LifoSteps.PushChunk` | twapi/base/memlifo.c:331-357 | a mark in a chunk of its own does, and leaves the mark below untouched |
| `LifoSteps.ReplaceBig` | twapi/base/memlifo.c:546-574 | relocating the last big block and freeing the old one does |
| `LifoSteps.ForgetMoved` | twapi/base/memlifo.c:575-586 | after a move within chunks the old place is no longer handed out |
| `MemLifo.Lifo.constructor` | twapi/base/memlifo.c:97-137 | what MemLifoInit sets up in a chunk it was granted |
| `MemLifo.Lifo.Init` | twapi/base/memlifo.c:75-137 | nothing if the first chunk is not granted, otherwise an allocator in order holding that chunk with the bottom mark in it; sizes of new chunks cannot wrap if and only if at most 0x7FFFFFE8 was requested |
| `MemLifo.Lifo.Alloc` | twapi/base/memlifo.c:156-289 | keeps the invariant; hands out at least the rounded request from the free area, a new chunk or a big block, by the code's rule; fails if and only if the request is too large or needs a block the underlying allocator refuses, and then nothing has changed |
| `MemLifo.Lifo.PushMark` | twapi/base/memlifo.c:307-373 | the new mark sits on the old one, which is unchanged; its record is in a chunk; fails if and only if there is no room and a chunk is refused |
| `MemLifo.Lifo.FreeDownTo` | twapi/base/memlifo.c:399-420 | the freeing loop gives back exactly the blocks in front of the end, each while it is still held |
| `MemLifo.Lifo.PopMark` | twapi/base/memlifo.c:376-423 | popping the top mark brings back the mark below as it was, and the blocks held are again exactly its own |
| `MemLifo.Lifo.PushFrame` | twapi/base/memlifo.c:426-493 | a mark with an allocation under it, or nothing at all, exactly when one of the two cannot be had |
| `MemLifo.Lifo.ExpandLast` | twapi/base/memlifo.c:495-588 | under CanExpand refused with nothing changed, or grown with the old bytes kept, no other byte touched and not moved when fix is set; otherwise what happens instead, in a chunk and to a big block; success means growth if and only if CanExpand; a big block is replaced by exactly the new one and freed; refused if and only if the block cannot grow in place and may not or cannot be moved |
| `MemLifo.Lifo.ShrinkLast` | twapi/base/memlifo.c:590-616 | never moves; in a chunk gives back a multiple of 8 bytes that is at most what was asked and less by under 8, or nothing if that exceeds the block |
| `MemLifo.Lifo.ResizeLast` | twapi/base/memlifo.c:619-650 | under CanResize refused with nothing changed, or resized with the first min(old, new) bytes kept, no other byte touched and not moved when fix is set; otherwise what happens instead; success means the size asked for if and only if CanResize, and cutting down in a chunk leaves less than 8 bytes over; refused if and only if it is to grow and cannot |
| `MemLifo.SignedTest` | twapi/base/memlifo.c:517-521 | for which increments the signed comparison lets through what does not fit |
| `MemLifo.RequestIs` | twapi/base/memlifo.c:530-540 | for which increments a big block is asked for anew although the increment is too large: exactly when the rounding or the sum wraps, and then with no more than the old size |
| `MemLifo.WrappedInputs` | twapi/base/memlifo.c:535-564 | failing inputs for both functions |
| `MemLifo.AskForFits` | twapi/base/memlifo.c:230-261 | for which chunk sizes the size asked for cannot wrap, with an input for which it does |
| `MemLifo.AskForMeans` | twapi/base/memlifo.c:202-261 | when a new chunk and when a block of its own is asked for, and how large: no separate block is smaller than an eighth of the chunk size |
| `MemLifo.LastIsGrowable` | twapi/base/memlifo.c:495-523 | no last allocation is larger than 0x7FFFFFF8, so a success for more is never one |
| `LifoRuns.RunUnder` | twapi/base/memlifo.c:156-650 | any run of operations with nested balanced marks and frames keeps everything handed out below the top mark, byte for byte; it is broken off only at an operation in it by which the free pointer would leave its chunk or a big block be copied to a smaller one, and names that; in a run of sizes below 2 GB there is none |
| `LifoRuns.RunMarked` | twapi/base/memlifo.c:307-423 | exact restore: push, any such run, pop leaves lists, free pointer, last allocation, held blocks and ledger as before, and no byte handed out before has changed |
| `LifoRuns.RunFramed` | twapi/base/memlifo.c:426-493 | the same for a frame |
| `LifoRuns.EveryMark` | twapi/base/memlifo.c:120-134 | every mark on the stack: free pointer inside its chunk, record in its own chunk list and in no big block, lists suffixes of the top mark's |
| `LifoRuns.EverythingApart` | twapi/base/memlifo.c:183-288 | any two mark records or allocations are disjoint, and each lies in a held block behind its header |
| `Alignment.MaskRoundsUp` | twapi/base/ffi.c:208-209 | (x + a - 1) & ~(a - 1) is rounding up to a multiple of a, modulo 2^32 |
| `Alignment.AndClears` | twapi/base/ffi.c:208-209 | the mask clears exactly the low bits |
| `CStructLayout.CastToCStruct` | twapi/base/ffi.c:105-236 | the loop computes the layout function |
| `CStructLayout.CastIffValid` | twapi/base/ffi.c:118-204 | exactly which definitions are rejected |
| `LayoutFacts.FieldsApart` | twapi/base/ffi.c:208-222 | in a C layout no two fields share a byte and none reaches past the structure |
| `LayoutFacts.FieldsAre` | twapi/base/ffi.c:137-222 | the layout has the definition's fields in order, with their names, counts, types and sizes |
| `LayoutFacts.CastRight` | twapi/base/ffi.c:137-230 | while the true size fits 32 bits the computed layout is the C layout: order, tight packing, alignment of fields and array elements, least size and alignment |
| `LayoutFacts.MustFit` | twapi/base/ffi.c:208-230 | a computed layout that is a C layout did not wrap anywhere |
| `LayoutFacts.LayoutIffFits` | twapi/base/ffi.c:137-230 | the computed layout is a C layout if and only if the true size is below 2^32 |
| `LayoutFacts.TidyIffFits` | twapi/base/ffi.c:208-230 | if and only if the true size is below 2^32, no two fields share a byte and none reaches past its structure, nested structures included |
| `LayoutFacts.TooLarge` | twapi/base/ffi.c:218-222 | a definition whose second field is placed on top of the first |
| `CStructValues.ShowsStored` | twapi/base/ffi.c:297-311 | storing and showing a number is the identity exactly on the numbers the type can show, and reduces every other accepted number to one of those |
| `CStructValues.InRangeStored` | twapi/base/tclobjs.c:1452-1493 | every number a type can show is accepted |
| `CStructValues.StoredMeans` | twapi/base/ffi.c:297-407 | which numbers each type accepts and which number is stored for them |
| `CStructValues.WidthIs` | twapi/base/ffi.c:137-206 | how wide each type is |
| `CStructValues.OneElementList` | twapi/base/ffi.c:263-311 | one value and the list of it are the same, as a list and as a number |
| `CStructValues.SizeMeans` | twapi/base/ffi.c:402-411 | a size field takes up to the structure's size, and 0 for that size |
| `CStructValues.RawDigits` | twapi/base/ffi.c:515-532 | a number read from memory is the one whose base-256 digits the bytes are, lowest first |
| `CStructCodec.BytesShow` | twapi/base/ffi.c:475-595 | memory that holds the numbers of a value little-endian, each at the place of its element, in arrays and nested structures too, shows the canonical form of that value |
| `CStructCodec.EncodeField` | twapi/base/ffi.c:274-407 | a field shows the canonical form of its value; no byte outside the field changes |
| `CStructCodec.Encode` | twapi/base/ffi.c:249-423 | succeeds if and only if the value has a canonical form, and then every number of it lies little-endian at the place of its element and the buffer shows the canonical form; no byte outside the structure changes |
| `CStructCodec.Decode` | twapi/base/ffi.c:475-595 | gives the value the buffer shows, and fails exactly on a wrong size or too many fields |
| `CStructCodec.RoundTrip` | twapi/base/ffi.c:425-473 | definition, value, encoding and decoding: the value comes back in canonical form, and unchanged if it fits |
| `CStructCodec.NoSuchMemory` | twapi/base/ffi.c:218-222 | for that definition there are values that no memory shows |
| `CStructCodec.CanonSame` | twapi/base/ffi.c:249-595 | canonical values are fixed points, so a decoded value encodes to a structure that shows it again |
| `CStructCodec.ExactSame` | twapi/base/ffi.c:249-595 | a value written out as the structure is, with numbers in their types' ranges, is its own canonical form, so it comes back unchanged |
| `CStructCodec.RowIs` | twapi/base/ffi.c:495-595 | the decoded list is the fields' values in order, with their names in between when keys are asked for |
| `CStructCodec.ArrayIs` | twapi/base/ffi.c:510-532 | element j of an array is read at j element sizes |
| `IndexTuples.RankInjective` | twapi/base/tclobjs.c:2697-2702 | no index tuple comes twice |
| `IndexTuples.RankOrder` | twapi/base/tclobjs.c:2697-2702 | position order is row-major order |
| `IndexTuples.CarriedRank` | twapi/base/tclobjs.c:2697-2702 | a carry moves on by exactly one position |
| `SafeArrays.ItemsAre` | twapi/base/tclobjs.c:2466-2503 | what is taken as the elements of a value |
| `SafeArrays.FindShape` | twapi/base/tclobjs.c:2466-2503 | the dimensions found along the first elements, or the error for more than ten |
| `SafeArrays.Descend` | twapi/base/tclobjs.c:2563-2567 | the list array follows the index array, or stops where the tuple gets stuck, with the right error |
| `SafeArrays.CountUp` | twapi/base/tclobjs.c:2697-2702 | the carry loop gives the next tuple, or tells that there is none |
| `SafeArrays.Fill` | twapi/base/tclobjs.c:2523-2717 | how the loop ends, for every list: an empty dimension first, otherwise as the first tuple in row-major order that is not good; on success each tuple was visited once, in row-major order, and stored |
| `SafeArrays.EndsOnce` | twapi/base/tclobjs.c:2543-2582 | success if and only if no dimension is empty and every tuple is good; a missing list is used if and only if the first bad tuple passes an index that a list above the last level does not have |
| `SafeArrays.NeverNull` | twapi/base/tclobjs.c:2563-2575 | no tuple runs into a missing list if and only if no list above the last level is shorter than its dimension |
| `SafeArrays.NullListIs` | twapi/base/tclobjs.c:2563-2575 | when following a tuple's indices uses a missing list |
| `SafeArrays.TroubleMeans` | twapi/base/tclobjs.c:2563-2582 | what each other outcome means for a tuple: no list on the way, a last list too short, an element that does not convert, or none of these |
| `SafeArrays.Ragged` | twapi/base/tclobjs.c:2563-2575 | a list on which the conversion uses a missing list although all its elements are fine |
| `SafeArrays.AllWritten` | twapi/base/tclobjs.c:2550-2717 | after as many writes as the product of the counts every tuple has been written |
| `SafeArrays.FromNested` | twapi/base/tclobjs.c:2425-2722 | the whole conversion, for any value and any way of reading texts as lists, with every error case; success and the missing list by their exact conditions |
| `SafeArrays.ReadDimension` | twapi/base/tclobjs.c:2750-2872 | the recursive reader builds the nested list of the cells, for any lower bounds, and accesses no cell outside them |
| `SafeArrays.ReadsCell` | twapi/base/tclobjs.c:2750-2872 | for any lower bounds and counts, following a tuple in the list that is read leads to the cell with these indices above the lower bounds, and every list on the way has as many elements as its dimension |
| `SafeArrays.TreeOf` | twapi/base/tclobjs.c:2750-2872 | reading what was written gives the covered part of the list, element by element converted there and back |
| `SafeArrays.RoundTrip` | twapi/base/tclobjs.c:2425-2872 | a rectangular list of elements that survive conversion comes back unchanged |
| `Pbkdf2.CeilingIsCount` | twapi/crypto/pbkdf2.c:315-316 | the rounded-up quotient is the number of blocks and 1 <= r <= hlen |
| `Pbkdf2.SaltFits` | twapi/crypto/pbkdf2.c:302-306 | the input buffer is large enough if and only if the salt is shorter than 2^32 - 4 bytes |
| `Pbkdf2.Block` | twapi/crypto/pbkdf2.c:325-352 | the inner loop computes T_i, the xor of c chained results, or reports that one failed |
| `Pbkdf2.Derive` | twapi/crypto/pbkdf2.c:269-380 | the output is the derived key of section 5.2 of RFC 2898, for any salt, c >= 1 and length; it fails exactly when keying or a needed use of the function fails, or on an empty output |
| `Pbkdf2.BlocksAt` | twapi/crypto/pbkdf2.c:354-362 | which octet of which block each output octet is |
| `Pbkdf2.KeyAt` | twapi/crypto/pbkdf2.c:354-362 | the same for the key |
| `Pbkdf2.BlockIndexIs` | twapi/crypto/pbkdf2.c:333-337 | the block index is four octets, the most significant first |
| `Pbkdf2.ChainIs` | twapi/crypto/pbkdf2.c:328-352 | the first use is on salt and block index, every other on the result before it |
| `Pbkdf2.BlockBits` | twapi/crypto/pbkdf2.c:352 | a bit of a block is set if and only if it is set in an odd number of the results of its chain |
| `Pbkdf2.KeyPrefix` | twapi/crypto/pbkdf2.c:354-362 | a longer key only appends to a shorter one |
| `OneTimeInit.StepKeeps` | twapi/base/util.c:240-288 | the invariant under every step of every thread |
| `OneTimeInit.AtMostOnce` | twapi/base/util.c:240-288 | for any number of threads and any schedule: at most one call of fn, success only after it succeeded, failure only after it failed |
| `OneTimeInit.OneReturnsOne` | twapi/base/util.c:272-280 | at most one thread claims to have initialized |
| `OneTimeInit.ReturnCodes` | twapi/base/util.c:244-285 | what each return value says about who made the call and who waited for it |
| `OneTimeInit.EveryRun` | twapi/base/util.c:240-288 | both for every run from the start |
| `OneTimeInit.Absorbing` | twapi/base/util.c:244-285 | DONE and ERROR are final |
| `OneTimeInit.NobodyWaitsForever` | twapi/base/util.c:251-270 | while a thread spins another is elected, and two steps of that one release it |
| `OneTimeInit.EachReturns` | twapi/base/util.c:240-288 | every thread gets its answer: four more steps at most, its own and those of the thread it waits for, make it return |
| `CallbackHandoff.Safe` | twapi/base/async.c:87-113 | every interleaving: no use after deletion, at most one deletion, and an answered waiter holds a finished response with its final error code, which is 0 exactly if the callback reported success |
| `CallbackHandoff.DeletedExactlyOnce` | twapi/base/async.c:202-208 | when both threads are done the record was deleted exactly once, unless the wait was given up |
| `CallbackHandoff.AnyRunCanFinish` | twapi/base/async.c:87-163 | no thread is left waiting: every run in which no wait was given up can be brought to its end, with the record deleted exactly once |
| `CallbackHandoff.TimedOutNeverDeleted` | twapi/base/async.c:100-106 | after a timeout it never is |

## Left out

- LZMA: table allocation and freeing, `LzmaDec_Allocate`, and the decoder after SZ_ERROR_DATA (the source does not restore its state then); the calls that re-initialize a used decoder.
- LZMA: the fields range, code, buf and state, distances, positions are grouped into records; masks and `|=` on bits known to be clear are written as arithmetic; the source pointer is an index into a sequence; sizes of type SizeT are unbounded.
- LzmaInterface.DecodeToBuf: on a data error, how many of the bytes decoded before the error are handed out, and the input count; the source's answer depends on where the failing inner call began.
- LzmaInterface.LzmaDecode: the destination length is that of the array, and memory errors do not occur; on a data error how many of the first decoded bytes *destLen counts.
- MemLifo: marks are values linked by `prev` and stored in the object's `top`, not written into the chunk's bytes; that their records do not overlap anything is proved through the ledger of addresses.
- MemLifo.Lifo.Alloc: an allocator with one of the two chunk sizes 0x7FFFFFF0 and 0x7FFFFFF8, for which the size of a new chunk can wrap (`MemLifo.AskForFits`), and a block too small for the request handed out; header and mark record have their 64-bit sizes, 16 and 56.
- MemLifo: blocks are smaller than 2 GB, 8-aligned in address and size and disjoint from all held ones, as `PTRDIFF32` and the assertions in the source presuppose; addresses do not wrap.
- MemLifo.Lifo.PopMark: only the top mark is popped; `MemLifoClose`, `MemLifoValidate`, the dump and the panic flag are not modelled.
- MemLifo.Lifo.ExpandLast: what the bytes written behind a block that was asked for too small do to the allocator's own records there, which the model keeps apart from memory.
- CStruct: floats, handles, strings and SIDs, and reference counts of definitions; a number text is a number, other texts are none.
- CStruct: integers are taken as Tcl 8.6 takes them, a 32-bit field accepting signed and unsigned 32-bit numbers.
- CStructCodec.Encode: the definition's layout is a C layout, that is, its size fits 32 bits; beyond that the source overwrites one field with another or writes outside its buffer (`LayoutFacts.TidyIffFits`).
- SafeArrays: the special case of byte arrays; the element conversions and Tcl's reading of a text as a list, which are parameters of the model; the loop that first fills the list array is not repeated, as it is done again at the top of the main loop.
- Pbkdf2.Derive: hlen is at least 2 and the salt shorter than 2^32 - 4 bytes, since beyond that the source writes outside its buffer; the HMAC functions are the abstract function, buffers are always granted, and a null password with a length is not modelled.
- OneTimeInit: the interlocked operations are atomic and sequentially consistent; the sleep is a step that changes nothing.
- CallbackHandoff: the deprecated enqueue method and a failing event creation; the interpreter context's own reference count; the callback does not itself keep references.
- All wrappers of system calls, COM, the console and event loops, and the list utilities: what they do is decided by Windows or Tcl, or is a plain traversal.
