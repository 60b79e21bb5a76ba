# Proofs about the hard parts of the repository

This project models the parts of the repository that are hardest to get right and proves what
they are for. Each component has its own modules; loops and objects keep the form they have in the
source (methods with invariants, classes whose fields are updated), and every method is proved
against a function or an invariant whose own properties are lemmas.

- **HPACK** (`Hpack*.dfy`, on `Bits.dfy`): integers, the Huffman code and its byte-indexed tree, the
  dynamic table, the encoder, the incremental decoder. Main results: `HpackRun.ConnectionRoundTrip`
  and, for the package's own tables, `HpackConstants.PackageRoundTrip`;
  `HpackDecoder.ChunksDoNotMatter`; `HpackLimits.SettingsInRun`; `HpackLimits.DecoderWithin`;
  `HpackVarInt.IntRoundTrip`; `HpackHuffmanTables.HuffmanValid`;
  `HpackSameTables.EqualExactlyWhen`; `HpackHuffmanNil.NilExactlyOnOnes`.
- **Division by constants** (`Div*.dfy`): the choice of multiplier and shift, a small 32-bit machine,
  and the instructions that are emitted, for every divisor and every operand.
- **Contexts** (`Context*.dfy`): a state machine of contexts, their locks and any number of threads.
  Main results: `ContextRuns.NothingLost`, `ContextProperties.NoDeadlock`, `ContextCauses.CancelCall`,
  `ContextProgress.EveryRunRests`, and what a run comes to, by its calls alone: `ContextOutcome.CancelledExactly`,
  `ContextOutcome.ArmedExactly`, `ContextOutcome.ListedExactly`.
- **pc/line tables** (`PcLine.dfy`, `PcTab.dfy`, on `Base128.dfy`): both directions of the lookup over zigzag varint
  programs, and the linker that writes them. Main results: `PcLine.File2Pc` and `PcTab.ReadBack`.
- **Buffered reader** (`Bio.dfy`, `BioStream.dfy`): right-aligned buffering, short and failing reads,
  push-back, line search and seeks. Main results: `BioStream.Drive` and `BioStream.InOrder`.
- **Object-file symbol slots** (`Obj*.dfy`): the ring of symbol numbers and the readers that must
  agree with it. Main results: `ObjReplay.AssembleAndRead` and `ObjLink.InsLinked`.
- **Path cleaning** (`CleanName.dfy`), **peg search** (`Solitaire.dfy`), **embedded index**
  (`Embed.dfy`).

## What the code does not do

Properties one would expect that are false of the code, with an input or a run where they fail and the
exact condition under which they hold.

- `compatible/src/hpack/huffman.go:73-81`: the loop over the last bits does not test for a nil child.
  Input: bytes 00 3f ff ff ff (`HpackHuffmanNil.NilOnInput`). Exactly: the nil child is met if and only if
  the bits are the codes of some string that meets the limit, thirty ones, and at most one bit more
  (`HpackHuffmanNil.NilExactlyOnOnes`). No output of the encoder is of that kind
  (`HpackHuffmanDecoder.HuffmanRoundTrip`).
- `compatible/src/hpack/huffman.go:73-81`: nor does it test the length limit that lines 47-48 promise. Input:
  bytes 00 00 under a limit of two give three symbols (`HpackHuffmanNil.LimitPassed`). Exactly: on every
  input, valid or not, the limit is reported if and only if the bits begin with the codes of as many symbols
  as it permits and of one more, whose whole bytes are there; otherwise it changes nothing
  (`HpackHuffmanNil.LimitExactly`).
- `compatible/src/hpack/encode.go:137-143`: a limit below the table size cuts the table but is not
  remembered as a smallest size, so the two tables can differ after it, though they stay synchronised.
  Run: `HpackSameTables.UnannouncedCut`. Exactly when: `HpackSameTables.EqualExactlyWhen`.
- `compatible/src/hpack/encode.go:206-217` with `compatible/src/hpack/hpack.go:458-489`: integers from
  2^63 + 2^n - 1 on are written, and refused by the reader as an overflow (`HpackVarInt.IntRoundTrip`).
- `src/libbio/brdline.c:60-112`: a failing line search loses bytes if and only if more than bsize bytes
  are waiting, which takes push-back onto a full buffer. Run: `BioStream.LineLosesByte`. Exactly when:
  `Bio.BioBuf.Brdline`.
- `src/libbio/bgetc.c:53`: gbuf is reset before the read is known to have succeeded, so that after an
  end of file and a push-back a seek can stay in a buffer that does not reach back far enough. Run:
  `BioStream.SeekReadsStale`. Exactly when, by what the buffer holds: `Bio.BioBuf.Bseek`. By what a caller
  can count: every seek is right that `BioStream.Safe` allows (`BioStream.Drive`), and for every file and
  buffer size there is a run after which every other seek goes wrong (`BioStream.UnsafeSeek`).
- `src/libmach/sym.c:1843-1848`: only the first number of a file name is searched, so a pc in a file of the
  same name with a later number is not found. Input: `PcLine.TwinsMiss`. Exactly when: `PcLine.File2Pc`.
- `src/libmach/6obj.c:136-137`: the offset of a variable is noted without its sign, so
  an offset comes back if and only if it is not negative, or -2^63 (`ObjRead.OffsetComesBack`). Input: the
  offset -8 of a variable is noted as 8 (`ObjRead.NegativeOffsetNoted`).

## Model

| member | source | states |
|---|---|---|
| HpackVarInt.AppendVarInt | compatible/src/hpack/encode.go:206-217 | the loop appends the prefix and the little-endian 7-bit groups of EncodeInt |
| HpackVarInt.ReadVarInt | compatible/src/hpack/hpack.go:458-489 | the loop, its accumulator taken modulo 2^64, computes DecodeInt: a value with the untouched rest, need-more, or overflow |
| HpackVarInt.IntRoundTrip | compatible/src/hpack/hpack.go:448-489 | for every prefix of 1 to 8 bits, whatever the other bits of the first byte and the rest: i comes back if and only if i < 2^63 + 2^n - 1, larger values give the overflow error |
| HpackVarInt.IntPrefixStable | compatible/src/hpack/hpack.go:458-489 | only the answer need-more can be changed by bytes that arrive later |
| HpackWire.IntBytes | compatible/src/hpack/encode.go:206-217 | a number below 2^n - 1 is the prefix; otherwise the prefix is all ones, and groups of seven bits follow, least significant first, all but the last with the high bit set, whose value is the number less 2^n - 1 |
| HpackHuffmanTables.HuffmanValid | compatible/src/hpack/tables.go:76-351 | the package's 256 codes have 5 to 30 bits, are prefix-free, none is all ones, and every 30 bits other than ones start with a code |
| HpackHuffmanTables.HuffmanOrder | compatible/src/hpack/tables.go:76-351 | the code is canonical: codes of one length are in the order of their symbols, and every shorter code comes before every longer one |
| HpackHuffmanEncoder.AppendByteToHuffmanCode | compatible/src/hpack/huffman.go:164-190 | the bits written so far are followed by exactly the bits of the symbol's code, whatever number of bits is free in the last byte |
| HpackHuffmanEncoder.AppendHuffmanString | compatible/src/hpack/huffman.go:128-148 | what is appended is the concatenated codes, padded with ones to whole bytes |
| HpackHuffmanEncoder.HuffmanEncodeLength | compatible/src/hpack/huffman.go:152-158 | the sum of code lengths, rounded up to bytes, does not wrap |
| HpackHuffmanEncoder.LengthAgrees | compatible/src/hpack/huffman.go:128-158 | that length is the number of bytes AppendHuffmanString appends |
| HpackHuffmanDecoder.HuffmanTree.constructor | compatible/src/hpack/huffman.go:94-107 | the tree built at start-up holds exactly the 256 symbols |
| HpackHuffmanDecoder.HuffmanTree.AddDecoderNode | compatible/src/hpack/huffman.go:109-126 | one more symbol: every entry that its code covers becomes its leaf, internal nodes are shared, nothing else changes |
| HpackHuffmanDecoder.HuffmanTree.HuffmanDecode | compatible/src/hpack/huffman.go:49-83 | walking the tree a byte at a time, with a 64-bit window, gives the same outcome as decoding bit by bit, for every input and limit |
| HpackHuffmanDecoder.HuffmanRoundTrip | compatible/src/hpack/huffman.go:49-83 | every byte string comes back from its encoding, padding included, under no limit or any limit it meets |
| HpackHuffmanDecoder.DecodeSound | compatible/src/hpack/huffman.go:49-83 | what was decoded, written again, is the start of the input, and fewer than 30 bits are left over |
| HpackHuffmanNil.NilExactlyOnOnes | compatible/src/hpack/huffman.go:73-81 | for every limit the last loop follows a nil child if and only if the input is the codes of a string that meets the limit, thirty ones and at most one bit |
| HpackHuffmanNil.LimitExactly | compatible/src/hpack/huffman.go:47-83 | on every input a limit gives too-long exactly when the bits begin with the codes of maxLen symbols and of one more, and hold the whole bytes of that one; otherwise the result is that without a limit, an error included |
| HpackHuffmanNil.LimitPassed | compatible/src/hpack/huffman.go:73-81 | two bytes that give three symbols under a limit of two |
| HpackHuffmanNil.NilOnInput | compatible/src/hpack/huffman.go:73-81 | an input of five bytes on which it does, with the package's own code |
| HpackTable.EvictedLongest | compatible/src/hpack/hpack.go:179-191 | eviction keeps the longest suffix that fits: every suffix that fits is a suffix of it; no bound on the 32-bit sizes is assumed |
| HpackTable.EvictedTwice | compatible/src/hpack/hpack.go:158-191 | shrinking twice is shrinking once to the smaller size |
| HpackTable.SizeInOctets | compatible/src/hpack/hpack.go:51-66 | as long as it fits 32 bits, the size of a table is the octets of all its names and values joined, and 32 for each entry |
| HpackTable.EvictedInOctets | compatible/src/hpack/hpack.go:179-191 | counted so, what eviction leaves is within the size, and a suffix is within it if and only if it is no longer |
| HpackTable.DynamicTable.Add | compatible/src/hpack/hpack.go:172-177 | the newest entry goes to the end, and the oldest ones go until the rest fits |
| HpackTable.DynamicTable.SetMaxSize | compatible/src/hpack/hpack.go:158-161 | the table is evicted to the new size |
| HpackTable.DynamicTable.Evict | compatible/src/hpack/hpack.go:179-191 | the loop over the 32-bit size leaves the longest suffix that fits, and the size stays that of the entries |
| HpackTable.SearchLoop | compatible/src/hpack/hpack.go:213-234 | the first entry that matches name and value, or else the first with the name; sensitive fields match by name only |
| HpackTable.SearchSound | compatible/src/hpack/encode.go:90-113 | an index found in the encoder's tables names the same field for a decoder whose table has more old entries |
| HpackWire.AddedShifts | compatible/src/hpack/hpack.go:229-246 | the newest entry has the first index after the static table, and the others move up by one |
| HpackEncoder.AppendHpackString | compatible/src/hpack/encode.go:224-236 | the Huffman form if and only if it is shorter, with a length prefix that delimits it |
| HpackEncoder.AppendNewName | compatible/src/hpack/encode.go:166-173 | a literal whose first byte tells indexing and sensitivity, and both strings |
| HpackEncoder.AppendIndexedName | compatible/src/hpack/encode.go:179-191 | the same with the name by its index |
| HpackEncoder.Encoder.WriteField | compatible/src/hpack/encode.go:49-81 | pending size updates (smallest, then present), then the field; the new state is that of the pure step WriteState |
| HpackEncoder.Encoder.SetMaxDynamicTableSize | compatible/src/hpack/encode.go:119-129 | bounded by the limit; the smallest size since the last field is remembered |
| HpackEncoder.Encoder.SetMaxDynamicTableSizeLimit | compatible/src/hpack/encode.go:137-143 | the table shrinks if it exceeds the limit, and an update becomes pending |
| HpackLimits.SettingsInRun | compatible/src/hpack/encode.go:119-143 | after every run of calls from a new encoder, by the calls alone: the limit is the last one set, the size is the last one asked for, cut by the limits in force then and since, the remembered minimum and the pending flag likewise; the table fits the size, and the size the limit |
| HpackLimits.AnnouncedInRun | compatible/src/hpack/encode.go:49-59 | what is announced before a field, by the calls alone; never more than the limit in force |
| HpackLimits.SizeGiven | compatible/src/hpack/encode.go:119-129 | SetMaxDynamicTableSize(v) gives exactly the smaller of v and the limit in force |
| HpackLimits.PermittedByCalls | compatible/src/hpack/encode.go:119-143 | the runs of ConnectionRoundTrip are those where the decoder allows each size asked for, or the limit in force |
| HpackWire.FieldKind | compatible/src/hpack/encode.go:145-191 | the first octet of a field: from 80 on for a full match, 40 to 7f for a literal that enters the table, 10 to 1f exactly for sensitive fields, below 10 otherwise |
| HpackWire.StringFirst | compatible/src/hpack/encode.go:224-236 | the first octet of a string tells whether it is in the Huffman code, which is exactly when that is shorter |
| HpackWire.SecondIsIndex | compatible/src/hpack/encode.go:61-81 | a field that is not sensitive and fits the table is an index when it is written again, and the table stays |
| HpackWire.SensitiveStaysOut | compatible/src/hpack/encode.go:145-148 | a sensitive field never enters the table |
| HpackDecoder.Decoder.ParseHeaderFieldRepr | compatible/src/hpack/hpack.go:339-446 | fields, table, rest and error are those of the pure parser, and nothing changes when more bytes are needed |
| HpackDecoder.Decoder.WriteBlock | compatible/src/hpack/hpack.go:280-317 | the loop over saved and new bytes ends in the state of the pure Write; all bytes are counted, or none if and only if they end in an incomplete representation that is too long already |
| HpackDecoder.Decoder.Close | compatible/src/hpack/hpack.go:272-278 | truncated if and only if bytes were saved, and they are dropped |
| HpackDecoder.EveryByteParses | compatible/src/hpack/hpack.go:339-371 | the last error of the dispatcher cannot happen: every first byte has a representation |
| HpackWire.ParsedKind | compatible/src/hpack/hpack.go:339-446 | what each first octet may do to a decoder: an index and a literal without indexing leave the table alone, only the never-indexed literal gives a sensitive field, a literal with indexing adds its field, a size update gives none |
| HpackLimits.DecoderWithin | compatible/src/hpack/hpack.go:280-446 | whatever arrives in whatever pieces: the table stays within its size and that within what is allowed, no string emitted is longer than the string limit, and what is saved is bounded by it |
| HpackLimits.MutedSameTable | compatible/src/hpack/hpack.go:119-127 | with emitting disabled, input that can be decoded leaves the same table and the same rest, and emits nothing |
| HpackDecoder.ParseStable | compatible/src/hpack/hpack.go:339-446 | a parse that did not ask for more is not changed by bytes that follow |
| HpackDecoder.DrainMore | compatible/src/hpack/hpack.go:297-315 | parsing as far as possible and then with more bytes is parsing all together |
| HpackDecoder.ChunksDoNotMatter | compatible/src/hpack/hpack.go:280-317 | without a string limit any split of a stream gives the fields, table, saved bytes and first error of one Write |
| HpackRun.StringRead | compatible/src/hpack/hpack.go:499-533 | a string of the encoder is read back, with the rest untouched |
| HpackRun.FieldParsed | compatible/src/hpack/hpack.go:373-419 | the bytes of one field are parsed to that field, its sensitivity included, and the matching table change |
| HpackRun.RunSynced | compatible/src/hpack/encode.go:119-143 | in every run of fields, sizes and limits the encoder's table stays the newest part of the decoder's |
| HpackRun.RunDecodes | compatible/src/hpack/encode.go:49-148 | from any synchronised pair the output of a run decodes to exactly its fields, in order |
| HpackRun.ConnectionRoundTrip | compatible/src/hpack/hpack.go:280-446 | the whole connection from two new ends, the decoder's table at least the encoder's, in whatever pieces the output arrives |
| HpackConstants.PackageRoundTrip | compatible/src/hpack/tables.go:7-351 | the same for the package's own Huffman code and static table, with nothing left to assume about them |
| HpackWire.FirstRequest | compatible/src/hpack/hpack_test.go:272-290 | the first request of appendix C.3 of RFC 7541 is decoded to its four fields and leaves a table of size 57 |
| HpackWire.StaticOrder | compatible/src/hpack/tables.go:7-73 | the static table is in the order of names, then of values, so that every entry has its place |
| HpackSameTables.TablesEqual | compatible/src/hpack/encode.go:52-59 | in runs without a cutting limit the two tables are equal whenever nothing is pending |
| HpackSameTables.NewTablesEqual | compatible/src/hpack/encode.go:35-47 | in particular between two new ends of the same size |
| HpackSameTables.EqualExactlyWhen | compatible/src/hpack/encode.go:119-143 | after any resizes from equal tables: equal again if and only if what the announced minimum leaves fits the smallest size the table has had |
| HpackSameTables.UnannouncedCut | compatible/src/hpack/encode.go:137-143 | a run of five calls after which the encoder's table is empty and the decoder's is not |
| DivMagic.TopBit | src/cmd/cc/sub.c:1081-1089 | the index of the highest set bit, -1 for zero |
| DivMagic.Multiplier | src/cmd/6c/div.c:43-67 | multiplier and shift satisfy the Granlund-Montgomery condition; no 64-bit step wraps; at most 33 bits, and 32 when p < 32 |
| DivMagic.InitialPair | src/cmd/6c/div.c:49-54 | both quotients before the loop, computed without overflow even when 2^64 would be needed |
| DivMagic.MagicDivides | src/cmd/6c/div.c:32-67 | under that condition the high part of the product is the quotient, for every operand below 2^p |
| DivMagic.MagicDividesNegative | src/cmd/6c/div.c:32-67 | for negative operands it is one less than the quotient rounded towards zero |
| DivMagic.UDiv | src/cmd/6c/div.c:84-110 | parameters for every divisor that is not a power of two; p is zero in the add case |
| DivMagic.SDiv | src/cmd/6c/div.c:69-82 | parameters for every magnitude from 2 to 2^31; the add flag says that the multiplier is negative as a word |
| DivMachine.TruncDivMod | src/cmd/6c/div.c:186-236 | quotient and remainder rounded towards zero recombine to the dividend |
| DivCodeGen.Generator.UDivGen | src/cmd/6c/div.c:136-170 | the emitted instructions leave n / d in DX for every 32-bit n, and leave the operand alone |
| DivCodeGen.Generator.SDivGen | src/cmd/6c/div.c:112-134 | for every constant with 2 <= \|c\| <= 2^31 and every signed word, -2^31 included, n / c rounded towards zero |
| DivCodeGen.Generator.Sext | src/cmd/6c/div.c:172-184 | in every machine state the code emitted leaves the sign of the operand, all ones or zero, in the location returned, and the operand as it was |
| DivCodeGen.SextRuns | src/cmd/6c/div.c:172-184 | both forms of the sign extension do that, by CDQ or by move and shift |
| DivCodeGen.Generator.SDiv2 | src/cmd/6c/div.c:186-205 | the quotient by plus or minus 2^v, 0 <= v <= 30, as a 32-bit word |
| DivCodeGen.Generator.SMod2 | src/cmd/6c/div.c:207-236 | the remainder by plus or minus 2^v, with the sign of the dividend |
| DivCodeGen.UCodeDivides | src/cmd/6c/div.c:137-170 | the three code shapes of unsigned division are right for any parameters that UDiv may give |
| DivCodeGen.SCodeDivides | src/cmd/6c/div.c:112-134 | the signed code is right for any parameters that SDiv may give |
| ContextRuns.NextKeeps | compatible/src/context/context.go:229-424 | every step of every thread keeps the invariant on contexts, locks, loops and timers |
| ContextRuns.NothingLost | compatible/src/context/context.go:244-358 | in every interleaving done is closed once, exactly when err is set; an uncancelled registered child is listed by its parent or still to be visited by the holder of the parent's lock |
| ContextAncestry.NearestCanceler | compatible/src/context/context.go:271-287 | in every reachable state the context that one is listed with is the nearest above it, by parent references, that can be cancelled: there is one if and only if any can, and all others are above it |
| ContextOutcome.TreeOfRun | compatible/src/context/context.go:229-242 | the contexts of a run, their parents and deadlines are those that its calls asked for |
| ContextOutcome.CancelledExactly | compatible/src/context/context.go:229-424 | when all threads are outside, a context has an error if and only if a cancel function was called or a deadline passed for it or a context above it, and the cause is one of those: Canceled for a call, DeadlineExceeded for a deadline |
| ContextOutcome.ArmedExactly | compatible/src/context/context.go:384-424 | when all threads are outside, a timer is armed if and only if its deadline context is not cancelled |
| ContextOutcome.ListedExactly | compatible/src/context/context.go:244-305 | when all threads are outside, a context lists exactly the uncancelled contexts below it with none that can be cancelled between, and none if it is cancelled |
| ContextProperties.SettledBelow | compatible/src/context/context.go:337-358 | everything below a settled context by parent references, as far as it has been registered, has an error, and is settled if it can be cancelled itself |
| ContextProperties.CancelReaches | compatible/src/context/context.go:337-358 | when a cancel is done, so is everything below by parent references that has been registered |
| ContextProperties.CauseSticksForever | compatible/src/context/context.go:342-347 | a cause never changes in any run, and a settled context stays settled |
| ContextProperties.CauseOfStep | compatible/src/context/context.go:346 | a context that a step cancels gets the cause of the cancel its thread is in |
| ContextCauses.CancelCall | compatible/src/context/context.go:337-424 | from the call of cancel(c, e) to its return among other threads: everything registered below c by parent references is done, and if it was uncancelled at the call carries e or the cause of another thread's cancel step in that run; the timer of c is stopped, and one below that is still armed belongs to another thread still in its cancel |
| ContextCauses.CauseInRun | compatible/src/context/context.go:342-347 | every cause in a run was set by a step of some thread's cancel of that context, with that thread's cause |
| ContextCauses.TimersAtReturn | compatible/src/context/context.go:412-424 | at the return the timer of the context itself is not armed |
| ContextProperties.LocksGoDown | compatible/src/context/context.go:244-358 | a thread that waits for a lock holds only locks of contexts further up |
| ContextProperties.NoDeadlock | compatible/src/context/context.go:244-358 | whenever a thread is inside the package some thread inside it can step |
| ContextProperties.Quiet | compatible/src/context/context.go:412-424 | when all threads are idle no cancelled context has an armed timer and every lock is free |
| ContextProgress.GoFalls | compatible/src/context/context.go:244-424 | every step of a call lowers a measure on contexts still to be cancelled, children still to be visited and the positions of the threads |
| ContextProgress.RunsEnd | compatible/src/context/context.go:244-424 | without new calls a run has at most as many steps as that measure |
| ContextProgress.EveryRunRests | compatible/src/context/context.go:244-424 | whatever the scheduling, a run without new calls is bounded, and cannot go on exactly when all threads are outside, every lock is free and no cancelled context has an armed timer |
| ContextProgress.ReachesQuiet | compatible/src/context/context.go:244-424 | from every state some run without new calls leads to one where all threads are outside, every lock is free and no cancelled context has an armed timer |
| ContextProperties.DeadlineIsMinimum | compatible/src/context/context.go:369-406 | in every reachable state a deadline is the minimum of the WithDeadline arguments on the way to the root |
| ContextProperties.TimerExactly | compatible/src/context/context.go:369-380 | a context made by WithDeadline has a timer for its deadline unless an earlier one has been asked for above it |
| PcLine.ReadVarint | src/libmach/sym.c:1722-1738 | the 32-bit value of the groups and the place behind them |
| PcLine.Step | src/libmach/sym.c:1750-1768 | one row of the program: zigzag value, pc in quanta, or its end, as Rows decodes them |
| PcLine.PcValue | src/libmach/sym.c:1770-1787 | the value of the first row that ends after the pc; -1 without one, and for an offset outside the table |
| PcLine.FindFunc | src/libmach/sym.c:1692-1720 | bisection finds the function that contains a pc if and only if there is one |
| PcLine.FileLine | src/libmach/sym.c:1808-1829 | file and line of a pc, or nothing when either is out of range or has no program |
| PcLine.File2Pc | src/libmach/sym.c:1831-1883 | a pc that is found is mapped back to that file and line; none is found if and only if no pc has the line and the first number of the name; with distinct names, if and only if no pc has that file and line |
| PcLine.TwinsMiss | src/libmach/sym.c:1843-1848 | a table with a repeated name where the forward lookup gives a file and line that the search misses |
| PcLine.NoHits | src/libmach/sym.c:1855-1880 | when no line row with the line overlaps a file row with the number, no pc has both |
| PcLine.RowOfValue | src/libmach/sym.c:1770-1787 | a value other than -1 comes from the row of the program that contains the pc |
| PcLine.RowsAgree | src/libmach/sym.c:1770-1829 | a pc in file row j and line row k has the file and the line of these rows |
| PcTab.FuncPcTab | src/cmd/ld/lib.c:1403-1499 | the linker's loop writes rows that give every pc of every true instruction the value that holds there, from the entry to the end, as zigzag and quantum differences in base 128 |
| PcTab.ReadBack | src/libmach/sym.c:1750-1787 | read by the reader of the tables, those bytes are exactly those rows, a good program up to the end of the function, and the value of each pc is that of its instruction |
| PcTab.LinkedLookup | src/libmach/sym.c:1808-1829 | with the table of its files and that of its lines in place, every pc of a function has the file and the line of its instruction |
| PcTab.RowsRead | src/libmach/sym.c:1750-1787 | any rows whose values change and whose pcs rise by quanta are read back from their bytes, whatever stands behind them |
| Bio.BioBuf.Bgetc | src/libbio/bgetc.c:30-67 | the next byte of the file at the position, which advances by one; EOF only at the end or when the read of this call, or one before, failed; up to four earlier bytes stay available for push-back |
| Bio.BioBuf.Bungetc | src/libbio/bgetc.c:89-99 | the position goes back by one, and one byte less can be pushed back; the state stays good if and only if a byte was retained |
| Bio.BioBuf.Bread | src/libbio/bread.c:30-71 | the next bytes of the file over any number of short reads: all that were asked for unless the file ends or the last read fails; every other read gave at least one byte |
| Bio.BioBuf.Brdline | src/libbio/brdline.c:30-113 | the next line up to its first delimiter, as a part of the buffer, over any short reads; unless a read fails, a search without a line has seen the file up to its end or a full buffer; it keeps the position if and only if at most bsize bytes were waiting |
| Bio.BioBuf.Bseek | src/libbio/bseek.c:30-93 | the position asked for, or -1 when that is before the file; the state is good if and only if an active reader is not sent back within its window further than its data reaches |
| BioStream.Drive | src/libbio/bgetc.c:30-99 | every run of calls on a new reader, over every file and every plan of short and failing reads, is a run of a plain stream: each call is answered in its kind, is refused exactly when the counts say so, reports a failure exactly when its last read or one before failed, and otherwise gives all bytes, lines and seeks asked for |
| BioStream.Do | src/libbio/bread.c:30-71 | the same for one call in any state that the counts describe |
| BioStream.InOrder | src/libbio/bread.c:30-71 | in such a run without push-back and seek the bytes delivered are those of the file between the two positions: none lost or repeated |
| BioStream.DoUngetc | src/libbio/bgetc.c:89-99 | a push-back is refused exactly when the count is zero or a read has failed |
| BioStream.DoSeek | src/libbio/bseek.c:30-93 | a seek is refused exactly when it is not safe or a read has failed, and reading goes on at its target otherwise |
| BioStream.UnsafeSeek | src/libbio/bseek.c:60-84 | no other seek could be allowed: for every file and buffer size a run after which every seek that is not safe leaves more bytes to be read than the buffer holds |
| BioStream.LineLosesByte | src/libbio/brdline.c:60-112 | a run in which a failing line search moves the position from 1 to 2 |
| BioStream.SeekReadsStale | src/libbio/bseek.c:60-84 | a run in which a seek to 1 succeeds and the next byte would be the one at 6 |
| ObjRead.Reader.Addr | src/libmach/6obj.c:115-154 | on any bytes the parser ParseAddr; where the assembler wrote an address it consumes exactly its bytes, and finds its slot, flags and noted offset |
| ObjRead.Reader.Read6 | src/libmach/6obj.c:62-113 | on any bytes the parser ParseRecord; a record of the assembler is consumed exactly and classified, and nothing is read if and only if no code is left or a name does not end |
| ObjRead.AddrParsed | src/libmach/6obj.c:115-154 | every address the assembler writes is parsed as what it is, whatever follows |
| ObjRead.RecordParsed | src/libmach/6obj.c:62-113 | so is every record |
| ObjRead.SignedNameParsed | src/libmach/6obj.c:80-105 | so is a name with a signature, and the signature with it |
| ObjRead.RefusedExactly | src/libmach/6obj.c:68-105 | the parser refuses if and only if fewer than two bytes are left, or no zero follows a name's type and number |
| ObjRead.OffsetValue | src/libmach/6obj.c:129-138 | the one or two words written for a 64-bit offset give it back |
| ObjRead.OffsetComesBack | src/libmach/6obj.c:136-137 | the offset noted is the offset written if and only if that is not negative, or -2^63 |
| ObjRead.NegativeOffsetNoted | src/libmach/6obj.c:136-137 | a variable at -8 is noted at 8 |
| ObjLink.AddrLinked | src/cmd/6l/obj.c:269-311 | the linker's reader takes exactly the bytes of an address, and finds its kind, index, scale, whole offset, constant and slot |
| ObjLink.InsLinked | src/cmd/6l/obj.c:390-464 | so it does for an instruction, with its code and line |
| ObjLink.NameLinked | src/cmd/6l/obj.c:401-424 | the linker finds in a name record the type, the number and the name |
| ObjSlots.Assembler.Zname | src/cmd/6a/lex.c:1097-1108 | a name record is appended |
| ObjSlots.Assembler.Zaddr | src/cmd/6a/lex.c:1110-1176 | exactly the bytes of the address are appended |
| ObjSlots.Assembler.UseSlot | src/cmd/6a/lex.c:1186-1208 | the slot stands for the symbol and its type in the table of the records so far, by reuse or by a new name record |
| ObjSlots.Assembler.UseSlots | src/cmd/6a/lex.c:1185-1231 | both slots do, and the second round happens at most once |
| ObjSlots.Assembler.Outcode | src/cmd/6a/lex.c:1178-1241 | name records only, and then the instruction, whose slots denote exactly its symbols and types |
| ObjReplay.ReadAll | src/libmach/6obj.c:62-113 | on any bytes the records up to the first that is refused; on the output of the assembler one result for each record written, in order |
| ObjReplay.AllParsed | src/libmach/6obj.c:62-113 | the records found in what was assembled are those written: every one, in order, and no other |
| ObjReplay.NamesAgree | src/libmach/6obj.c:81-104 | the reader's names are exactly the entries of the slot table |
| ObjReplay.AssembleAndRead | src/cmd/6a/lex.c:1178-1241 | for every sequence of instructions: reading the output gives each in order, with slots that the reader then knows by the names of its symbols and by the letter of where they are stored, U, b, a or p; the address of a symbol has the letter of its index |
| ObjReplay.Shared | src/cmd/6a/lex.c:1186-1208 | a symbol and its address, one after the other, share a slot and need one name record at most |
| CleanName.CleanName | src/lib9/cleanname.c:36-97 | the in-place loop leaves the clean form of what the buffer held, and touches nothing behind it |
| CleanName.Next | src/lib9/cleanname.c:56-90 | one round: the write position never passes the read position, and what is written leads, with what is unread, to the same place |
| CleanName.TakeBack | src/lib9/cleanname.c:69-74 | ".." takes back exactly the last element |
| CleanName.CleanKeepsPlace | src/lib9/cleanname.c:30-34 | the clean path starts at the same end and leads to the same place; ".." stands only at its head, and not at all below the root |
| CleanName.CleanTwice | src/lib9/cleanname.c:30-34 | cleaning is idempotent |
| CleanName.CleanDecides | src/lib9/cleanname.c:30-34 | two paths clean to the same text if and only if they start at the same end and lead to the same place |
| CleanName.CleanIsShortest | src/lib9/cleanname.c:30-34 | no path from the same end to the same place is shorter |
| CleanName.EndSaysNothing | src/lib9/cleanname.c:56-64 | a slash at the end of a path says nothing, and neither does a dot behind it |
| CleanName.ThereAndBack | src/lib9/cleanname.c:65-74 | a name and ".." behind it say nothing |
| CleanName.UpFromStart | src/lib9/cleanname.c:74-82 | ".." says nothing at the root, and is kept where nothing is left to go back to |
| CleanName.AlreadyClean | src/lib9/cleanname.c:30-34 | a path of names, with ".." only at the head of a relative one, stays as it is |
| Solitaire.Game.constructor | docs.ori/play/solitaire.go:35-46 | the center is the only hole, or -1 |
| Solitaire.EnglishBoard | docs.ori/play/solitaire.go:9-31 | the board of the program has two illegal fields around it in each direction |
| Solitaire.Game.Move | docs.ori/play/solitaire.go:54-63 | a jump is made if and only if it is legal, and never reaches outside the bordered board |
| Solitaire.Game.Unmove | docs.ori/play/solitaire.go:66-70 | the board is again what it was before the jump |
| Solitaire.Game.Solve | docs.ori/play/solitaire.go:79-110 | true if and only if some sequence of legal jumps ends with one peg, in the center if there is one; the board is left as it was; the boards printed are a solution backwards |
| Solitaire.SolvableStep | docs.ori/play/solitaire.go:72-78 | a board is solvable by doing nothing or by a jump to a solvable board |
| Solitaire.JumpRemoves | docs.ori/play/solitaire.go:54-63 | a jump removes one peg and leaves the border alone, so the search ends |
| Solitaire.JumpsAre | docs.ori/play/solitaire.go:54-58 | a jump is possible if and only if there is a peg, a hole two fields away in its row or column, and a peg between |
| Solitaire.JumpDiagonals | docs.ori/play/solitaire.go:58-62 | the class of every third diagonal where the peg comes down gains one, the other two lose one |
| Solitaire.DiagonalsKept | docs.ori/play/solitaire.go:72-110 | in every sequence of legal jumps two classes stay as even or odd against each other as they were |
| Embed.Split | compatible/src/embed/embed.go:183-196 | directory, element and the trailing slash |
| Embed.KeyDetermines | compatible/src/embed/embed.go:151-196 | a valid name is put together again from its directory and element |
| Embed.SortSearch | compatible/src/embed/embed.go:407-422 | a boundary of the predicate, and its only one if the predicate does not fall back |
| Embed.Lookup | compatible/src/embed/embed.go:247-272 | an entry is found if and only if one has that name; the root is found under its own |
| Embed.NamesOne | compatible/src/embed/embed.go:247-272 | a name stands for at most one entry |
| Embed.ReadDir | compatible/src/embed/embed.go:276-292 | exactly the entries whose directory is dir, in order |
| Embed.Open | compatible/src/embed/embed.go:295-338 | every entry opens under its name as the directory or file it is, the root opens, nothing else does |
| Embed.OpenFile.Read | compatible/src/embed/embed.go:345-355 | as many of the bytes from the offset on as fit; the end if and only if there are none |
| Embed.OpenFile.Seek | compatible/src/embed/embed.go:357-371 | the target if it lies in the file, otherwise nothing changes |
| Embed.OpenDir.ReadDir | compatible/src/embed/embed.go:387-404 | the next entries, and the end only when some were asked for and none are left |
| Embed.ReadBatches | compatible/src/embed/embed.go:387-404 | whatever the counts, the batches give the entries in order, none lost or repeated |

## Left out

- HpackRun.ConnectionRoundTrip: strings, tables and runs are shorter than 2^58, so that lengths and indices fit a 64-bit word; the decoder's setters are not called during a run.
- HpackDecoder.ChunksDoNotMatter: only without a string limit; with one, the size test on saved input depends on how the input was split.
- HpackHuffmanDecoder.HuffmanTree.HuffmanDecode: nodes are kept in one sequence with indices for references, and the nil dereference in the last loop is an outcome of its own.
- HPACK: pooled buffers, failures of the underlying writer, error texts, comparison in constant time, sharing of one buffer between slices.
- DivCodeGen.Generator.UDivGen: powers of two and one are excluded, since the parameters mean nothing there; the caller does not use them.
- DivCodeGen.Generator.SDiv2: v is at most 30, since 1 << 31 is not a C int.
- Division: register allocation, and flags other than the carry that the emitted instructions use.
- Contexts: a state machine over values, one step for each atomic action, not an object updated in place; contexts implemented outside the package, real time, values and their reflection check; a cancel function may be called on any context as soon as it is registered, and a timer may fire at any time after it is armed.
- PcLine.File2Pc: tables are well-formed (sorted, both programs present, non-zero pc deltas, programs of one function over the same pcs, numbers of at most five bytes); PcLine.FileLine needs only that programs can be decoded; loading, byte order and the stack-size program are not part of the model.
- PcTab.FuncPcTab: what the value of an instruction is (its file or line, from the history of the object) is given; a function has at least one byte behind its last instruction, and fewer than 2^32.
- ObjLink.InsLinked: addresses and instructions as they are read; the operand of a thread-local segment, whose offset the linker then moves, kinds out of range, and what is done with symbols are left out.
- Bio: the writing side, runes, numbers and lines in strings, files that grow, the reference count of open buffers.
- ObjRead.Reader.Read6: a char is taken as signed, as the reader's users do; failures of malloc, and the partial record left behind a refusal.
- ObjReplay.ReadAll: what is done with each record (the tables of names, and stopping at a number out of range) beyond the names collected.
- ObjSlots.Assembler.Zaddr: a floating constant is given as the two words that are written.
- CleanName.CleanName: an empty path needs room for two bytes, as in the source.
- Embed.Lookup: which byte strings are valid UTF-8 is a parameter; modes, times and errors as text are left out.
- Solitaire.Game.Solve: a printed board is an entry of a log.
