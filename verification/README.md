# aasm assembly engine in Dafny

A model of the aasm bytecode assembler. The assembler reads a token stream of
block definitions, runs a label pass over it, then runs a translation pass
that writes a binary container.

The model covers:

- the `a10` standard, which the driver runs;
- the unfinished `a11` standard, following its evident intent;
- the older global-state translator in `src/translate.cpp` and
  `src/base.cpp`, mainly to show how it differs from `a10`;
- the driver's affix tests, its output-path derivation, and the fold over
  command-line arguments that builds the job list.

The input is a `seq<string>` of tokens. A position is an index into it.
Every abort of the assembler is a `Result` error. One immutable session
value carries the ID tables, counters, memory regions and per-function
layout records from the label pass into the translation pass, as the
shared translator object does.

Files and modules:

- `base.dfy` (`Base`): errors and `Result`; bytes and little-endian fields
  with their round trip; a name's bytes; `std::map` key order as a sorted
  key list.
- `literals.dfy` (`Literals`): the push-literal classifiers, label tokens,
  and `atoi` on tokens.
- `a10_session.dfy`, `a10_function.dfy`, `a10_translator.dfy`: the `a10`
  allocators, the layout and emission walks over one function body, and
  the two passes over a whole source.
- `a11_session.dfy`, `a11_function.dfy`, `a11_translator.dfy`: the same
  for `a11`, whose globals and locals get byte offsets in memory regions.
- `legacy.dfy` (`Legacy`): the old translator.
- `driver.dfy` (`Driver`): `startsWith`, `endsWith`, `genOutputPath`, and
  the argument loop of `main`.

The main results are about the two walks over a function body. For `a10`,
emission writes exactly what layout counted, except for three mnemonics:

- `call` is counted as 5 bytes but written as 4;
- `if` takes two more operand tokens during emission than during layout;
- `ifn` takes one more.

`WidthsAgree` compares both walks with a reference walk (`WalkWidth`,
`WalkEnd`). For a body whose walk meets no `if` or `ifn`, it proves that
both walks stop after the same sentinel. It also proves that the recorded
size is the emitted length plus one byte per `call`. `if` and `ifn` shift
emission off the layout walk. When the tokens they skip are ones layout
reads as one-byte instructions (`Resyncs`), the two walks fall back in step
right after them. `ResyncWidthsAgree` then proves that the recorded size is
the emitted length plus one byte per `call`, two per `if` and one per `ifn`
(`Overcount`). When a skipped token is itself a mnemonic with operands, the
walks can drift apart for good, and no relation is claimed. Three concrete
bodies show each divergence.

The same gap moves the bodies in the file. The function table records, for
body k, the prefix length plus the laid-out sizes of the bodies before it.
`BodiesStart` proves that body k really starts lower, by the overcount of
the bodies before it, whenever those resync. `CallBodiesStart` states this
for a whole translation pass whose earlier bodies hold no `if` or `ifn`:
one byte lower per `call`.

All three layout walks bind a label to the pc reached where it is defined,
and a later definition wins. `LayoutBinds` (for `a10` and `a11`) and
`SeekBinds` (legacy) state this against the reference walk: `LastLabel`
finds the last definition and `PcAt` gives the pc there.

For `a11`, the recorded size is the emitted length plus 4 for every `if`
and `ifn`. The function section's size fields inherit that gap.

The legacy walk writes only the first byte of every operand field. It
leaves all operand tokens except push literals to be counted as one-byte
instructions. It never issues a function ID, so no `call` can be
translated.

## Model

Some functions' own contracts give only a length. Their properties are
stated by lemma rows instead. For `A10Translator.FunctionTable` these are
`FunctionTableShape`, `EntryAt`, `TableEntryBytes` and `DecodeEntry`. For
`A11Translator.TranslationPass` they are `TranslationImage` and
`FunctionSectionReadsBack`.

| member | source | states |
|---|---|---|
| Base.FromLEOfLE | src/a10/translator.h:71 | Writing an n-byte field of a value and reading it back yields the value modulo 256^n. |
| Base.SortedKeys | src/a10/translator.cpp:137 | The function table's keys in iteration order: every key exactly once, strictly increasing in character order. |
| Base.WithoutCount | src/a10/translator.cpp:135-138 | Dropping the distinct natives from the distinct function names leaves exactly (functions − natives) names, the count the table reserves room for. |
| Literals.IsInteger | src/a10/translator.h:136-142 | True iff every character is a decimal digit; the empty token passes. |
| Literals.FloatScan | src/a10/translator.h:144-154 | The scan accepts iff every character is a digit or '.', and the points, plus one if a point was already seen, number at most one. |
| Literals.IntegerIsFloat | src/a10/translator.h:136-154 | Every integer literal also passes the float test. |
| Literals.Classify | src/a10/translator_function.cpp:87-95 | Boolean exactly for "true" and "false"; integer exactly for all-digit tokens; float exactly for float-shaped non-integers; no encoding exactly when the token is neither boolean nor float-shaped. |
| Literals.AtoiOfDecimal | src/a10/translator_function.cpp:147 | Reading back the decimal rendering of n gives n. |
| A10Session.NextId | src/a10/translator.h:74-93 | Succeeds exactly while the 16-bit counter is below 0xFFFF; hands out the old value and advances by one, so only IDs 0..65534 are issued. |
| A10Session.IdFor | src/a10/translator.h:100-129 | A present name returns its stored ID with no change. An absent name aborts with not-found unless create is set. Otherwise it gets the function counter's value, whichever table it goes into; other tables, the global and local counters, records and natives stay unchanged, and validity is kept. |
| A10Session.InsertFreshValid | src/a10/translator.h:111-129 | All three tables draw from the function counter, so every ID is below it and no two entries in any tables share an ID. |
| A10Session.FunctionCountFits | src/a10/translator.cpp:132-133 | In a valid session the number of functions fits the 16-bit count written for it. |
| A10Session.ClearLocals | src/a10/translator.cpp:37-42 | Empties the local table and zeroes its counter; leaves the other tables and the function counter alone; keeps validity. |
| A10Function.SimpleOpcode | src/a10/translator_function.cpp:183-203 | Every one-byte opcode reads back as the mnemonic it was written for. |
| A10Function.LayoutStep | src/a10/translator_function.cpp:86-112 | Non-operand tokens, unknown mnemonics included, count 1 and take no operand. A push followed by a token succeeds iff that literal is boolean, integer or float. Widths lie in 1..9; the only errors are end-of-file and an unknown push literal. |
| A10Function.LayoutFrom | src/a10/translator_function.cpp:73-113 | Stops right after the '.' sentinel. Labels seen earlier stay bound and every bound pc stays within the size. Running out of tokens aborts with end-of-file; the only other error is an unknown push literal. Where each label is bound is stated by LayoutBinds. |
| A10Function.LayoutBinds | src/a10/translator_function.cpp:73-113 | Take any label l. If the walk defines l, l ends up bound to the pc reached at its last definition: the starting pc plus the walk's width up to that token. If the walk never defines l, l is bound exactly when it was before, to the same pc. |
| A10Function.PassFunction | src/a10/translator_function.cpp:67-116 | From pc 0 with no labels, the recorded labels are exactly those the body defines. Each is bound to the pc reached at its last definition, and every such pc lies within the recorded size. |
| A10Function.EmitPush | src/a10/translator_function.cpp:142-150 | Succeeds iff a classifiable literal follows. Writes 2 bytes for a boolean and 9 otherwise. The bytes decode to push with the literal's value: the boolean, atol's 64 bits, or atof's bits. |
| A10Function.EmitSlot | src/a10/translator_function.cpp:151-182 | Load forms create a missing name and fetch forms abort on it. Writes 3 bytes decoding to the mnemonic and the name's ID. Leaves the function table, records and natives alone and keeps validity. |
| A10Function.EmitBranch | src/a10/translator_function.cpp:204-225 | Succeeds iff the label token (one further on for if) is bound. Writes 5 bytes decoding to the label's pc mod 2^32. |
| A10Function.EmitCall | src/a10/translator_function.cpp:226-236 | Succeeds iff the callee is known and an argc token follows. Writes 4 bytes: the callee ID and atoi(argc) mod 256. |
| A10Function.EmitStep | src/a10/translator_function.cpp:136-239 | An unrecognised mnemonic aborts. Emission never changes the function table, the records or the natives, and keeps validity. |
| A10Function.EmitMatchesLayout | src/a10/translator_function.cpp:86-112 | Whatever emits also lays out. Bytes and next token agree except for call (4 written, 5 counted), if (resumes 2 tokens later) and ifn (1 later). |
| A10Function.EmitDecodes | src/a10/translator_function.cpp:141-237 | Each emitted instruction decodes to its mnemonic and the operand its tokens denote. |
| A10Function.EmitUndefinedAborts | src/a10/translator_function.cpp:167-236 | A fetch of an unknown name, a call of an unknown function, and a goto or ifn to an unbound label each abort. |
| A10Function.EmitFrom | src/a10/translator_function.cpp:131-240 | Emitting a body keeps the function table, records and natives, and keeps validity. |
| A10Function.EmitFromStops | src/a10/translator_function.cpp:134-140 | A successful emission ends right after a '.' sentinel token. |
| A10Function.LayoutWalk | src/a10/translator_function.cpp:67-116 | The layout pass records as size its starting pc plus the width of the reference walk, and stops where that walk ends. |
| A10Function.EmitWalk | src/a10/translator_function.cpp:131-240 | When the walk meets no if or ifn, emission stops where the walk ends. It writes the walk's width less one byte per call instruction. |
| A10Function.WidthsAgree | src/a10/translator_function.cpp:86-112 | When the walk meets no if or ifn, both walks stop after the same sentinel. The size counted is the bytes emitted plus one per call instruction. |
| A10Function.FunctionWidthsAgree | src/a10/translator_function.cpp:115 | For such a body laid out from pc 0, the recorded size is the emitted length plus one per call. A body without call writes exactly its recorded size. |
| A10Function.NoCondBranchResyncs | src/a10/translator_function.cpp:86-112 | A body whose walk meets no if or ifn resyncs, and its overcount is its number of calls. |
| A10Function.EmitResyncs | src/a10/translator_function.cpp:131-240 | When every if on the emission walk is followed by two one-byte tokens and every ifn by one, emission stops where the layout walk ends. It writes the walk's width less one byte per call, two per if and one per ifn. |
| A10Function.ResyncWidthsAgree | src/a10/translator_function.cpp:86-112 | For such a body both walks stop after the same sentinel. The size counted is the bytes emitted plus one per call, two per if and one per ifn. |
| A10Function.FunctionResyncs | src/a10/translator_function.cpp:115 | For such a body laid out from pc 0, the recorded size is the emitted length plus that overcount. |
| A10Function.IfOvercounts | src/a10/translator_function.cpp:204-211 | The body ["L:", "if", "c", "L", "."] records size 7 and writes 5 bytes. |
| A10Function.IfnOvercounts | src/a10/translator_function.cpp:212-218 | The body ["L:", "ifn", "L", "."] records size 6 and writes 5 bytes. |
| A10Function.CallOvercounts | src/a10/translator_function.cpp:226-236 | The body ["call", "f", "0", "."] records size 5 and writes 4 bytes, given that f has an ID. |
| A10Translator.ScanFlags | src/a10/translator.cpp:54-59 | Succeeds iff 'n' and 'v' each occur at most once (and not again when already set); the result flags are set exactly when the letters occur. |
| A10Translator.ParseFlags | src/a10/translator.cpp:51-59 | Valid iff the block token has at most four characters and at most one 'n' and one 'v' after "f:"; otherwise an invalid-function-def error. |
| A10Translator.Function | src/a10/translator.cpp:47-70 | A redeclared name aborts. A new name takes the next function ID. A native is appended to the native list; any other function gets its locals cleared and a record of its laid-out body. The label pass's shape is kept, and the duplicate-native abort cannot fire. |
| A10Translator.Globalvar | src/a10/translator.cpp:72-79 | Succeeds iff a name follows and is known or an ID is left; registers it, keeping an existing ID, and touches nothing else. |
| A10Translator.LabelPass | src/a10/translator.cpp:158-173 | A block token shorter than 2 characters or without ':' second aborts. Declared names only accumulate, and the shape is kept. |
| A10Translator.NativeData | src/a10/translator.cpp:93-116 | The first two bytes hold the native count modulo 2^16. The entries follow them, and the length is 2 plus the sum of (name length + 3). |
| A10Translator.ReadNativeEntries | src/a10/translator.cpp:102-115 | When every name is plain (each character between 1 and 255), the entries read back in order. Entry k holds native k's name, then a NUL, then its function ID modulo 2^16. |
| A10Translator.NativeDataReadsBack | src/a10/translator.cpp:93-116 | With fewer than 2^16 natives, all with plain names, the count read from the first two bytes says how many entries follow. Reading that many gives each native's name and 16-bit function ID, in declaration order. |
| A10Translator.GlobalvarData | src/a10/translator.cpp:118-126 | Two bytes reading back the number of globals mod 2^16. |
| A10Translator.Defined | src/a10/translator.cpp:137-138 | The listed functions are exactly the declared non-natives, each once. |
| A10Translator.EntryAt | src/a10/translator.cpp:137-145 | Entry k holds the k-th ID and the starting position plus the sizes of the entries before it. |
| A10Translator.DecodeEntry | src/a10/translator.cpp:140-143 | An entry reads back as its ID mod 2^16 and its position mod 2^32. |
| A10Translator.FunctionTableShape | src/a10/translator.cpp:132-135 | The table is the 16-bit count of all functions, natives included, then one entry per listed function, the first pointing just past the table. |
| A10Translator.WriteFunctions | src/a10/translator.cpp:148-156 | One body per listed function, in order. The function table and records are unchanged and validity is kept. |
| A10Translator.TranslationPass | src/a10/translator.cpp:175-184 | Succeeds iff every body can be emitted. The image is header, natives, global count, function table and bodies, in that order, framed so the table's positions count from the first body. |
| A10Translator.TableStartIsBodyStart | src/a10/translator.cpp:128-146 | The running position the table starts from equals the number of bytes in front of the bodies. |
| A10Translator.FramedBody | src/a10/translator.cpp:137-156 | Body k sits at the prefix plus the sizes of the earlier bodies, whenever those were written at their laid-out sizes. |
| A10Translator.WrittenBody | src/a10/translator.cpp:148-156 | Body k of the written bodies is what emitting function k's body gives, from its recorded start, with its recorded labels, in a session holding the same records. |
| A10Translator.WrittenBodyLength | src/a10/translator.cpp:148-156 | A written body that resyncs is its recorded size less its overcount. |
| A10Translator.WrittenPrefixLength | src/a10/translator.cpp:148-156 | When the bodies before k all resync, their total length is their total recorded size less their total overcount. |
| A10Translator.FramedEntry | src/a10/translator.cpp:137-145 | Entry k of a framed image's table holds function k's ID and the prefix length plus the recorded sizes of the bodies before it. |
| A10Translator.BodiesStart | src/a10/translator.cpp:128-156 | Entry k holds function k's ID and a position P: the prefix length plus the earlier bodies' recorded sizes. When the earlier bodies resync, body k lies in the file at P less their overcount. |
| A10Translator.CallBodiesStart | src/a10/translator.cpp:128-156 | After a successful translation pass, take a body k whose earlier bodies hold no if or ifn. Its table entry has its ID and position P, and the body lies at P less one byte per call in the earlier bodies. |
| A10Translator.TableEntryBytes | src/a10/translator.cpp:140-144 | Entry k's six bytes, after the 2-byte count, hold the k-th ID and the starting position plus the earlier sizes. |
| A10Translator.Assemble | src/asm.cpp:240-253 | A label-pass error ends the job unchanged. A finished image has the fixed header and the natives and globals the label pass declared. Its function table positions start at the first body. |
| A11Session.NextId | src/a11/translator.h:76-81 | Succeeds exactly while the 32-bit counter is below 0xFFFFFFFF; hands out the old value and advances by one. |
| A11Session.NextMPos | src/a11/translator.h:83-97 | Succeeds iff counter + size does not wrap 32 bits; hands out the old counter and advances it by size. |
| A11Session.MPosFor | src/a11/translator.h:115-133 | A present name keeps its first offset whatever size is asked. An absent name aborts unless create is set; otherwise it gets the counter, the counter moves on by size, and the reservation is recorded. The region's shape is kept. |
| A11Session.ReserveValid | src/a11/translator.h:83-97 | Reserving a fresh name at the counter keeps names unique, offsets equal to the bytes reserved before, and the counter equal to the total. |
| A11Session.RangesDisjoint | src/a11/translator.h:83-97 | Of two reservations, the earlier one's range ends before the later one begins. |
| A11Session.RangeWithin | src/a11/translator.h:83-97 | Every reserved range ends at or below the counter. |
| A11Session.FunctionIdFor | src/a11/translator.h:104-113 | Create/must-exist lookup: a present name keeps its ID; an absent one aborts or takes the next ID. The table stays injective below its counter. |
| A11Function.SimpleOpcode | src/a11/translator_function.cpp:248-430 | Every one-byte opcode other than if and ifn reads back as its mnemonic and carries no operand bytes. |
| A11Function.LayoutStep | src/a11/translator_function.cpp:172-183 | Widths are 1, 5 or 9. The only error is end-of-file on a missing operand token. |
| A11Function.LayoutFrom | src/a11/translator_function.cpp:159-184 | Stops right after the sentinel and keeps labels within the size. The only error is end-of-file. Where each label is bound is stated by LayoutBinds. |
| A11Function.LayoutBinds | src/a11/translator_function.cpp:159-184 | The size is the starting pc plus the walk's width. A label the walk defines is bound to the pc reached at its last definition. Any other label is bound exactly when it was before, to the same pc. |
| A11Function.PassFunction | src/a11/translator_function.cpp:153-187 | From pc 0 with no labels, the recorded labels are exactly those the body defines. Each is bound to the pc reached at its last definition, and every such pc lies within the size. It validates no operand, so only a missing sentinel fails. |
| A11Function.Field | src/a11/translator.h:73 | An opcode and an n-byte field decode to the opcode and the value mod 256^n. |
| A11Function.EmitPush | src/a11/translator_function.cpp:214-247 | Fails only for pushi8 "@name" with no such local. Writes 1 + 4 or 1 + 8 bytes decoding to the width's shared opcode and the value cut to the width. |
| A11Function.EmitSlot | src/a11/translator_function.cpp:250-313 | Loads reserve a missing name 4 or 8 bytes in their region; fetches abort on it. Writes 5 bytes with the name's offset, changes only the addressed region, and keeps its shape. |
| A11Function.EmitGoto | src/a11/translator_function.cpp:388-395 | Succeeds iff the label is bound; 5 bytes with its pc mod 2^32. |
| A11Function.EmitCall | src/a11/translator_function.cpp:422-429 | Succeeds iff the callee is a declared function; 5 bytes with its 32-bit ID. |
| A11Function.EmitOperand | src/a11/translator_function.cpp:214-313 | An operand instruction is exactly as wide as layout counted it, takes the same token, and decodes to its opcode and meaning. |
| A11Function.EmitSimple | src/a11/translator_function.cpp:396-431 | One opcode byte, or an unrecognised-mnemonic abort. |
| A11Function.EmitStep | src/a11/translator_function.cpp:208-432 | One instruction: the function table and counter, the records, the natives and the entry ID stay unchanged. |
| A11Function.EmitFrom | src/a11/translator_function.cpp:203-433 | A body: the function table and counter, the records, the natives and the entry ID stay unchanged. |
| A11Function.EmitFromStops | src/a11/translator_function.cpp:205-210 | A successful emission ends right after a '.' sentinel token. |
| A11Function.EmitMatchesLayout | src/a11/translator_function.cpp:172-183 | Both passes take the same tokens. The width agrees except for if and ifn, which are counted 5 and written 1. |
| A11Function.EmitDecodes | src/a11/translator_function.cpp:213-430 | Each emitted instruction decodes to its opcode and the value its operand denotes. |
| A11Function.EmitRejectsUnknown | src/a11/translator_function.cpp:431 | Emission accepts exactly the recognised mnemonics; an unknown token aborts though layout counted it as 1 byte. |
| A11Function.EmitStepKeepsRegions | src/a11/translator_function.cpp:250-313 | Emitting one instruction keeps both regions' shape. |
| A11Function.EmitFromKeepsRegions | src/a11/translator_function.cpp:203-433 | Emitting a body keeps both regions' shape. |
| A11Function.WidthsAgree | src/a11/translator_function.cpp:172-183 | Both walks stop after the same sentinel, and the size counted is the bytes emitted plus 4 per if and ifn. |
| A11Function.FunctionWidths | src/a11/translator_function.cpp:186 | The recorded size is the emitted length plus 4 per if and ifn. |
| A11Function.IfOvercounts | src/a11/translator_function.cpp:396 | A body holding only "if" records size 5 and writes one byte. |
| A11Translator.Function | src/a11/translator.cpp:28-46 | Succeeds iff the block token is at most 2 characters, the name is new, an ID is left and the body lays out. The name gets the next ID and "main" becomes the entry. Locals are cleared and the record is stored under the ID. |
| A11Translator.FunctionWf | src/a11/translator.cpp:28-46 | Declaring a function keeps IDs valid, every ID recorded, the entry ID tracking "main", and the local region empty. |
| A11Translator.Native | src/a11/translator.cpp:48-61 | Succeeds iff the block token is at most 2 characters and the native is new; it takes the next native ID and is appended. |
| A11Translator.NativeWf | src/a11/translator.cpp:48-61 | Natives stay distinct and numbered by position. |
| A11Translator.GlobalSize | src/a11/translator.cpp:67-72 | i4 and f4 give 4, i8 and f8 give 8, and any other type token aborts. |
| A11Translator.Globalvar | src/a11/translator.cpp:63-76 | A bad type aborts. Otherwise the name gets an offset of that size in the global region, keeping a first one. |
| A11Translator.LabelPass | src/a11/translator.cpp:130-145 | Malformed block tokens abort. Declared functions, globals and natives only accumulate. |
| A11Translator.LabelPassWf | src/a11/translator.cpp:130-145 | The label pass keeps its shape from any well-formed start. |
| A11Translator.NativeData | src/a11/translator.cpp:91-105 | The 32-bit count reads back as the number of natives. When every name is plain (each character between 1 and 255), the NUL-terminated names read back as the natives. |
| A11Translator.ReadNativeNames | src/a11/translator.cpp:97-104 | The written names read back in order. |
| A11Translator.WriteBodies | src/a11/translator.cpp:113-119 | One body per ID, in ID order, with the session threaded through; IDs, records, entry and natives are unchanged. |
| A11Translator.BodySizes | src/a11/translator.cpp:113-119 | Every body written has its recorded size less 4 per if and ifn. |
| A11Translator.FunctionSection | src/a11/translator.cpp:107-122 | Its length is 8 plus the frames. |
| A11Translator.SectionFrame | src/a11/translator.cpp:113-119 | Frame k, after the count and earlier frames, is function k's 4-byte size then its body. |
| A11Translator.SectionEnds | src/a11/translator.cpp:107-122 | The section opens with the function count and closes with the entry ID, each reading back as written. |
| A11Translator.SizedFrame | src/a11/translator.cpp:113-119 | Frame k's size field holds a size equal to body k's length plus 4 per if and ifn. |
| A11Translator.GlobalvarData | src/a11/translator.cpp:124-128 | Four bytes reading back the global counter, which is the bytes reserved for all globals. |
| A11Translator.FunctionSectionReadsBack | src/a11/translator.cpp:107-122 | Around bodies of the recorded sizes, the section reads back as the function count, then frame k for each function k, then the entry ID. Frame k holds k's size, which is body k's length plus 4 per if and ifn, followed by body k. |
| A11Translator.TranslationImage | src/a11/translator.cpp:147-153 | A successful pass writes the fixed header and native data that reads back. Next comes a function section that reads back around the emitted bodies. Last is the global size, which is the total reserved once the bodies are written. |
| A11Translator.TranslatedGlobals | src/a11/translator.cpp:124-128 | The global size written is the total reserved once the bodies are emitted, so it includes globals that loadwide created during emission. |
| A11Translator.Assemble | src/a11/translator.cpp:130-153 | A job is the label pass from a fresh translator (whose shape it keeps), then the translation pass; a label-pass error is the job's error. |
| Legacy.Write | src/base.cpp:49-52 | Whatever size is asked for, one byte is written: the field's first byte. |
| Legacy.FirstField | src/base.cpp:49-52 | An opcode followed by write's byte equals the first two bytes of the opcode followed by the whole field. |
| Legacy.AddPc | src/translate.cpp:116-144 | Only push reads an operand token. A push succeeds iff its literal is classifiable. Widths lie in 1..9. Errors are end-of-file or an unknown push literal. |
| Legacy.LayoutAgainstA10 | src/translate.cpp:136-143 | Against a10 layout, the width differs exactly for loadwide, and the resume position differs exactly for load, loadwide, fetch, fetchwide, goto and call. |
| Legacy.SeekFrom | src/translate.cpp:211-215 | Stops after the sentinel and keeps labels within the size. Where each label is bound is stated by SeekBinds. |
| Legacy.SeekBinds | src/translate.cpp:116-144 | The size is the starting pc plus the walk's width. A label the walk defines is bound to the pc reached at its last definition. Any other label is bound exactly when it was before, to the same pc. |
| Legacy.SeekFunction | src/translate.cpp:205-218 | Replaces only name's record. The record holds the body's start, the walk's width as size, and exactly the labels the body defines. Each label is bound to the pc reached at its last definition, within the size. |
| Legacy.Translate | src/translate.cpp:146-198 | A label writes nothing. An unrecognised mnemonic aborts, and so does a call to an unknown callee. The function table, records and natives are unchanged and validity is kept. |
| Legacy.LayoutAgainstEmission | src/translate.cpp:126-195 | Counted against written: a numeric push is 7 bytes more; load, fetch and fetchwide are 3 counted vs 2 written; loadwide 1 vs 2; if, ifn and goto 5 vs 2; call 5 vs 3. Operand tokens are left to the layout walk. |
| Legacy.TruncatesA10 | src/translate.cpp:145-195 | Take an instruction other than if that both translators accept. The legacy translator leaves the same session and next position as a10. Its bytes are a10's opcode and first operand byte, or the opcode alone for a one-byte instruction. For call, the argument count follows them. |
| Legacy.TranslateFrom | src/translate.cpp:223-227 | Stops after the sentinel; keeps tables, records and validity. |
| Legacy.TranslateFunction | src/translate.cpp:220-228 | Resumes at the recorded start and keeps the function table and records. |
| Legacy.StraightWidths | src/translate.cpp:205-228 | On a body with no operand mnemonic but push, both walks stop at the same sentinel, and the recorded size is the bytes written plus 7 per integer or float push. |
| Legacy.JumpLayout | src/translate.cpp:136-143 | ["goto","l","l:","."] lays out with l at pc 6 and size 6. |
| Legacy.JumpEmits | src/translate.cpp:186 | With that label map the same body writes the 2 bytes [0x52, 6], a jump past its end. |
| Legacy.FunctionBlock | src/base.cpp:143-159 | Bad flags abort. A native leaves the state as it was. Any other function has its locals reset and gets a record starting after its name. Records only accumulate. |
| Legacy.Run | src/base.cpp:174-186 | Malformed block tokens abort; records only accumulate. |
| Legacy.RunIssuesNoIds | src/base.cpp:143-166 | The label pass leaves the function and global tables, the function counter and the natives as they were. |
| Legacy.CallNeverResolves | src/translate.cpp:187-190 | After the label pass from a fresh state, every call aborts as not found. |
| Driver.StartsWith | src/asm.cpp:65-70 | True iff beginning is a prefix of str. |
| Driver.EndsWith | src/asm.cpp:72-77 | True iff ending is a suffix of str. |
| Driver.GenOutputPath | src/asm.cpp:87-106 | Aborts iff the source ends in ".aby". Otherwise the result ends in ".aby", differs from the source, and keeps a prefix of it. The stripped part is empty iff the source has no '.', and otherwise runs from the last '.'. |
| Driver.OutputStem | src/asm.cpp:89-100 | The ".aml" rule agrees with the last-dot rule, and an ".aby" source loses exactly 4 characters. |
| Driver.AmlOutput | src/asm.cpp:89-102 | A ".aml" source gets those 4 characters replaced by ".aby". |
| Driver.DotlessOutput | src/asm.cpp:93-102 | A source without '.' gets ".aby" appended. |
| Driver.LongOption | src/asm.cpp:172-180 | Succeeds exactly for --version, --help, --std-support and --std-default, which leave the state as it was; any other "--" argument aborts naming itself. |
| Driver.StdOption | src/asm.cpp:189-194 | Succeeds iff the standard is non-empty; "def" names the default, so the kept standard is never empty or "def". |
| Driver.ShortOption | src/asm.cpp:181-196 | -o consumes the next argument, failing iff there is none. The other options take one argument and never add jobs. Only -std changes the standard. |
| Driver.OutputFor | src/asm.cpp:199-200 | A set -o path is used as given; otherwise the derived path, which fails iff the source ends in ".aby". Never empty. |
| Driver.SourceArgument | src/asm.cpp:197-204 | It fails exactly when no -o path is set and the source ends in ".aby". Otherwise it appends exactly one job and keeps the earlier jobs. The new job has the source, the current standard and a non-empty output: the -o path, or else a generated ".aby" path that differs from the source. Afterwards the -o path is cleared, and the standard and mute switches are unchanged. |
| Driver.ParseStep | src/asm.cpp:169-204 | One argument: a source appends its job. -o sets the path for the next step. Errors are never "no arguments". |
| Driver.ParseFrom | src/asm.cpp:166-204 | Jobs only accumulate; every new job has a non-empty output and, from a named standard, a named one. |
| Driver.ParseArgs | src/asm.cpp:161-204 | Fails with "no arguments" exactly for an empty argument list; every job has a named standard and a non-empty output. |
| Driver.JobsFollowSources | src/asm.cpp:166-204 | The jobs' sources are the source arguments in order, skipping each argument after -o. |
| Driver.OutputAppliesOnce | src/asm.cpp:186-203 | "-o path a b" gives a the output path and b its derived one. |
| Driver.StdDefIsDefault | src/asm.cpp:189-193 | "-stddef" selects the default standard "a10". |
| Driver.DefaultStandardThroughout | src/asm.cpp:159-204 | Without any -std argument, every job uses "a10". |

## Left out

- Token reading (`istream >>`, `tellg`/`seekg`, the end-of-file quirk of `nextToken`) is not modelled. Tokens are a sequence and positions are indices.
- The empty token cannot occur, because the tokenizer never yields one. It is not treated as a label.
- Literals.FloatConv: the bits atof yields are a parameter, not computed, because IEEE-754 conversion is outside the model; only operand widths and byte layout are modelled.
- Literals.Atoi: values out of range are not saturated as glibc's atol/atoi/atoll do; they are wrapped when written to the field. That overflow is undefined behaviour in C.
- Base.CharByte: a character is written as its code modulo 256. A `std::string` holds only bytes, so characters of 256 and above cannot occur in the source. The read-back lemmas for native names therefore require plain names: every character between 1 and 255.
- Host byte order is not modelled. `write(&v, n)` is modelled as little-endian.
- Logging, informational messages and the printers behind `--help`, `--version`, `--std-support` and `--std-default` are not modelled; an abort is only an error value.
- The driver's job loop (src/asm.cpp:206-259) is modelled only as the two passes of one job (`A10Translator.Assemble`). Opening the files, choosing the translator by standard and aborting on a standard other than `a10` are not modelled.
- The `a11` running file position (`m_filepos`) is not modelled. It affects no emitted byte.
- The declaration-only headers src/translator.h, src/base.h and src/translate.h are not part of this model.
- A11Session.NextId is also used for natives: the source calls a native counter that is never declared, so it is modelled as a u32 counter with the function counter's overflow abort.
- A11Translator.Function: `a11` function records are keyed by function ID, as the source's calls with IDs in place of names make them in effect.
- A11Session.MPosFor: the `reserved` list is bookkeeping the source does not keep. It records how the offsets were built.
- A10Translator.WriteFunctions: locals are not cleared between bodies during emission, as in the source, so the session is threaded through all bodies.
- A10Translator.FramedBody: its hypothesis, that every earlier body was written at its laid-out size, is not discharged for all sources, because it does not hold for all: a body with a `call`, `if` or `ifn` is written shorter than it was laid out. BodiesStart and CallBodiesStart give the true start for earlier bodies that resync; for a body whose `if` or `ifn` skips a mnemonic with operands, no start is stated.
- Legacy.TruncatesA10: `if` is excluded. The legacy translator reads its label from the token right after `if`, while `a10` skips that token and reads the one after. So the two read different operands.
- Legacy.Record: the empty record `operator[]` creates for an unknown name is returned but not stored.
- Legacy.Translate: an integer push keeps its value in a `long` and passes 8 bytes of it to `write`. That assumes an 8-byte `long` (LP64). A 4-byte `long` would also clip `atol`'s value. Either way only the first byte reaches the file.
- Legacy.Translate: the legacy `pc` is a u32. The model keeps it unbounded, which differs only above 2^32 bytes, and only its first byte is ever written.
- Bytes already written before an abort are not modelled; a failed job yields only its error.
