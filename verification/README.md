# A verified model of RXDK's state machinery, encodings and build gate

RXDK is a development kit for the original Xbox: the public Direct3D 8 headers with their inline
state setters, the driver library behind them, compatibility headers, a C++ runtime and a build-time
instruction scanner. This Dafny 4.11 project models the parts of it that carry real logic, and proves
what they are for. `dafny verify dfyconfig.toml` checks all of it.

**Deferred Direct3D state** (`RenderTables`, `Registers`, `DeferredState`, `LazyEager`, `FlushReads`,
`CombinerReads`, `DeviceGlobals`, `ShadowState`, `RenderCache`). The setters of `shared/include/d3d8.h` keep shadow arrays and a word of dirty flags; the
draw-time flush of `libs/libd3d8/se/lazy.cpp` recomputes what is dirty. `DeviceGlobals.Globals` is the
imperative form, on the arrays; `DeferredState` is its specification as a state machine. Each hardware
group is recorded as the inputs that its LazySet routine makes its words from: the shadow entries it looks
at under the conditions the routine tests, and for the lights whether specular light is computed. The flag
by which the combiner routine tells the lights routine that an argument selects the specular colour is part
of the state, and so is the specular-enable register, which both routines write. The main result, in
`LazyEager`, is an if-and-only-if: lazy and eager recomputation cannot be told apart at any draw of any cut
of a run exactly when every call meets a guard that a caller can check. There are two gaps. A colour
operation may change the bump mode behind clean groups: the inline setter marks only the combiners, although
the comment in the table says that the two bump-mapping operations dirty more, and the other setter marks
more when bump mapping is entered but not when it is left. And a combiner argument, a texture operation or
point sprites may change whether specular light is needed, behind clean lights: no table entry marks the
lights for them. `FlushReads` is the other half of the tables: a state that marks a group shows in the group
at the next draw, under conditions that are given and that say where an entry marks more than is read.
`CombinerReads` pins the arguments that an operation takes to what the operation computes, and `Registers`
the command table to the hardware's own register numbers.

**Push buffer** (`PushBuffer`, `Pusher`). The command encoding, decoded and encoded both ways; and the
reservation protocol of BeginState, EndState, MakeSpace and the fences it writes, over a memory that
wraps.

**State blocks** (`StateBlock`). The slot numbering, the marking macros and the recorder's byte array.

**Vertex declarations** (`VertexDeclaration`, `ConstantLoads`). The token macros against the documented
bit fields, and the driver's translation of constant loads into commands, executed word by word on a model
of the hardware's load pointer and of the thirty-two methods that take constants. The translation compares an address with the *start* of the load before it, so
that a load placed one register behind the start of a longer one goes astray; the exact condition is
proved for all loads, empty ones among them, with an example. The scan for loads takes every word for a
token, so that an extension token's extra words can mislead it; it is proved right for extra words that are
neither constant tokens nor the end, with an example where they are.

**ISA scanner** (`Latin1`, `Archive`, `ArchiveBackward`, `ArchiveWriter`, `Coff`, `CoffWriter`, `IsaPolicy`,
`Sweep`, `IsaScan`, `IsaVerdict`, `IsaGate`). `tools/isa-scan.py`: the `ar` walker as a generator object, the
COFF section walk, the two-level resuming sweep that appends to a shared list, and the hit limit threaded
through four functions up to the exit status. The walker goes by positions, which a negative size field can
move back; sizes of -60 and -61 are met forever, lower ones can go back and still end (an example of -62
does), and higher ones always end. What is said about scans is said of archives whose walk ends; the scan of
any other returns only if the hit limit stops it first. The disassembler is a deterministic function of the code, the base and
the position that returns nothing or an instruction inside the code. For a positive limit a file's result is
the first `max` of its hits; the limit changes the verdict only through files that raise an exception behind
a hit, and exactly when is proved. A limit below one counts as reached at once, and then the first section
of the first file scanned decides alone. The two writers are the other halves of round trips, and together
they give the gate's correctness on whole libraries, down to the policy tables.

**Text and numbers** (`Digits`, `WideString`). `_itow`, `_i64tow` and `_wtol` of
`dist-include/xdk_compat.h`, on the caller's buffer, with wrapping negation and the machine widths.
`_itow` and `_i64tow` have one text but for the integer type, so one method with the width as a
parameter stands for both.

**Performance events** (`PerfRing`, `PerfRingThreads`). The event ring of `shared/include/d3d8perf.h`,
once as an object with its allocations, and once as a machine whose threads check, take a ticket, locate
a slot and write it, in any interleaving. The ring is at every moment what its finished inserts leave in the
order of their tickets exactly when no insert writes over a newer one of its slot; nothing in the code sees
to that.

**Smaller protocols** (`HashAdapters`, `NewHandler`, `TileTags`). The hash and equality adapters of
`dist-include/rxdk_xhash.h` with the sets they drive; the allocation loop of
`libs/libcpp/operator_new_delete.cpp`; tile tags, and SetTile with the checks of the debug build, which
reports and stores all the same. The header of the hash adapters says that its halves agree "by
construction"; nothing in the code makes equal keys hash alike, and that is proved to be the exact condition.

`Prelude` and `Direct3DTypes` hold what several modules share.

Conventions: a DWORD is an integer below 2^32, with wrap-around written out where it can happen; a word
of flags is the set of its bit numbers; bytes and wide characters are bounded integers. Fields that a
macro joins by `|` never overlap for arguments in range, so they are added.

## Model

| member | source | states |
|---|---|---|
| `LazyEager.LazyEqualsEager` | shared/include/d3d8.h:2031-2142 | for every run of setters (inline or not, pure device or not) and draws, lazy and eager recomputation give the same hardware, the shared specular-enable register included, at every draw of every cut of the run if and only if each call meets its guard |
| `LazyEager.StepKeepsCoherent` | shared/include/d3d8.h:513-585 | one call keeps "every clean group is current" exactly when its guard holds: no bump mode changes behind a clean group, and the need for specular light does not change behind clean lights that depend on it |
| `LazyEager.GuardedRunDraws` | libs/libd3d8/se/lazy.cpp:1574-1614 | in a guarded run every draw finds what recomputing everything would have left, and clean groups stay current to the end |
| `LazyEager.UnguardedIsVisible` | libs/libd3d8/se/state.cpp:2109-2127 | a run that breaks a guard has a cut after which a draw renders with stale hardware |
| `LazyEager.SpecularFlip` | libs/libd3d8/se/combiner.cpp:1976-1990 | a setter call that starts or ends the need for specular light behind clean lights that depend on it: at the next draw the lights compute none although they should, or the combiner routine has switched the specular-enable register off although the lights want it on |
| `LazyEager.SpecularArgumentExample` | libs/libd3d8/se/combiner.cpp:1273-1276 | with lighting on, the specular render state off and everything clean, selecting the specular colour as the first argument of a SELECTARG1 stage breaks the guard, and the next draw finds lights that compute no specular light |
| `DeferredState.FlagSeen` | libs/libd3d8/se/lazy.cpp:1215-1216 | a group sees the combiners' flag exactly if it is the lights, hardware lighting is on and the specular render state is off |
| `LazyEager.PlainRunDraws` | shared/include/d3d8.h:575-575 | a title that selects neither a bump-mapping operation nor the specular colour as an argument meets every guard and never sees lazy recomputation, with either setter |
| `LazyEager.SettersDiffer` | libs/libd3d8/se/state.cpp:2103-2127 | the inline and the out-of-line texture setters raise the same flags except for bump-mapping operations, where the inline one leaves the shader program and the samplers unmarked |
| `LazyEager.RenderTableCoversReads` | libs/libd3d8/se/lazy.cpp:29-147 | for the same combiners' flag, a render state whose table entry lacks a group's flag makes no difference to what that group's routine sends; the combiner routine's own write to the shared register is in the flush instead |
| `LazyEager.TextureTableCoversReads` | libs/libd3d8/se/lazy.cpp:287-470 | for the same combiners' flag, a texture state other than the colour operation that does not raise a group's flag makes no difference to what that group's routine sends |
| `LazyEager.ColorOpSeen` | libs/libd3d8/se/lazy.cpp:149-285 | for the same combiners' flag, and besides the combiners, a colour operation is seen exactly through the bump mode of the next stage's texture program, where that stage has a texture and no pixel shader is active, and the sign override of its own sampler |
| `LazyEager.DrawCleans` | libs/libd3d8/se/lazy.cpp:1566-1614 | a draw leaves no group dirty and touches neither the vertex-format and direct-mode flags nor the shadows, nor a transform that was set directly |
| `LazyEager.DrawnRegister` | libs/libd3d8/se/lazy.cpp:1215-1281 | after a draw specular light is enabled exactly where the lights are on, the render state asks for it or the combiners need it |
| `FlushReads.MarkedByRenderState` | shared/include/d3d8.h:513-562 | the groups that each deferred render state marks, by its number |
| `FlushReads.MarkedRenderStateShows` | libs/libd3d8/se/lazy.cpp:29-147 | another value of a render state changes what a group that its entry marks is recomputed from exactly as said: always for point parameters and fog; for the combiners without a pixel shader; for a sampler whose stage uses the wrap state's coordinates; for the transform under the fixed-function pipeline; for the lights by whether they are on, and where they are, by whether specular light starts or stops and by the value |
| `FlushReads.MarkedTextureStateShows` | libs/libd3d8/se/combiner.cpp:1720-1735 | the same for texture states: every combiner state shows in the combiners without a pixel shader, every sampler state in its own sampler (the sign bits unless bump mapping overrides them), the transform flags under the fixed-function pipeline, and a bump-mapping operation in the next stage's program and its own sampler's sign bits |
| `FlushReads.RenderStateDrawn` | libs/libd3d8/se/lazy.cpp:1582-1614 | from a current group, setting a marked render state changes what the next draw finds the group computed from exactly if it shows |
| `FlushReads.TextureStateDrawn` | libs/libd3d8/se/lazy.cpp:1582-1614 | the same for texture states, with either setter |
| `CombinerReads.ArgumentsAreDependencies` | libs/libd3d8/se/combiner.cpp:1785-1880 | the arguments fed for an operation are exactly those on which what the operation is documented to compute depends |
| `CombinerReads.NeedsSpecularIff` | libs/libd3d8/se/combiner.cpp:1691-1935 | specular light is needed exactly when a stage in use, or for point sprites the last, has an argument its operations depend on that selects the specular colour |
| `DeviceGlobals.Globals.SetRenderState` | shared/include/d3d8.h:2031-2060 | the inline setter's whole effect on the shadow array, the dirty word and the push buffer, for simple and deferred states |
| `DeviceGlobals.Globals.SetRenderStateNotInline` | libs/libd3d8/se/state.cpp:1648-1697 | the out-of-line setter's effect; it shadows simple states on a pure device too |
| `DeviceGlobals.Globals.SetTextureStageState` | shared/include/d3d8.h:2116-2142 | the inline texture setter's effect for deferred states |
| `DeviceGlobals.Globals.SetTextureStageStateNotInline` | libs/libd3d8/se/state.cpp:2086-2150 | the out-of-line texture setter's effect, with its case for colour operations |
| `DeviceGlobals.Globals.GetRenderState` | shared/include/d3d8.h:1990-1995 | reads the shadow entry |
| `DeviceGlobals.Globals.SetState` | libs/libd3d8/se/lazy.cpp:1582-1614 | the eight conditional recomputations, one after the other, amount to recomputing every due group at once and clearing its flags |
| `DeviceGlobals.Globals.PrepareDraw` | libs/libd3d8/se/lazy.cpp:1630-1644 | a draw flushes only when a flag that the flush handles is up |
| `DeviceGlobals.ScanStages` | libs/libd3d8/se/combiner.cpp:1691-1935 | the loop over the stages, from the first or for point sprites the last, up to the first disabled one, finds whether an argument in use selects the specular colour |
| `DeviceGlobals.PartialIsFlush` | libs/libd3d8/se/lazy.cpp:1586-1609 | after the first n routines exactly the due groups among them are current, and the others are as before |
| `ShadowState.RenderHoldsLast` | shared/include/d3d8.h:2038-2050 | after any run every simple and deferred render state reads as it was last set |
| `ShadowState.TextureHoldsLast` | shared/include/d3d8.h:2124-2129 | after any run every texture stage state reads as it was last set |
| `ShadowState.RegistersHoldLast` | shared/include/d3d8.h:2039-2047 | after any draw-free run in the non-pure build, replaying the pushed commands leaves the register of every non-reserved simple state that was set at the value set last |
| `RenderCache.ShadowIsExactCache` | shared/include/d3d8.h:1990-2047 | the shadow of simple states is an exact cache of the registers, for any run of setters and any registers to start from |
| `RenderCache.ReservedStatesClash` | shared/include/d3d8.h:467-477 | two reserved states share a register, so of two different values only the one set last is cached |
| `RenderTables.SimpleEncodeInjective` | shared/include/d3d8.h:384-477 | outside the reserved entries no two simple states share a command word |
| `Registers.EntriesWriteRegisters` | libs/libd3d8/se/nv32.h:14429-16374 | each entry of the table is the header of the one-argument command that writes the register of that state, and the reserved entries are those of state 54 and of the states from 84 on |
| `StateBlock.SlotsAreOneToOne` | shared/include/d3d8.h:249-265 | the slot enum maps the legal pieces of state one-to-one onto [0, D3DSBD_MAX) |
| `StateBlock.SlotNumbers` | shared/include/d3d8.h:249-265 | where each kind of state starts in the array |
| `StateBlock.MarksWhatItSets` | shared/include/d3d8.h:267-333 | each marking macro's range holds exactly the slots of what its call sets, the biased constant ranges included |
| `StateBlock.MarkedNumbers` | shared/include/d3d8.h:267-333 | the slots that the macros without a count mark, by number |
| `StateBlock.RunMarks` | shared/include/d3d8.h:2375-2781 | after any run of wrappers a slot is set if and only if it was before or some call set its piece of state |
| `StateBlock.RecordingIsExact` | shared/include/d3d8.h:2375-2781 | from a clear array, a piece of state is marked if and only if some call of the run set it |
| `StateBlock.Recorder.BeginStateBlock` | libs/libd3d8/se/block.cpp:249-265 | recording starts from an all-clear array |
| `StateBlock.Recorder.Mark` | shared/include/d3d8.h:267-333 | one wrapper's writes to the byte array, single bytes and memset ranges, with nothing else touched |
| `PushBuffer.EncodeDecode` | shared/include/d3d8types.h:2708-2720 | decoding a list of encoded commands (incrementing or not, up to the maximum count) in front of any words gives the list back, followed by what the words decode to |
| `PushBuffer.DecodeEncode` | shared/include/d3d8types.h:2708-2720 | every word list that decodes is the encoding of what it decodes to |
| `PushBuffer.DecodeAppend` | shared/include/d3d8types.h:2708-2720 | whole commands appended to whole commands decode to both |
| `PushBuffer.HeaderFields` | shared/include/d3d8types.h:2708-2720 | the method in the low bits, the count in those from 18 on, and the bit for a fixed target, for up to 2047 arguments |
| `Pusher.Pusher.BeginState` | shared/include/d3d8.h:2168-2186 | a reservation of any count up to half the memory returns the put pointer with that many words free before the word kept for a jump, and adds at most a fence to the stream |
| `Pusher.Pusher.EndState` | shared/include/d3d8.h:2188-2196 | the words up to the given pointer join the stream |
| `Pusher.Pusher.StartPush` | libs/libd3d8/se/pusher.cpp:1055-1113 | big reservations succeed; the assertion at the end of the source's routine always holds |
| `Pusher.Pusher.MakeRequestedSpace` | libs/libd3d8/se/pusher.cpp:771-1031 | at least the minimum is made available, less the fence; it wraps exactly when the minimum does not fit behind the put pointer, and then the end of the old lap holds a jump to the base |
| `Pusher.Pusher.MakeSpace` | libs/libd3d8/se/pusher.cpp:1039-1049 | after it the whole threshold is available again |
| `Pusher.Pusher.SetFence` | libs/libd3d8/se/pusher.cpp:205-285 | a fence is eight words, appended to the stream |
| `Pusher.Pusher.Push` | shared/include/d3d8.h:2165-2196 | a command pushed through BeginState and EndState keeps the stream a list of whole commands and adds only itself, behind a fence at most |
| `Pusher.Pusher.PushSimple` | libs/libd3d8/se/state.cpp:1594-1623 | the same for the retry loop of the simple-state push, which ends after one turn at most |
| `Pusher.FenceDecodes` | libs/libd3d8/se/pusher.cpp:219-259 | the eight words of a fence are four whole commands |
| `Pusher.SimpleEntriesAreHeaders` | shared/include/d3d8.h:384-477 | every entry of the simple-state table is the header of a command with one argument |
| `VertexDeclaration.PrintParse` | shared/include/d3d8types.h:1104-1169 | printing any well-formed tokens with the macros, with NOPs anywhere between them and anything behind the end token, parses back to the tokens, whatever the payload words are |
| `VertexDeclaration.ParsePrint` | shared/include/d3d8types.h:912-983 | whatever parses by the documented fields is a printed declaration with NOPs and trailing words: parsing accepts and loses nothing else |
| `VertexDeclaration.TokenReads` | shared/include/d3d8types.h:1061-1169 | the head word of each macro reads back field by field and says how many words follow |
| `VertexDeclaration.FieldsLie` | shared/include/d3d8types.h:1061-1100 | the macros put their fields at the documented bits |
| `VertexDeclaration.TokenWrites` | shared/include/d3d8types.h:919-983 | a head word that reads as a token is what the macro makes of the token |
| `ConstantLoads.ConstantsPlacedIff` | libs/libd3d8/se/vshader.cpp:1322-1387 | for any loads, empty ones included: executing the emitted commands stores the declared constants in the declared registers if and only if no load that is not given the pointer anew, and is not empty, finds the pointer away from its address; computed from the declaration alone |
| `ConstantLoads.OverlookedLoads` | libs/libd3d8/se/vshader.cpp:1322-1342 | that is so if no load is placed one register behind the start of a load before it that was not of one vector; and, when no load is empty, only then |
| `ConstantLoads.OverlookedExample` | libs/libd3d8/se/vshader.cpp:1345-1385 | two vectors for register 0 and then one for register 1 end in registers 0, 1 and 2 |
| `ConstantLoads.BatchesExecute` | libs/libd3d8/se/vshader.cpp:1361-1385 | on a machine that stores words by their methods, and only at the thirty-two that take constants, a load split into batches stores its vectors in consecutive registers |
| `ConstantLoads.EmittedInPlace` | libs/libd3d8/se/vshader.cpp:1358-1385 | no word emitted for any loads leaves the load pointer and the thirty-two methods |
| `ConstantLoads.BatchCount` | libs/libd3d8/se/vshader.cpp:1363-1385 | one batch for every eight vectors or part of them, and one for none |
| `ConstantLoads.ScanFindsLoads` | libs/libd3d8/se/vshader.cpp:1291-1314 | on any declaration whose extension tokens carry no constant-type word and no end word, the token-by-token scan ends and finds exactly its constant loads |
| `ConstantLoads.ExtensionExample` | libs/libd3d8/se/vshader.cpp:1291-1314 | an extension token whose extra word is the end word hides the constant load behind it from the scan |
| `ConstantLoads.ParseDeclarationConstants` | libs/libd3d8/se/vshader.cpp:1282-1387 | the size returned, with or without a buffer, is that of the commands for the scanned loads, and a buffer of that size holds exactly those |
| `ConstantLoads.DeclarationLoads` | libs/libd3d8/se/vshader.cpp:1282-1387 | what is emitted for such a declaration decodes as whole commands whose words keep to the load pointer and the constant methods, and which store what the declaration asks for if and only if its loads are aligned |
| `Archive.WalkProgresses` | tools/isa-scan.py:96-114 | if no size field on the way is minus sixty or less the walk ends, and is what reading the unread part member by member gives |
| `Archive.StalledWalkNeverEnds` | tools/isa-scan.py:95-103 | a member of size -60 or -61 whose name does not raise is met again and again, so that the walk never ends |
| `ArchiveBackward.GoesBackAndEnds` | tools/isa-scan.py:95-103 | an archive of one header with size -62 is walked backwards over its own magic: two members are yielded and the walk ends at a bad size field |
| `Archive.Walker.Next` | tools/isa-scan.py:88-114 | each resumption of the generator yields the next member, ends, or raises, as the walk of the rest says, for every archive whose walk ends, backwards moves included |
| `Archive.Walker.Dispatch` | tools/isa-scan.py:103-114 | past the header, index members are dropped, the long-name table is taken over, and other members are named and yielded |
| `ArchiveWriter.ArchiveRoundTrip` | tools/isa-scan.py:88-114 | writing any members with GNU short or table names, decimal sizes and padding, behind any symbol indexes of the four names, and walking the result gives the members' names and bodies in order |
| `ArchiveWriter.LongNameReads` | tools/isa-scan.py:108-113 | a reference into the long-name table resolves to the name entered there |
| `ArchiveWriter.NulNameReads` | tools/isa-scan.py:110-112 | in a table without newlines a name goes up to the next NUL |
| `ArchiveWriter.LastNameReads` | tools/isa-scan.py:110-112 | without a NUL behind it either, up to the end of the table |
| `ArchiveWriter.NoTableNoReference` | tools/isa-scan.py:108-108 | without a table a slash and digits are a name |
| `ArchiveWriter.SuperscriptRaises` | tools/isa-scan.py:108-109 | a superscript digit behind the slash passes isdigit and raises in int() |
| `ArchiveWriter.SkipsIff` | tools/isa-scan.py:104-107 | a member is skipped exactly if its name is that of the long-name table or one of the four of symbol indexes, and only the table's body is kept |
| `ArchiveWriter.BlankSizeReads` | tools/isa-scan.py:99-99 | a blank size field is zero |
| `Latin1.DecimalRoundTrip` | tools/isa-scan.py:99-99 | int() of a padded decimal field is the number written |
| `Latin1.DigitTextIsNatural` | tools/isa-scan.py:108-109 | when isdigit holds, int() is not negative, if it does not raise on a superscript digit |
| `Latin1.SliceFromEnd` | tools/isa-scan.py:96-102 | slices with positions before the start count from the end, or start at the start |
| `Latin1.BlanksStrip` | tools/isa-scan.py:97-99 | blanks of every Latin-1 kind are stripped |
| `Latin1.SignsRead` | tools/isa-scan.py:99-99 | int() reads a sign in front of a numeral |
| `Latin1.UnderscoresRead` | tools/isa-scan.py:99-99 | int() passes over single underscores between digits and rejects double ones |
| `Coff.CodeSections` | tools/isa-scan.py:68-85 | the loop that stops at the first header outside the file finds all usable executable sections, in order |
| `Coff.NothingPastTheEnd` | tools/isa-scan.py:78-79 | behind the first section header that does not fit there is none that does |
| `Coff.ReportedIff` | tools/isa-scan.py:77-85 | a section is reported if and only if some entry within the declared count is a whole, executable one with its bytes in the file |
| `Coff.NoRawData` | tools/isa-scan.py:84-84 | a section without raw data is none |
| `CoffWriter.ObjectRoundTrip` | tools/isa-scan.py:68-85 | walking an object written with any sections, header fields and optional header gives the names, addresses and code of those sections that hold code or may be executed and have bytes, in order |
| `CoffWriter.FlagsRead` | tools/isa-scan.py:83-83 | the two tests find the two flags of a characteristics word, whatever its other bits are |
| `CoffWriter.EveryWordIsAKind` | tools/isa-scan.py:82-83 | every characteristics word is one of those that the round trip is about |
| `Sweep.ScanBytes` | tools/isa-scan.py:117-135 | the nested resuming sweep records exactly what the one-step sweep "decode and advance by the size, else by one" finds, up to the limit |
| `Sweep.Disassemble` | tools/isa-scan.py:123-133 | the inner loop stalls where nothing decodes or at the end, or stops because the list is full, with the record so far exact |
| `Sweep.RecordTakes` | tools/isa-scan.py:131-133 | below the limit, recording keeps as many hits as there is room for, and no others |
| `Sweep.EachByteOnce` | tools/isa-scan.py:117-135 | every byte is covered by exactly one decoded instruction or one skipped byte, and none outside the code is |
| `Sweep.HitsAreTileHits` | tools/isa-scan.py:123-131 | the hits are those of the decoded stretches, in order |
| `Sweep.HitsIff` | tools/isa-scan.py:117-135 | code gives no hit exactly when none of its stretches decodes to a reported instruction |
| `IsaScan.ScanObject` | tools/isa-scan.py:138-144 | an object is swept section by section until the limit |
| `IsaScan.ScanFile` | tools/isa-scan.py:147-157 | an archive's i386 members, or an object, are scanned until the limit; an exception is passed on |
| `IsaScan.Verdict` | tools/isa-scan.py:170-206 | the exit status and the hits listed, over all files, dropping what raised |
| `IsaVerdict.FileTakes` | tools/isa-scan.py:147-157 | for a positive limit a file's result is the first `max` of its unlimited hits, and it fails if and only if its exception comes before the limit is reached |
| `IsaVerdict.StatusIff` | tools/isa-scan.py:183-206 | for a positive limit the status is 2 exactly without inputs, and 1 exactly when some file has a hit and either does not raise or reaches the limit first |
| `IsaVerdict.LimitNeverMattersIff` | tools/isa-scan.py:170-206 | the status is the same under all positive limits if and only if a file that does not raise has a hit, or no file has one |
| `IsaVerdict.ListsFirstHits` | tools/isa-scan.py:183-202 | when nothing raises, the violations listed are the first `max` over all files |
| `IsaVerdict.FirstFileOnly` | tools/isa-scan.py:131-193 | under a limit below one at most one hit is collected over all files: the first of the first section of the first file that does not fail at once |
| `IsaVerdict.StatusBelowOne` | tools/isa-scan.py:131-193 | under a limit below one the status is 1 exactly when the first file that does not fail at once has a hit in its first section, or in that of its first member if that is an i386 object |
| `IsaVerdict.LimitBelowOneOnlyHides` | tools/isa-scan.py:131-193 | a limit below one never fails what a limit of one passes |
| `IsaVerdict.LaterSectionsHidden` | tools/isa-scan.py:142-144 | within one object a clean first section hides every hit behind it under a limit below one, and under no positive limit |
| `IsaGate.GateIsExact` | tools/isa-scan.py:68-206 | for a library written as an archive of objects for any machines and a positive limit, the scan does not raise, its result is the first `max` hits of the executable sections of the i386 objects, and the status is 1 if and only if one of them has a hit |
| `IsaGate.GateEnforcesPolicy` | tools/isa-scan.py:117-206 | with the policy tables: the status for a written library is 1 if and only if an executable section of one of its i386 objects has a stretch of the one-step sweep that decodes to an instruction that is not backward compatible and is on the mnemonic list or in a disallowed group |
| `IsaGate.ObjectGate` | tools/isa-scan.py:155-156 | the same for an object by itself, of any machine |
| `IsaGate.HitsLieInside` | tools/isa-scan.py:126-143 | every hit names the library, an i386 object of it and one of that object's executable sections, and its address lies within that section's code |
| `IsaPolicy.BaselineIsAllowed` | tools/isa-scan.py:37-66 | instructions with baseline groups only are allowed, those of SSE2 and population counts are not, and the three that run everywhere are, whatever their groups |
| `WideString.Itow` | dist-include/xdk_compat.h:270-333 | the buffer holds the text and a NUL, and no other cell is written |
| `WideString.WriteDigits` | dist-include/xdk_compat.h:278-282 | the do-while loop leaves the digits backwards |
| `WideString.ReverseCells` | dist-include/xdk_compat.h:284-288 | the swapping loop reverses exactly the cells between its ends |
| `WideString.MagnitudeOf` | dist-include/xdk_compat.h:275-275 | wrapping negation gives the magnitude, for the most negative value too |
| `WideString.FormatParse` | dist-include/xdk_compat.h:270-333 | for every radix from 2 to 36 and every value, reading the buffer back gives the value in radix ten and its unsigned reinterpretation otherwise |
| `WideString.WtolInverse` | dist-include/xdk_compat.h:306-311 | _wtol of the radix-ten text is the value fitted into a long, and the value itself exactly when a long holds it |
| `WideString.TextIsCanonical` | dist-include/xdk_compat.h:275-288 | the digit count k has radix^(k-1) <= magnitude < radix^k, k = 1 for zero, with no leading zero |
| `WideString.TextIsLowerCase` | dist-include/xdk_compat.h:270-333 | only digits and lower-case letters are written, behind a minus sign at most |
| `WideString.BufferBound` | dist-include/xdk_compat.h:270-333 | one cell a bit and one for the NUL are enough |
| `WideString.FormattersAgreeIff` | dist-include/xdk_compat.h:270-333 | _itow and _i64tow write the same text for an int exactly when it is not negative or the radix is ten |
| `PerfRing.Counters.Start` | shared/include/d3d8perf.h:745-770 | a start keeps the block for the same size or zero, replaces it otherwise, and counts nothing when there is no memory; every replaced block is freed once and none leaks |
| `PerfRing.Counters.InsertHeader` | shared/include/d3d8perf.h:797-817 | an uninterrupted insert adds its header to the ring and changes nothing else; it writes behind the block only when the block's byte count wrapped, and exactly when its slot is past the room there is |
| `PerfRing.CapacityIff` | shared/include/d3d8perf.h:761-766 | a block has room for the events asked for exactly when the 32-bit byte count does not wrap |
| `PerfRing.HeaderText` | shared/include/d3d8perf.h:813-814 | a header is kept up to 29 characters and always ends in a NUL |
| `PerfRing.RingHoldsLatest` | shared/include/d3d8perf.h:805-814 | the ring holds the last min(k, N) headers, each at its ticket's slot, as long as the counter does not wrap or N divides 2^32 |
| `PerfRing.RingUntouched` | shared/include/d3d8perf.h:805-814 | a slot that no ticket has reached is as it was |
| `PerfRing.LatestIsLatest` | shared/include/d3d8perf.h:805-808 | every slot that a ticket has reached belongs to one of the last N tickets |
| `PerfRing.SlotsFollowTicketsIff` | shared/include/d3d8perf.h:805-808 | slots follow tickets forever if and only if the ring size divides 2^32 |
| `PerfRingThreads.RunIsSafe` | shared/include/d3d8perf.h:745-817 | in every interleaving of inserts, with restarts made when idle, tickets differ, every write lands in the current block, and nothing is divided by zero |
| `PerfRingThreads.SlotsAreOwned` | shared/include/d3d8perf.h:805-808 | two unfinished inserts whose tickets differ by less than the ring size own different slots |
| `PerfRingThreads.RestartUnderWayStrays` | shared/include/d3d8perf.h:747-749 | a restart that replaces the block under a located insert makes its write go to freed memory |
| `PerfRingThreads.SameSizeKeepsBlock` | shared/include/d3d8perf.h:753-761 | a restart with the same size keeps the block, and a located insert's write lands |
| `PerfRingThreads.StopUnderWayTraps` | shared/include/d3d8perf.h:804-806 | a start with count zero between an insert's ticket and its slot makes the insert divide by zero |
| `PerfRingThreads.InterleavingIsSequentialIff` | shared/include/d3d8perf.h:797-817 | in every interleaving, the ring is at every moment what its finished inserts leave in the order of their tickets if and only if no write finds a newer ticket of its slot already written with another header |
| `PerfRingThreads.InterleavingIsSequential` | shared/include/d3d8perf.h:797-817 | under that guard, once all inserts are finished the ring is what inserting the headers one by one in ticket order leaves |
| `PerfRingThreads.UnguardedDiffers` | shared/include/d3d8perf.h:805-814 | if the last write to finish is not guarded, the ring is not that |
| `PerfRingThreads.RecentIsGuarded` | shared/include/d3d8perf.h:805-808 | an insert that is not a whole ring behind the newest ticket is guarded, as long as slots follow tickets |
| `PerfRingThreads.OvertakenInsert` | shared/include/d3d8perf.h:805-814 | in a ring of one slot an overtaken insert leaves the older header |
| `HashAdapters.EqualIsEquivalence` | dist-include/rxdk_xhash.h:75-94 | for any strict weak ordering equal_of is an equivalence that the ordering respects |
| `HashAdapters.TotalOrderingSuffices` | dist-include/rxdk_xhash.h:12-22 | under a total ordering equal keys are identical, so any hash agrees |
| `HashAdapters.RunsAgree` | dist-include/rxdk_xhash.h:75-107 | if equal keys hash alike, a bucketed set answers every run of inserts, erasures, lookups and rehashes like an ordered set |
| `HashAdapters.AgreeIff` | dist-include/rxdk_xhash.h:12-22 | they agree on every run and every 32-bit bucket count if and only if equal keys hash alike |
| `HashAdapters.DifferentHashesLose` | dist-include/rxdk_xhash.h:82-84 | an equal key that hashes differently is not found, for a bucket count that is given |
| `NewHandler.Program.Allocate` | libs/libcpp/operator_new_delete.cpp:29-46 | the loop does what the recursive protocol says, with the same events, result and state; every attempt is for the size asked for, or one byte for zero, and a block answers such an attempt |
| `NewHandler.RunFollowsProtocol` | libs/libcpp/operator_new_delete.cpp:29-46 | every run alternates failed attempts for max(size, 1) bytes with single handler calls, and ends in a block right after a success, or in failure right after a failed attempt with no handler; the rank bounds the number of calls |
| `NewHandler.NothrowIgnoresHandler` | libs/libcpp/operator_new_delete.cpp:64-65 | the nothrow form gives the block of the first attempt, for the size asked for or one byte, and never calls a handler |
| `TileTags.EndTagIsLeast` | shared/include/d3d8types.h:2136-2148 | the end tag is the least multiple of 256 at or above start + size / 64 |
| `TileTags.EndTagReachesIff` | shared/include/d3d8types.h:2148-2148 | it reaches the last tag needed exactly when the 32-bit sum does not wrap |
| `TileTags.WasteIff` | shared/include/d3d8types.h:2136-2148 | from an aligned start tags are wasted exactly when the tile's own do not fill their last group of 256 |
| `TileTags.AlignedTileWastesNone` | libs/libd3d8/se/d3dbase.cpp:3678-3681 | tiles of the 16K granularity that the driver asks for waste none |
| `TileTags.LayoutIsDisjoint` | shared/include/d3d8types.h:2141-2148 | tiles laid out each from the end tag before share no tag |
| `TileTags.LayoutWaste` | shared/include/d3d8types.h:2141-2148 | every tile starts aligned and at most 255 tags a tile are wasted in all |
| `TileTags.OverlapsIff` | libs/libd3d8/se/d3dbase.cpp:3728-3731 | the driver's overlap test is exact on the tiles it admits |
| `TileTags.LastPlace` | libs/libd3d8/se/d3dbase.cpp:3708-3715 | of the aligned places those up to tag 76544 may be taken |
| `TileTags.TileTable.SetTile` | libs/libd3d8/se/d3dbase.cpp:3615-3740 | the tile is stored or cleared whatever the checks say, without tags if it is not depth-compressed; the debug build is quiet exactly when its checks pass, and the retail build always |
| `TileTags.StoreKeepsDisjoint` | libs/libd3d8/se/d3dbase.cpp:3724-3740 | storing an admissible tile keeps the tags of the tiles disjoint if and only if it overlaps no tile in another slot |
| `TileTags.ClearedSlotTakes` | libs/libd3d8/se/d3dbase.cpp:3637-3646 | clearing a slot frees its tags, and what is then set there passes exactly if it is admissible and overlaps no tile in another slot |
| `TileTags.StoredAsGiven` | libs/libd3d8/se/d3dbase.cpp:3648-3654 | a tile is kept as given, but without tags if it is not depth-compressed |
| `TileTags.DisjointIffChecksPass` | libs/libd3d8/se/d3dbase.cpp:3615-3740 | over any run of calls that set admissible tiles into cleared slots or clear slots, no tag ever belongs to two tiles if and only if the debug build reports nothing |
| `TileTags.SameTagsTwice` | libs/libd3d8/se/d3dbase.cpp:3724-3740 | the same tags set in two slots are reported and stored all the same, so that two tiles share them |
| `TileTags.SetAgain` | libs/libd3d8/se/d3dbase.cpp:3656-3659 | setting a tile again without clearing its slot is reported although no tag is shared |

## Left out

- Complex render states and the texture states with immediate processing (TEXCOORDINDEX, border colour, colour key, bump environment): their handlers write registers at once and have no deferred part.
- LazyEager.LazyEqualsEager: textures, shaders, the constant mode, transforms, the viewport and lights are held fixed; the theorem is about the state that the two setters change. An entry that reaches the hardware only through a test on another one is recorded all the same: anisotropy without an anisotropic filter, point scale factors without scaling, fog parameters without fog, material sources without vertex colours, and arguments that an operation does not use.
- FlushReads.MarkedTextureStateShows: it is about what is recorded, those entries included.
- LazyEager.LazyEqualsEager: it starts from a coherent device with SetModelView's direct mode off, since that flag makes the flush skip the transform on purpose.
- RenderCache.ShadowIsExactCache: it is about runs without draws, because drawing lets the combiner routine write pixel-shader registers directly.
- DeviceGlobals.Globals.SetTextureStageState: the branches for states past the deferred ones are not modelled.
- Vertex-format flags and what SetStateVB and SetStateUP do with them: they depend on vertex buffers.
- StateBlock.RunMarks: calls that change recordable state without marking it (MultiplyTransform, SelectVertexShader, SelectVertexShaderDirect, ApplyStateBlock) count as setting nothing, as they do in the source; palettes have no slot, and lights are recorded in their own structures.
- StateBlock.RecordingIsExact: the same holds of it.
- StateBlock.Recorder.BeginStateBlock: clearing the recording flags that lights keep in their own structures is left out.
- Building and applying state blocks from the recorded slots (RecordStateBlock, ApplyStateBlock).
- Pusher.Pusher.MakeRequestedSpace: the GPU's read position, the wait for it, kick-off, segment bookkeeping and push-buffer recording are not modelled; the clock and the progress stamp of a fence are parameters.
- Pusher.Pusher.SetFence: it is modelled where MakeRequestedSpace calls it, with room at hand; the table of fences and the kick-off behind it are left out.
- VertexDeclaration.Parse: it does not enforce that stream data follows a stream selector; neither does the driver. Load tokens take the five register bits of the mask, where the written grammar gives four.
- ConstantLoads.ScanFindsLoads: extension tokens with a constant-type word or an end word among their extra words are excluded, because the scan takes those words for tokens, against the written grammar; ConstantLoads.ExtensionExample shows one. ParseDeclarationStream, which the driver runs first, reports every extension token as unidentified in the debug build.
- ConstantLoads.DeclarationLoads: the same declarations are excluded.
- The stream part of a declaration (slots, offsets, tessellator slots) and its reconstruction by GetVertexShaderDeclaration.
- IsaScan.Verdict: like the other scan methods it is stated for archives whose walk ends, since for any other the scan returns only if the hit limit stops it before the walk goes round; Archive.WalkProgresses and Archive.StalledWalkNeverEnds say which sizes decide, and for sizes below -61 the walk itself is the criterion.
- Capstone is any decoder that depends on the code, base and position alone; group numbers are given by their short names, and the joining and sorting of them for output is left out.
- Collecting and sorting input files, argument parsing, labels as text, and printing in the scanner.
- WideString.Itow: radices outside 2 to 36, for which the C interface is undefined.
- PerfRing.Counters.Start: the record mask it returns and the spew-frame defaults; the union of header text with the timing fields of other event types.
- PerfRingThreads.RunIsSafe: a block is taken to have the room that was asked for; PerfRing.CapacityIff says when it has.
- PerfRingThreads.InterleavingIsSequential: a header is written in one step, so that two inserts writing into one slot at the same time do not mix their characters.
- PerfRing.Counters.InsertHeader: what a write behind the block destroys is not followed.
- HashAdapters.AgreeIff: iteration order and growth policy, of which the header promises nothing; duplicates of hash_multiset.
- NewHandler.Program.Allocate: malloc and the handler are functions of a state; a handler that neither progresses nor leaves makes the loop endless, and is excluded by the rank.
- TileTags.TileTable.SetTile: the flags, pitch, memory and offset checks, which say nothing of tags; an index of eight or more, for which the source writes outside its table.
- The floating-point character conversions, the printf-family wrappers, math and mesh headers, forwarding thunks, port I/O, calling conventions and structure packing.
