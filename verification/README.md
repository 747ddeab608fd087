# Verified models of the CD-i runtime's native fast paths

The runtime recompiles a Philips CD-i player's 68000 software and replaces the hot parts by
native code: a cache that binds compiled modules to guest RAM, native jobs that stand in for
firmware loops, a raster capture with shared rows, batched timers, an incremental RAM hash, a
real-time clock, and a disc parser. Each fast path must be indistinguishable from a slow and
simple form of itself. This project models both forms in Dafny and proves that they agree.

`dafny verify dfyconfig.toml` checks everything. One module per file:

| modules | what they cover |
|---|---|
| `Guest`, `Bits`, `Words`, `WordNumbers`, `Counting` | bytes, options and the two RAM banks; the bits of a number; 32-bit words as sets of bit positions, and as numbers; counting distinct numbers |
| `NativeSpec`, `SyncTags`, `NativeCache`, `CoverageLedger` | the module binding cache: an abstract history of writes, resolutions and resets, and the imperative cache that refines it |
| `Crc24`, `LoaderMath`, `LoaderCrc`, `LoaderJob` | the OS-9 module CRC, the loader's closed-form word fold, its equality with the bit-serial CRC, and the job that runs it |
| `Cpu68k`, `MemoryJob`, `RectangleFill` | the 68000 programming model and an interpreter for the 48 firmware bytes of the rectangle fill, the native job, and what a completed fill has done |
| `DrawingJob`, `DrawingQueue`, `DrawingFrame` | the deferred drawing queue run in whole segments, against the routine run one operation at a time; what a round of that routine does to the queue in RAM; what it gives back to its caller |
| `RasterSpans`, `RasterOwnership` | span lists and the pixels they stand for; reference counts of rows and frames |
| `Timer`, `Calendar`, `PhantomClock`, `ClockSession` | batch timer advance; the calendar; the clock chip's key, registers and device; whole conversations with it, with time passing in between |
| `CosimHash`, `CosimCache` | the dirty-page hash of both co-simulation sides |
| `DiscWalk`, `DiscTree` | the directory walk over arbitrary disc metadata; the directory tree spelled out on the bytes, and that the walk lists it |

Conventions. State the source updates in place is a class with `Valid()`; its methods are proved
against functions on values, and the properties are lemmas about those functions. Interrupts,
debugger stops and vertical-blank hooks are parameters: a function from the operation number to
what happens there. SHA-256 is an arbitrary function from bytes to bytes. Guest writes are
notified inside one bank, as runner/src/cdi_bus.c:141-147 and runner/src/cdi_bus.c:164-171 do.

Some properties one might expect do not hold on every input. Each is stated with the exact
condition under which it does, and with an input on which it fails:

* An overlay band that ends before it begins (`first > last`) can leave a row overlapping itself
  (`RasterSpans.OverlayOrderedIff`, `RasterSpans.InvertedBandExample`). The only call in the
  repository (runner/src/mcd212_video.c:694) passes `first_x` and `first_x+scale`, so such a band
  can only come through the public interface.
* An overlay of a row wider than 768 pixels, which `cdi_raster_begin` accepts, can lose spans: it
  recolours the row if and only if the pieces the band cuts, all but the last, come to fewer than
  768 spans once continuations are merged (`RasterSpans.OverlayShowsIff`,
  `RasterSpans.WideRowExample`); where nothing merges, that is at most 768 pieces
  (`RasterSpans.RoomyUnmerged`). Rows of up to 768 pixels never lose anything
  (`RasterSpans.OverlayShows`).
* The native and the oracle side mark the same pages for a write if and only if no byte of it falls
  into a bank it did not start in (`CosimHash.MarksAgreeIff`, `CosimHash.StraddleExample`). Writes
  of one or two bytes that start in RAM never do (`CosimHash.GuestWriteIsOneBank`).
* A fresh execution token passes its own test if and only if the binding's epoch is below 2^48
  (`NativeSpec.FreshTokenPasses`, `NativeSpec.EpochExample`), because the epoch is shifted left by 16
  in 64 bits.
* The rectangle fill obeys only the low word of its width and its height, and takes zero there for
  65536. The rectangle filled is the one asked for if and only if both counts are 1 to 65536
  (`RectangleFill.AskedIff`, with `WidthIff` and `HeightIff` for each alone). A width of zero and a
  width of 0x10001 are worked out in `RectangleFill.ZeroWidth` and `RectangleFill.WideWidth`.
* Writing the 64-bit key opens a clock transfer with its last bit if and only if the bits written
  before do not already end in its first 32, 60 or 62 (`ClockSession.KeyOpensIff`,
  `PhantomClock.HalfKeyPrimes`); otherwise it opens early and the rest of the key is taken for data.
* Reading the clock is not free: the 64th read of a transfer sets it back to the time last latched,
  by the key or by a seeding since. It conserves time if and only if, at that read, there is no phase
  towards the next hundredth, no hundredth has passed since that latch, and the year latched is at
  most 2069 (`ClockSession.ReadCosts`). One
  input for each way to lose: `ClockSession.PhaseLost`, `ClockSession.HundredthLost`,
  `ClockSession.CenturyLost`; the last is also the first year whose registers do not commit back to
  it (`PhantomClock.LatchCommit`).

## Model

| member | source | states |
|---|---|---|
| NativeSpec.WriteSound | runner/src/cdi_native.c:100-113 | after any write with its revocations, every remaining claim of the cache about RAM is still true |
| NativeSpec.RevokeCount | runner/src/cdi_native.c:106-113 | revoking never adds valid bindings, and if their number stays, every valid binding is untouched |
| NativeSpec.RecheckedSound | runner/src/cdi_native.c:130-175 | a resolution that writes only true claims, each at a base of its own, leaves a sound cache sound |
| NativeSpec.RunSound | runner/src/cdi_native.c:84-175 | every state of every run of writes, resolutions and resets makes only true claims about RAM; that a resolution writes only true claims is what `NativeCache.Cache.Resolve` proves |
| NativeSpec.TokenSafety | runner/src/cdi_native.c:219-225 | a token that still passes, any time after issue and across resets and slot reuse: no write overlapped the module since, RAM holds the same bytes, and they are the compiled module's image |
| NativeSpec.TokenStable | runner/src/cdi_drawing_jobs.c:161-166 | while the invalidation epoch stands still a passing token goes on passing, so a job may skip the test |
| NativeSpec.TokenCovers | runner/src/cdi_native.c:219-225 | a token that passes at one address passes at another exactly when that is even and inside the same binding |
| NativeSpec.TokenStableThroughout | runner/src/cdi_drawing_jobs.c:161-166 | while the invalidation epoch stands still, a token that passed at one address passes at every even address of the binding, so a job may move through its module |
| NativeSpec.FreshTokenPasses | runner/src/cdi_native.c:211-225 | a token passes at its issue if and only if its epoch is below 2^48 |
| NativeSpec.EpochExample | runner/src/cdi_native.c:211-225 | a fresh token of epoch 2^48 - 1 passes and one of epoch 2^48 does not |
| NativeSpec.TokenParts | runner/src/cdi_native.c:214-222 | slot and epoch can be read back from a token, the epoch modulo 2^48 |
| NativeSpec.ParityMeans | runner/src/cdi_native.c:149-151 | a header passes the parity test if and only if each of the 16 bit positions is set in an odd number of its 24 halfwords, counted on the bytes |
| NativeSpec.SpelledIs | runner/src/cdi_native.c:136-170 | an image lies over an address if and only if the bytes of RAM spell it: sync word, own length, odd columns in the header, and a compiled module's digest |
| NativeSpec.FindableIs | runner/src/cdi_native.c:130-175 | an uncached scan finds an image if and only if the bytes of RAM spell one |
| Guest.InRamMeans | runner/src/cdi_native.c:72-77 | a span is in RAM if and only if all its bytes are in the first half megabyte or all in the half megabyte at 0x200000 |
| SyncTags.WordAddress | runner/src/cdi_native.c:81-83 | every index below the capacity is the index of exactly one even RAM word |
| SyncTags.Room | runner/src/cdi_native.c:118-119 | the tag array cannot overflow: a word not yet listed leaves room for it |
| SyncTags.Added | runner/src/cdi_native.c:118-119 | appending an unlisted word keeps array and index inverse to each other |
| SyncTags.Removed | runner/src/cdi_native.c:120-123 | swap-remove keeps them inverse and forgets exactly the removed word, also when it is the last |
| SyncTags.TagSet.Update | runner/src/cdi_native.c:115-123 | afterwards the word is listed if and only if it holds 0x4AFC, and no other word's listing changed |
| SyncTags.TagSet.Notify | runner/src/cdi_native.c:114-124 | after a write of any size and parity, touched words are listed if and only if they hold the sync word, others as before |
| SyncTags.TagSet.Clear | runner/src/cdi_native.c:86 | the set is empty and still well formed |
| CoverageLedger.EmptySlot | runner/src/cdi_native.c:56-64 | the index always has an empty slot, so probing ends |
| CoverageLedger.Absent | runner/src/cdi_native.c:246-251 | a probe that meets an empty slot before the key proves the key is not stored |
| CoverageLedger.Inserted | runner/src/cdi_native.c:253-255 | a key stored at the first empty slot of its probe sequence keeps every key reachable and stored once |
| CoverageLedger.HitCounts | runner/src/cdi_native.c:249 | counting a hit raises the total by one |
| CoverageLedger.HitIsRecorded | runner/src/cdi_native.c:249 | a repeated key keeps its first provenance and gains one hit |
| CoverageLedger.Ledger.Search | runner/src/cdi_native.c:244-251 | finds the stored record of a key, or an empty slot and the certainty that there is none |
| CoverageLedger.Ledger.Record | runner/src/cdi_native.c:244-256 | a known key gains a hit, a new one is appended with its first provenance, only a full ledger drops; hits plus drops equal the calls |
| CoverageLedger.Ledger.Page | runner/src/cdi_native.c:257-263 | a page is exactly the slice of the dense records asked for |
| CoverageLedger.Ledger.Reset | runner/src/cdi_native.c:94-95 | no record, no drop, and the index is empty |
| NativeCache.FilterMiss | runner/src/cdi_native.c:33-50 | when the per-bank range filter says no, the unfiltered scan would have revoked nothing |
| NativeCache.RecheckedTrans | runner/src/cdi_native.c:130-175 | several cache fills in one resolution are together one step of the abstract history |
| NativeCache.ImageHeader | runner/src/cdi_native.c:136-151 | whatever is an image has a sync word, its size, its parity and a known length in its own header, so the cheap tests reject nothing real |
| NativeCache.IdentityDecides | runner/src/cdi_native.c:162-170 | for a well-formed candidate the digest decides whether any image starts there |
| NativeCache.Cache.Reset | runner/src/cdi_native.c:84-99 | the cache half of a reset is a step of the abstract history: RAM kept, bindings gone, tags found again, epoch still unique |
| NativeCache.ResetAll | runner/src/cdi_native.c:84-99 | cache and coverage ledger start over together on the RAM as it is |
| NativeCache.Cache.Store | runner/src/cdi_bus.c:137-147 | a store with its notification is one write step of the abstract history |
| NativeCache.Cache.RevokeBindings | runner/src/cdi_native.c:103-113 | filtered or not, exactly the overlapping bindings are revoked, and `active` and the invalidation counters follow |
| NativeCache.Cache.RevokeScan | runner/src/cdi_native.c:106-113 | the loop revokes every overlapping binding and keeps `active` the number of valid ones |
| NativeCache.Cache.NotifyWrite | runner/src/cdi_native.c:100-125 | bindings and tags after any notification, including those it ignores |
| NativeCache.Cache.FindValid | runner/src/cdi_native.c:131-134 | a valid binding over the address, or none exists |
| NativeCache.Cache.Cached | runner/src/cdi_native.c:126-129 | the binding at a base, or none exists |
| NativeCache.Cache.SizeKnown | runner/src/cdi_native.c:145-148 | true if and only if some compiled module has the size |
| NativeCache.Cache.FindModule | runner/src/cdi_native.c:162-170 | finds a module if and only if one has this size and digest |
| NativeCache.Cache.HeaderParity | runner/src/cdi_native.c:149-151 | 0xFFFF if and only if each of the 16 bit positions is set in an odd number of the 24 header halfwords |
| NativeCache.Cache.HeaderTest | runner/src/cdi_native.c:137-142 | a tag that fails has no image over the address |
| NativeCache.Cache.ImageTest | runner/src/cdi_native.c:145-151 | a candidate that passes is well formed; one that fails has no image |
| NativeCache.Cache.RejectedTag | runner/src/cdi_native.c:143-144 | skipping a checked candidate without hashing again hides no image |
| NativeCache.Cache.CheckIdentity | runner/src/cdi_native.c:152-172 | the slot records truthfully whether RAM holds a compiled module there |
| NativeCache.Cache.Claim | runner/src/cdi_native.c:152-172 | one slot changes, the range filter covers it and `active` still counts the valid bindings |
| NativeCache.Cache.TryTag | runner/src/cdi_native.c:137-172 | one tag: an image found, none there, or the table full and a well-formed image over the address that no slot is kept for |
| NativeCache.Cache.Resolve | runner/src/cdi_native.c:130-175 | finds a binding exactly when the bytes of RAM spell a compiled module's image over the address (`NativeSpec.SpelledIs`); it gives up only with all 1024 slots taken and a well-formed image over the address that none of them is kept for |
| NativeCache.Cache.ExecutionToken | runner/src/cdi_native.c:211-218 | a token of the valid binding at the base, or zero and no such binding |
| NativeCache.Cache.JobBinding | runner/src/cdi_native.c:201-210 | base and token of the module's binding over the caller, or there is none |
| NativeCache.RecordTarget | runner/src/cdi_native.c:238-256 | a step of the abstract history; an even address inside a bound module that offers no entry there is recorded under its module and offset, with the provenance of this sighting if it is the first; anything else leaves the ledger alone |
| Crc24.ModuleCrc24 | recompiler/src/disc_parser.c:274-286 | the nested loops compute the byte-wise CRC of the message |
| Crc24.LateMask | recompiler/src/disc_parser.c:279-283 | masking once a byte is the same as masking every bit step |
| Crc24.StepsLinear | recompiler/src/disc_parser.c:279-283 | CRC steps are linear over exclusive or |
| Crc24.StepsInjective | recompiler/src/disc_parser.c:279-283 | CRC steps lose no information |
| Crc24.ThreeBytes | recompiler/src/disc_parser.c:277-284 | three bytes act as one 24-bit word followed by 24 steps |
| Crc24.ResidueOfOnes | recompiler/src/disc_parser.h:30 | 24 steps over all ones give 0x800FE3 |
| Crc24.ResidueNumber | recompiler/src/disc_parser.h:30 | the residue's bits are the number 0x800FE3 |
| Crc24.SeedNumber | recompiler/src/disc_parser.c:276 | the seed's bits are the number 0xFFFFFF |
| Crc24.PolynomialNumber | recompiler/src/disc_parser.c:281 | the polynomial's bits are the number 0x800063 |
| Crc24.FooterResidue | recompiler/src/disc_parser.c:329-331 | for every message and 3-byte footer, the CRC over both is the residue if and only if the footer is the big-endian complement of the message's CRC |
| LoaderMath.Prefix | runner/src/cdi_loader_math.h:30-68 | the replay loop is the composition of the first operations |
| LoaderMath.TwentyNine | runner/src/cdi_loader_math.h:32-65 | every register and flag after 29 operations, in closed form |
| LoaderMath.FoldIsPrefix | runner/src/cdi_loader_math.h:70-86 | `fold_word` is 29 operations for even parity and 30 for odd, all registers and all five condition codes, for every CPU, word and table |
| LoaderMath.LogicalMeans | runner/src/cdi_loader_math.h:11-16 | at 8, 16 and 32 bits: Z if and only if the result's number is zero modulo 2^bits, N if and only if it is at least half of that, V and C clear, X kept |
| LoaderMath.FoldFlags | runner/src/cdi_loader_math.h:81-83 | the flags a fold publishes: after odd parity Z and N are those of D1 as a 32-bit number, after even parity Z is set and C is X |
| WordNumbers.LowBits | runner/src/cdi_loader_math.h:11-16 | no bit below 8, 16 or 32 is set if and only if the number is zero modulo that size; the top one is set if and only if it is at least half |
| WordNumbers.NumberBits | runner/src/cdi_loader_math.h:30-68 | bit i of the number is bit position i of the word |
| WordNumbers.XorIs | runner/src/cdi_loader_math.h:36 | exclusive or of words is exclusive or of their numbers |
| WordNumbers.RightIs | runner/src/cdi_loader_math.h:17-28 | one place to the right halves the number |
| WordNumbers.LeftIs | runner/src/cdi_loader_math.h:17-28 | one place to the left doubles the number modulo 2^32 |
| LoaderCrc.TableIndex | runner/src/cdi_loader_math.h:77-78 | the firmware looks a byte's parity up at bit n modulo 8 of table byte n / 8 |
| LoaderCrc.CorrectionNumber | runner/src/cdi_loader_math.h:78 | the correction word's bits are the number 0x800021 |
| LoaderCrc.EvenCrcLinear | runner/src/cdi_loader_math.h:72-75 | the closed form before correction is linear |
| LoaderCrc.ClosedIsSerial | runner/src/cdi_loader_math.h:70-78 | closed form and bit-serial CRC agree on every word, from linearity and 32 basis words |
| LoaderCrc.FoldIsFourBytes | runner/src/cdi_loader_math.h:70-86 | with the parity bitmap and 0x800021 in D5, one fold moves the low 24 bits of D1 exactly as four CRC byte steps |
| LoaderJob.OperationsKeep | runner/src/cdi_loader_jobs.c:36-40 | no operation touches the interrupt mask, D3, D5 or the uninvolved registers |
| LoaderJob.WordSpan | runner/src/cdi_loader_jobs.c:26-31 | the thirty operations are one stretch of code from the word's entry to the loop control, each beginning where the one before ends |
| LoaderJob.EndFlags | runner/src/cdi_loader_jobs.c:55-78 | the flags at the end of every word of the span, on the number in D1 |
| LoaderJob.TestCount | runner/src/cdi_loader_jobs.c:86-87 | Z and N of the low byte of D3, without the formula of the operation it replaces |
| LoaderJob.TakeBranch | runner/src/cdi_loader_jobs.c:88-90 | the branch changes nothing but the program counter |
| LoaderJob.CountDown | runner/src/cdi_loader_jobs.c:92-93 | the low word of D3 counts down modulo 65536 and the high word stays |
| LoaderJob.FrontierMask | runner/src/cdi_loader_jobs.c:36-40 | the mask at any frontier of a word is the one at its start |
| LoaderJob.RunCounts | runner/src/cdi_loader_jobs.c:52-95 | word k is read at A0 + 4k with D3 counted down by k |
| LoaderJob.RunFeeds | runner/src/cdi_loader_jobs.c:52-95 | after k + 1 words D1 holds the module CRC continued over their bytes |
| LoaderJob.RunWord | runner/src/cdi_loader_jobs.c:55-78 | the fold published at the end, or at an interrupt the exact CPU of that operation: the first whose level gets past the mask of the CPU the reference run holds there, though it is tested on the one left behind, which a debugger may have had rebuilt |
| LoaderJob.RunCrcSpan | runner/src/cdi_loader_jobs.c:52-95 | without interrupt exactly (D3 & 255) + 1 words; with one, the exact CPU at the first frontier where its level gets past the mask |
| LoaderJob.Dispatch | runner/src/cdi_loader_jobs.c:97-102 | admission, all reads inside the admitted span, the CRC, A0 and D3 of a completed span, its flags (after an odd last word Z if and only if D1 is zero and N if and only if it is at least 2^31), and the exact CPU at the first frontier where an interrupt gets past the mask |
| MemoryJob.FirmwareDecodes | runner/src/cdi_memory_jobs.c:135-138 | the 48 firmware bytes decode to the 17 instructions the job replaces |
| MemoryJob.StepIs | runner/src/cdi_memory_jobs.c:135-138 | interpreting at an instruction boundary executes that instruction with its extension word |
| MemoryJob.SaveStep | runner/src/cdi_memory_jobs.c:84-88 | the native stores are the firmware's MOVEM |
| Cpu68k.MaskLaw | runner/src/cdi_memory_jobs.c:53-58 | an interrupt gets through if and only if its level is 7, or above zero and above bits 8 to 10 of the 16-bit SR |
| Cpu68k.MaskSilences | runner/src/cdi_memory_jobs.c:53-58 | with the mask set to a level, every level up to it below 7 is silent and no level above is; a mask one below lets the level through; mask 7 lets only 7 through; level 0 never passes |
| Cpu68k.LogicMeans | runner/src/m68k_interp.c:284-289 | at byte, word and long size Z says zero, N says negative in two's complement, V and C are clear, X is kept |
| Cpu68k.SubMeans | runner/src/m68k_interp.c:299-307 | at every size C and X say borrow, V says that the signed difference does not fit, Z and N are those of the result |
| Cpu68k.WordKept | runner/src/cdi_memory_jobs.c:97-104 | a word operation replaces the low word of its register and leaves the high one |
| Cpu68k.ShortBranch | runner/src/cdi_memory_jobs.c:67-70 | a BSR assembled with an 8-bit displacement, in RAM, is read back with its target and return address |
| Cpu68k.LongBranch | runner/src/cdi_memory_jobs.c:67-70 | so is one with a 16-bit displacement |
| Cpu68k.Jumps | runner/src/cdi_memory_jobs.c:71-72 | so are a JSR to an absolute address and one through an address register |
| MemoryJob.CheckCall | runner/src/cdi_memory_jobs.c:63-75 | read instruction word by instruction word, the call test is that of the call's target and return address |
| MemoryJob.StackMeans | runner/src/cdi_memory_jobs.c:78-80 | the stack pointers admitted: even, from 0x1C to 0x7FFF0 or from 0x20001C to 0x27FFF0 |
| MemoryJob.Pass | runner/src/cdi_memory_jobs.c:46-60 | an exit has its reason and going on means neither reason holds: the debugger allows the job, though it is only asked again when the observation epoch moved, and no pending level is 7 or above bits 8 to 10 of SR |
| MemoryJob.LoadArguments | runner/src/cdi_memory_jobs.c:84-97 | the save and the first loads follow the interpreted firmware at every frontier |
| MemoryJob.SetCounts | runner/src/cdi_memory_jobs.c:97-104 | so do the value and the loop counts |
| MemoryJob.Prologue | runner/src/cdi_memory_jobs.c:84-104 | up to the loops the native CPU and RAM are the interpreted ones at every frontier, none of which demanded to stop |
| MemoryJob.FillOneRow | runner/src/cdi_memory_jobs.c:106-115 | the byte loop is the interpreted loop at every frontier, stops at the first that demands it, and leaves one row when it completes |
| MemoryJob.EndRow | runner/src/cdi_memory_jobs.c:117-124 | so do the three operations between rows |
| MemoryJob.FillRectangle | runner/src/cdi_memory_jobs.c:105-125 | the same for both loops, and all rows when they complete |
| MemoryJob.RestoreStep | runner/src/cdi_memory_jobs.c:129-130 | the native loads are the firmware's MOVEM, including overwritten save slots |
| MemoryJob.Epilogue | runner/src/cdi_memory_jobs.c:126-131 | so do the result, the restore and the last frontier |
| MemoryJob.JobDone | runner/src/cdi_memory_jobs.c:76-133 | prologue, loops and restore together make a finished job |
| MemoryJob.Dispatch | runner/src/cdi_memory_jobs.c:61-133 | admission by stack pointer, debugger and call instruction, all spelled out; then `RunJob` |
| MemoryJob.RunJob | runner/src/cdi_memory_jobs.c:76-133 | at every frontier the job reaches, with devices writing RAM in between, CPU and RAM are those of interpreting the firmware from its entry; it stops at the first frontier that demands it, for a stated reason |
| RectangleFill.FillRowsMeans | runner/src/cdi_memory_jobs.c:105-125 | the loops write the rectangle's bytes and no others |
| RectangleFill.RowAddressIs | runner/src/cdi_memory_jobs.c:118 | row r begins r strides after the first, modulo 2^32 |
| RectangleFill.WidthIff | runner/src/cdi_memory_jobs.c:96-103 | rows are as wide as D1 says, and a pitch apart, if and only if D1 is 1 to 65536 |
| RectangleFill.HeightIff | runner/src/cdi_memory_jobs.c:92-125 | there are as many rows as asked if and only if the height is 1 to 65536 |
| RectangleFill.AskedIff | runner/src/cdi_memory_jobs.c:92-125 | the rectangle filled is the rectangle asked for if and only if both counts are 1 to 65536 |
| RectangleFill.OtherCounts | runner/src/cdi_memory_jobs.c:92-125 | every count: only the low word is obeyed, zero there means 65536, and the rest of a width comes off the row distance |
| RectangleFill.ZeroWidth | runner/src/cdi_memory_jobs.c:102-115 | width zero: 65536 bytes a row, 65536 plus the pitch apart |
| RectangleFill.WideWidth | runner/src/cdi_memory_jobs.c:102-115 | width 0x10001: one byte a row, 65536 less than the pitch apart |
| RectangleFill.CompletedWrites | runner/src/cdi_memory_jobs.c:76-133 | a completed job stored the value in every byte of its rectangle and changed nothing else but the save area |
| RectangleFill.CompletedRestores | runner/src/cdi_memory_jobs.c:126-132 | if the rectangle misses the save area, D1-D6 and the address registers are back and D0 is the next row's address |
| DrawingJob.CompareDecides | runner/src/cdi_drawing_jobs.c:48-52 | the flags of a comparison decide signed less, unsigned at most, and equal |
| DrawingJob.CompareMeans | runner/src/cdi_drawing_jobs.c:48-52 | all five flags of a comparison: borrow, equality, signed overflow and sign of the exact difference |
| DrawingJob.AddMeans | runner/src/cdi_drawing_jobs.c:53-57 | all five flags of an addition |
| DrawingJob.RoutineSpan | runner/src/cdi_drawing_jobs.c:32-40 | the routine is one stretch of code from the call's target to its RTS, each operation beginning where the one before ends, and the callback returns to the operation after it |
| DrawingJob.Prefix | runner/src/cdi_drawing_jobs.c:60-91 | the replay loop, whatever the CPU left behind holds |
| DrawingJob.SystemKept | runner/src/cdi_drawing_jobs.c:115-118 | no replayed operation changes the interrupt mask, so testing the CPU left behind is right |
| DrawingJob.FinishIsReplay | runner/src/cdi_drawing_jobs.c:95-114 | for every segment, all registers and all read values, direct publication equals the replay of all operations, even over a CPU rebuilt at any earlier frontier |
| DrawingJob.ActionIsLive | runner/src/cdi_drawing_jobs.c:124-152 | an operation addressed from the segment's start refuses, reads and writes exactly what it would on the live CPU |
| DrawingJob.ReplayFrame | runner/src/cdi_drawing_jobs.c:60-91 | a replay depends only on what its own operations have read |
| DrawingJob.FallsThrough | runner/src/cdi_drawing_jobs.c:154-184 | branches inside a segment are not taken, including the early cut of 15 to 18 |
| DrawingJob.MaskIsCurrent | runner/src/cdi_drawing_jobs.c:115-118 | the interrupt test gives the same answer at any two frontiers of a segment |
| DrawingJob.Job.Frontier | runner/src/cdi_drawing_jobs.c:160-174 | a stop leaves the exact CPU and has its reason; going on means token, debugger and mask all allow it at this operation, though the token is only tested when the epoch moved |
| DrawingJob.Job.Operate | runner/src/cdi_drawing_jobs.c:175-178 | one operation with devices and an inspecting debugger is one step of the reference run |
| DrawingJob.Job.Segment | runner/src/cdi_drawing_jobs.c:154-184 | a completed segment is the reference run of its operations, exactly as many as it has; an abandoned one holds the reference CPU |
| DrawingJob.Job.Callback | runner/src/cdi_drawing_jobs.c:212-220 | after a callback the job goes on, leaves, or redirects as the reference run does |
| DrawingJob.Job.Round | runner/src/cdi_drawing_jobs.c:208-224 | one turn of the queue loop takes the branches the condition codes decide |
| DrawingJob.Job.Body | runner/src/cdi_drawing_jobs.c:204-226 | from the entry to the common exit; it gives up for want of rounds only when it has made all it was given, each of at least six operations |
| DrawingJob.Job.Dispatch | runner/src/cdi_drawing_jobs.c:185-228 | however the job ends, CPU and RAM are those of the routine run one operation at a time, and it never ran past a frontier that demanded to stop; it gives up for want of rounds only when it has made them |
| DrawingJob.Job.Admit | runner/src/cdi_drawing_jobs.c:188-202 | the entry tests in the order they are made are those of a BSR to the routine with its return address on the stack |
| DrawingQueue.EmptyRound | runner/src/cdi_drawing_jobs.c:132-133 | if the longwords at A6-0x6E52 and A6-0x6E4E agree, the round writes nothing and calls nothing |
| DrawingQueue.QueuedCall | runner/src/cdi_drawing_jobs.c:132-138 | if they differ, the routine calls the address stored at the head with D0 the longword behind it, its own continuation on the stack, and nothing else written |
| DrawingQueue.Retired | runner/src/cdi_drawing_jobs.c:139-144 | after the callback A6-0x6E4E holds head + 8, or the longword at A6-0x6E5A when that is above the one at A6-0x6E56, and nothing else is written |
| DrawingQueue.RoundCounts | runner/src/cdi_drawing_jobs.c:208-223 | every round is counted in D5 and the loop goes on while that is below D4 as signed numbers |
| DrawingQueue.StoreIs | runner/src/cdi_drawing_jobs.c:124-152 | a stored longword is its four bytes at its address, most significant first, and no other byte changes |
| DrawingFrame.StepKeeps | runner/src/cdi_drawing_jobs.c:124-152 | every operation keeps the caller's saved registers where the exit will look for them |
| DrawingFrame.RunKeeps | runner/src/cdi_drawing_jobs.c:185-228 | a run that reaches its RTS gives back D4, D5, A0, A5, A6 and the stack pointer, if devices and callbacks leave the frame alone |
| RasterSpans.AppendShows | runner/src/cdi_raster_jobs.c:36-45 | appending behind an ordered list keeps it ordered, shows exactly the new span while there is room, and nothing once the buffer is full |
| RasterSpans.ScaledIs | runner/src/cdi_raster_jobs.c:100-103 | a channel keeps factor parts in 63 of its distance from black, which is 16, rounded towards black; it stays between black and the colour, and reaches them at factors 0 and 63 |
| RasterSpans.ColorMeans | runner/src/cdi_raster_jobs.c:104-114 | from the bytes of both colours and the fields of the control word: mode 0 is the first colour, any other is opaque with each channel scaled, and in mode 2 the two are added above black and clipped to a byte |
| RasterSpans.OverlaySpans | runner/src/cdi_raster_jobs.c:49-63 | the loop is the fold of the one-span overlay |
| RasterSpans.OverlayAppends | runner/src/cdi_raster_jobs.c:49-63 | an overlay is the appending of the pieces the band cuts, one after another |
| RasterSpans.PiecesShow | runner/src/cdi_raster_jobs.c:49-63 | the pieces under an upright band are ordered and cover the same pixels, those in the band with its colour |
| RasterSpans.BufferCounts | runner/src/cdi_raster_jobs.c:36-45 | the buffer holds as many spans as the pieces come to once continuations are merged, up to 768 |
| RasterSpans.AppendAllShows | runner/src/cdi_raster_jobs.c:36-45 | ordered pieces are all shown if and only if those before the last come to fewer than 768 spans |
| RasterSpans.RoomyUnmerged | runner/src/cdi_raster_jobs.c:36-45 | where no piece continues the one before, the buffer is big enough exactly for 768 pieces |
| RasterSpans.OverlayShowsIff | runner/src/cdi_raster_jobs.c:49-63 | a row of any width stays ordered under an upright band, and exactly the covered part of the band is recoloured if and only if the pieces before the last come to fewer than 768 spans |
| RasterSpans.OverlayShows | runner/src/cdi_raster_jobs.c:49-63 | up to 768 pixels order, coverage and the span limit are always kept, and exactly the covered part of the band is recoloured |
| RasterSpans.WideRowExample | runner/src/cdi_raster_jobs.c:49-63 | 768 spans in 3072 pixels, of which an overlay loses some |
| RasterSpans.OverlayOrderedIff | runner/src/cdi_raster_jobs.c:49-63 | a row of any width stays ordered if and only if the band starts past it or is not inverted, or no span lies across it, or the row up to the band already comes to 768 spans |
| RasterSpans.NarrowNeverSaturated | runner/src/cdi_raster_jobs.c:49-63 | up to 768 pixels the row up to the band never comes to 768 spans |
| RasterSpans.InvertedQuiet | runner/src/cdi_raster_jobs.c:49-63 | an inverted band that no span lies across changes no pixel, if and only if the spans before the last come to fewer than 768 |
| RasterSpans.InvertedIff | runner/src/cdi_raster_jobs.c:49-63 | an inverted band with a span across it makes neighbours overlap unless the row up to the band comes to 768 spans |
| RasterSpans.InvertedBandExample | runner/src/cdi_raster_jobs.c:49-63 | a one-span row that an inverted band breaks |
| RasterSpans.OverlayBounded | runner/src/cdi_raster_jobs.c:49-63 | no overlay, inverted or not, leaves a span outside the row |
| RasterSpans.Synthesize | runner/src/cdi_raster_jobs.c:80-84 | the run-length scan gives an ordered list that shows the row's own pixels |
| RasterSpans.RenderRow | runner/src/cdi_raster_jobs.c:119-122 | painting a list gives its colours under it and leaves the other pixels |
| RasterSpans.SynthesizeAndRender | runner/src/cdi_raster_jobs.c:80-122 | a synthesised row renders back to the native pixels |
| RasterOwnership.Raster.constructor | runner/src/cdi_raster_jobs.c:5-11 | nothing is owned and nothing is live |
| RasterOwnership.Raster.OwnedFrameIntact | runner/src/cdi_raster_jobs.c:12-19 | an owned frame and all its rows are alive |
| RasterOwnership.Raster.LiveRowOwned | runner/src/cdi_raster_jobs.c:12-14 | a row still allocated has an owner |
| RasterOwnership.Raster.LiveFrameOwned | runner/src/cdi_raster_jobs.c:15-19 | a frame still allocated is published or acquired |
| RasterOwnership.Raster.ReleaseRow | runner/src/cdi_raster_jobs.c:12-14 | one reference goes, the last one frees, nothing else changes |
| RasterOwnership.Raster.ReleaseRows | runner/src/cdi_raster_jobs.c:17 | a dying frame gives up exactly its row references |
| RasterOwnership.Raster.DropFrame | runner/src/cdi_raster_jobs.c:15-19 | counts stay equal to owners, and no other frame changes |
| RasterOwnership.Raster.Release | runner/src/cdi_raster_jobs.c:15-19 | the holder's reference is gone and all counts equal owners |
| RasterOwnership.Raster.ClearSlot | runner/src/cdi_raster_jobs.c:22 | the slot is empty and its row has one owner fewer |
| RasterOwnership.Raster.Unpublish | runner/src/cdi_raster_jobs.c:21 | the published frame loses that owner |
| RasterOwnership.Raster.ClearSlots | runner/src/cdi_raster_jobs.c:22 | every working slot is emptied |
| RasterOwnership.Raster.Reset | runner/src/cdi_raster_jobs.c:20-24 | nothing published or in work, frames held by others intact, a new epoch |
| RasterOwnership.Raster.Capture | runner/src/cdi_raster_jobs.c:25-28 | switching resets; not switching changes nothing |
| RasterOwnership.Raster.Begin | runner/src/cdi_raster_jobs.c:31-35 | a new geometry forgets the old rows and picture before anything is drawn, the same geometry keeps them, and with capture off nothing changes |
| RasterOwnership.Raster.SpanTo | runner/src/cdi_raster_jobs.c:46-48 | the pending list grows by the span, inside the row |
| RasterOwnership.Raster.OverlayPending | runner/src/cdi_raster_jobs.c:49-63 | the pending list is overlaid and stays inside the row |
| RasterOwnership.Raster.Finish | runner/src/cdi_raster_jobs.c:64-72 | capture stays on if and only if it was on and memory, where it is asked for, is granted; then the slot holds the pending spans, as a new row with the next identity or the one already there, and other slots and all frames are as before; otherwise nothing is left published or in work |
| RasterOwnership.Raster.ReplaceRow | runner/src/cdi_raster_jobs.c:66-71 | the new row has one owner and the old one has lost one |
| RasterOwnership.Raster.FillMissing | runner/src/cdi_raster_jobs.c:78-86 | capture stays on if and only if every missing row is granted its memory; then those rows show the native pixels and captured ones stay |
| RasterOwnership.Raster.TakeReferences | runner/src/cdi_raster_jobs.c:91-93 | one new reference for every row of the frame |
| RasterOwnership.Raster.Install | runner/src/cdi_raster_jobs.c:87-94 | the new frame has one owner and every row, and the old one loses its owner |
| RasterOwnership.Raster.Compose | runner/src/cdi_raster_jobs.c:78-94 | capture stays on if and only if every missing row and the frame are granted their memory; then rows are filled and the frame published, otherwise nothing is left published or in work |
| RasterOwnership.Raster.Publish | runner/src/cdi_raster_jobs.c:73-95 | with capture on and a size the display has, it stays on if and only if every row missing for this geometry and the frame are granted their memory; the published frame then shares every working row, captured for this geometry or showing the native pixels; in all other cases nothing changes |
| RasterOwnership.Raster.Acquire | runner/src/cdi_raster_jobs.c:96-99 | one more owner of the published frame |
| RasterOwnership.Raster.Native | runner/src/cdi_raster_jobs.c:115-125 | refuses a missing frame, a missing buffer and one too small without touching it; otherwise every row of an owned frame is painted at its place and nothing behind the last |
| RasterOwnership.Raster.NativeRow | runner/src/cdi_raster_jobs.c:117-123 | one row of the frame is painted at its place in the buffer and nothing else changes |
| RasterOwnership.Raster.PublishAndRender | runner/src/cdi_raster_jobs.c:73-125 | with memory for all its rows and the frame, a picture nobody captured comes back from its frame pixel for pixel; without, the buffer is untouched and capture is off |
| Timer.Periph.ClockTimerOnce | runner/src/periph.c:105-144 | one tick of the three counters and the status, which `Timer.TicksMean` characterises |
| Timer.Periph.IncrementTimer | runner/src/periph.c:146-151 | the prescaled number of ticks |
| Timer.TicksMean | runner/src/periph.c:105-144 | any number of ticks in closed form: each counter (timer 0 restarts from the reload value every 0x10000 - reload ticks, the others run round), one request for every counter that goes over its top, and every status bit |
| Timer.ReloadPeriod | runner/src/periph.c:110-117 | the tick that takes timer 0 over its top leaves the reload value, sets bit 7 and raises once, and the next such tick comes 0x10000 - reload ticks later |
| Timer.Periph.QuietQuanta | runner/src/periph.c:153-163 | the bound that `Timer.QuietBatch` and `Timer.BoundIsMaximal` characterise |
| Timer.Periph.AdvanceQuiet | runner/src/periph.c:164-186 | the batch update that `Timer.IncrementsAreBatch` relates to ticks |
| Timer.BatchIsTicks | runner/src/periph.c:164-186 | below the first wrap, k ticks in a row are the batch update, and raise nothing |
| Timer.BatchIncrement | runner/src/periph.c:146-186 | one increment more after a quiet batch is the longer batch |
| Timer.IncrementsAreBatch | runner/src/periph.c:146-186 | n increments of 25 cycles short of the first wrap are one batch |
| Timer.QuietBatch | runner/src/periph.c:153-186 | within the bound, batch and increments agree on counters, status and prescale, nothing wraps and no interrupt is raised |
| Timer.BoundIsMaximal | runner/src/periph.c:153-163 | one quantum more, when the caller would allow it, contains the wrapping tick |
| Calendar.AdvanceOneSecond | runner/src/cdi_nvram.c:83-96 | the cascade of carries |
| Calendar.YearLength | runner/src/cdi_nvram.c:65-67 | the leap rule is the Gregorian day count |
| Calendar.MonthLength | runner/src/cdi_nvram.c:69-76 | the month table adds up to the year |
| Calendar.NextDayCounts | runner/src/cdi_nvram.c:90-95 | the day after is the next day number and weekday |
| Calendar.NextSecondCounts | runner/src/cdi_nvram.c:83-96 | every advance adds one to the Gregorian second number and keeps date and weekday right |
| Calendar.ResetDate | runner/src/cdi_nvram.c:200-203 | 1 January 1989 was a Sunday |
| PhantomClock.WindowSpells | runner/src/cdi_nvram.c:165-184 | the shift register equals the key if and only if the last 64 bits written spell it, never with zeros from reset |
| PhantomClock.KeyBorders | runner/src/cdi_nvram.c:165-174 | the key begins as it ends for exactly the lengths 2, 4 and 32 |
| ClockSession.KeyOpensIff | runner/src/cdi_nvram.c:176-184 | writing the key, with any reads and waiting in between, opens a transfer with its last bit and not before if and only if the bits heard earlier do not end in its first 32, 60 or 62; what is latched is the time of that last bit |
| ClockSession.Listens | runner/src/cdi_nvram.c:176-184 | reads, writes and waiting on a chip that hears no key: bits go through the shift register, bytes into SRAM, time passes, nothing else |
| PhantomClock.HalfKeyPrimes | runner/src/cdi_nvram.c:176-184 | half a key written before the key opens the transfer early |
| PhantomClock.LatchShows | runner/src/cdi_nvram.c:111-135 | latching shows every field in two decimal digits, the hour on the dial the mode asks for; the hour mode and the two control bits of the day register are those of before, and no other bit is set |
| PhantomClock.CommitReads | runner/src/cdi_nvram.c:137-163 | committing reads exactly the time shown, in either hour mode and under any other bits, in the century from 1970 on |
| PhantomClock.CommitFalls | runner/src/cdi_nvram.c:137-163 | for any 64 bits, a field out of its range becomes the least it can be, whatever the other fields are |
| PhantomClock.LatchCommits | runner/src/cdi_nvram.c:111-163 | latching any time and committing it brings back everything but the century, in both hour modes |
| PhantomClock.LatchCommit | runner/src/cdi_nvram.c:111-163 | the round trip is exact if and only if the year is at most 2069 |
| PhantomClock.CommitIsSeedable | runner/src/cdi_nvram.c:137-163 | any 64 bits commit to a time that exists |
| ClockSession.FullRead | runner/src/cdi_nvram.c:186-194 | however much time passes between the key and its 64 reads, the last ends the transfer, drops the phase and sets the clock to the time latched, but for its century |
| ClockSession.ReadsDeliver | runner/src/cdi_nvram.c:297-308 | every read of an open transfer delivers the next bit of the latched registers, low bit first |
| ClockSession.ReadCosts | runner/src/cdi_nvram.c:137-163 | what the last read costs, for any waiting before it; time is conserved if and only if there is no phase, no hundredth has passed since the time was latched, and the year is at most 2069 |
| ClockSession.HundredthLost | runner/src/cdi_nvram.c:186-194 | a hundredth that passed since the key is lost |
| ClockSession.PhaseLost | runner/src/cdi_nvram.c:162 | a nanosecond of phase is lost |
| ClockSession.CenturyLost | runner/src/cdi_nvram.c:149 | 2070 is read and committed as 1970 |
| ClockSession.ReadTransaction | runner/src/cdi_nvram.c:297-325 | the key and 64 reads of an idle clock, with time passing anywhere: SRAM holds the bytes written, registers and clock the time of the key's last bit but for its century, the phase is gone, everything else is as before |
| ClockSession.FullWrite | runner/src/cdi_nvram.c:310-325 | 64 writes, with time passing anywhere, become the registers bit for bit, and the time is what they say |
| PhantomClock.QuietIncrements | runner/src/cdi_nvram.c:280-295 | as many increments as the bound allows are the plain additions, however these round, and no hundredth passes |
| PhantomClock.SettleKeeps | runner/src/cdi_nvram.c:268-278 | whatever was added to the phase, time only moves forward, and none is lost |
| PhantomClock.Device.constructor | runner/src/cdi_nvram.c:196-205 | the whole reset state: SRAM, latched registers, date, weekday, empty shift register |
| PhantomClock.Device.GetByte | runner/src/cdi_nvram.c:297-308 | SRAM byte or next transfer bit |
| PhantomClock.Device.SetByte | runner/src/cdi_nvram.c:310-325 | a transfer starts exactly when the last 64 bits since reset or the previous transfer spell the key |
| PhantomClock.Device.FinishTransferBit | runner/src/cdi_nvram.c:186-194 | the 64th bit commits and ends the transfer |
| PhantomClock.Device.SeedOnce | runner/src/cdi_nvram.c:258-266 | the first valid time is taken, later or invalid ones change nothing |
| PhantomClock.Device.IncrementClock | runner/src/cdi_nvram.c:268-278 | the clock moves by exactly what the addition put into the phase, all of the elapsed time when the addition is exact; the weekday stays right, and a stopped oscillator stops it |
| PhantomClock.Device.QuietQuanta | runner/src/cdi_nvram.c:280-289 | the largest number of additions, up to the caller's limit, that stay below a hundredth |
| PhantomClock.Device.AdvanceQuiet | runner/src/cdi_nvram.c:290-295 | the repeated additions and nothing else |
| CosimHash.Fnv1a | runner/src/cosim_state.c:38-45 | the byte loop |
| CosimHash.FnvAppend | runner/src/cosim_state.c:38-45 | hashing can be continued |
| CosimHash.FnvStepIs | runner/src/cosim_state.c:38-45 | one step is exclusive or with the byte, times 0x100000001B3, modulo 2^64 |
| CosimHash.LittleEndAt | oracle/cosim_state.cpp:81-89 | shifting the whole value for a byte gives the byte that repeated shifting gives |
| CosimHash.NativeFold | runner/src/cosim_state.c:109-115 | value after value, canary first in bank 0 |
| CosimHash.OracleFold | oracle/cosim_state.cpp:77-91 | one buffer hashed once is the same fold |
| CosimHash.FoldIsOneBuffer | oracle/cosim_state.cpp:85-90 | folding values equals hashing their bytes together |
| CosimHash.MarksAgreeIff | oracle/cosim_state.cpp:122-132 | both sides mark the same pages if and only if the write stays out of the other bank |
| CosimHash.GuestWriteIsOneBank | runner/src/cdi_bus.c:141-171 | a write of one or two bytes that starts in RAM stays in its bank |
| CosimHash.MarksAgree | runner/src/cosim_state.c:80-103 | a range of pages and the pages of every byte are the same for a write in one bank |
| CosimHash.MarksDiffer | runner/src/cosim_state.c:88-103 | otherwise there is a page only the oracle marks |
| CosimHash.StraddleExample | oracle/cosim_state.cpp:122-132 | two bytes from 0x1FFFFF, of which only the oracle marks the page |
| CosimCache.WriteIsMarked | runner/src/cosim_state.c:88-103 | every page a write touches is marked by either side |
| CosimCache.PageFrame | runner/src/cosim_state.c:80-86 | a page outside the written span keeps its bytes |
| CosimCache.PageCache.constructor | runner/src/cosim_state.c:61-66 | nothing is marked and nothing is promised before initialisation |
| CosimCache.PageCache.Init | runner/src/cosim_state.c:72-78 | every page is dirty, and from here on clean pages are right |
| CosimCache.PageCache.NativeNote | runner/src/cosim_state.c:88-103 | marks exactly the native pages and clears none |
| CosimCache.PageCache.OracleNote | oracle/cosim_state.cpp:122-132 | marks exactly the oracle's pages and clears none |
| CosimCache.PageCache.Note | oracle/cosim_state.cpp:122-132 | each side marks its own pages; an oracle not yet initialised marks none |
| CosimCache.PageCache.Store | runner/src/cdi_bus.c:137-147 | a notified store keeps every clean page's hash right |
| CosimCache.PageCache.Notified | runner/src/cosim_state.c:88-103 | the notification restores the cache's agreement with RAM |
| CosimCache.PageCache.Inject | runner/src/cosim_state.c:148-156 | flips one RAM byte and keeps the cache right; other addresses are ignored, and so is everything by an oracle not yet initialised |
| CosimCache.PageCache.RamHash | runner/src/cosim_state.c:117-130 | after any history since initialisation and on either side, the incremental hash is the hash of the bank's bytes; an oracle not yet initialised answers zero |
| CosimCache.PageCache.FullHash | runner/src/cosim_state.c:132-143 | the from-scratch hash, leaving the cache alone; an oracle not yet initialised answers zero |
| DiscWalk.ParseRecord | recompiler/src/disc_parser.c:158-210 | parsing always moves forward inside the directory, and yields only extents that fit the disc |
| DiscWalk.WalkDirectory | recompiler/src/disc_parser.c:137-218 | terminates on any metadata with at most 256 directories, forgetting nothing |
| DiscWalk.WalkKeeps | recompiler/src/disc_parser.c:137-218 | no directory is entered twice and every listed file fits the disc |
| DiscWalk.WalkBudget | recompiler/src/disc_parser.c:139-218 | every listed file has its own 34 bytes in an entered directory |
| DiscWalk.CatalogueSound | recompiler/src/disc_parser.c:220-251 | the same for a whole disc, and the count fits a C int |
| DiscWalk.CataloguesAgree | recompiler/src/disc_parser.c:137-251 | two walks of one disc that both succeed see the same, whatever memory each was refused |
| DiscTree.RecordIs | recompiler/src/disc_parser.c:158-214 | the parser's answer for any record, from its bytes: refused, passed over, a file or a directory, with the path, the big-endian sector and size they spell |
| DiscTree.ReadIsExtent | recompiler/src/disc_parser.c:147-155 | a directory can be read if and only if all its sectors can, and is then the bytes of its extent |
| DiscTree.WalkIsTree | recompiler/src/disc_parser.c:137-218 | a walk succeeds if and only if every directory below can be read and is well formed, and all are different from each other and from those entered before, at most 256 and granted memory; then it lists every plain record once, in order, depth first |
| DiscTree.RootIs | recompiler/src/disc_parser.c:220-244 | the root is found exactly where the volume descriptor, or the path table it points to, has it |
| DiscTree.CatalogueIs | recompiler/src/disc_parser.c:220-251 | there is a catalogue if and only if the disc has a root that can be walked, and then it is the tree under it |
| DiscWalk.Load | recompiler/src/disc_parser.c:147-155 | the sector loop gives exactly the directory's bytes, or fails |
| DiscWalk.DirectoryWalk.constructor | recompiler/src/disc_parser.c:245-249 | an empty walk |
| DiscWalk.DirectoryWalk.Entered | recompiler/src/disc_parser.c:142-143 | true if and only if the directory was entered before |
| DiscWalk.DirectoryWalk.Enter | recompiler/src/disc_parser.c:144 | the directory is remembered |
| DiscWalk.DirectoryWalk.Emit | recompiler/src/disc_parser.c:211-212 | the file is counted, and stored if there is room |
| DiscWalk.DirectoryWalk.Visit | recompiler/src/disc_parser.c:137-218 | the recursive walk sees the same files and directories whatever the capacity, and writes nothing past it |
| DiscWalk.ListFiles | recompiler/src/disc_parser.c:220-251 | -1 exactly for bad arguments or metadata, otherwise the number of files with as many as fit |
| DiscWalk.ListAll | recompiler/src/disc_parser.c:338-342 | the count-only pass sizes the buffer exactly and a filling pass that succeeds agrees with it, though memory may be refused to either pass or to the buffer |

## Left out

- Cycle and audio accounting, statistics counters of the jobs, trace and event rings: they carry no decision the model makes.
- The interpreter and decoder beyond the seventeen instructions of the rectangle fill, the function finder and the code generator.
- cdi_native_has_address, cdi_native_dispatch and cdi_native_find_function: one call each on top of `Resolve` or a table.
- 64-bit counters (epochs, hits, identities) are unbounded; only the token's 48-bit epoch is modelled with its width.
- NativeCache.Cache.Resolve: says nothing about whether an image would be found when it gives up for want of a slot, where the source aborts.
- SHA-256 itself: the digest is any function, so two images with one digest count as one identity, as in the source.
- MemoryJob.Dispatch: what a completed job has filled and restored is stated for devices that leave RAM alone meanwhile; that it follows the firmware is not so limited.
- DrawingJob.Job.Dispatch: a callback may keep the queue loop going for ever, so a run is given a number of rounds; the statement is for every such number. The module image is not in the repository, so each operation's instruction is the one its reads, writes and register effects in the source spell out.
- DrawingJob.Job.Frontier: that the token passes at all of the routine's operations or at none is assumed of each epoch; `NativeSpec.TokenCovers` and `NativeSpec.TokenStableThroughout` prove it of a routine inside one binding, at even addresses.
- DrawingQueue.QueuedCall: stated, as are the other laws of a round, for devices that leave RAM alone between its operations, and for an entry and a stack in RAM; an operation outside RAM is refused, which `DrawingJob.ActionIsLive` covers.
- DrawingFrame.RunKeeps: callbacks that do not keep A5, A6, the stack pointer and the saved words, and a queue overlapping the frame, are outside its promise; `DrawingJob.Job.Dispatch` has no such condition.
- RasterOwnership.Raster.Publish: operations are taken one at a time; the memory ordering of the atomic counts is not modelled.
- RasterSpans.OverlayShowsIff: the packing of span bounds into 16-bit halves, which matters for rows wider than 65535 pixels, is not modelled.
- Timer.Periph.ClockTimerOnce: raising the interrupt is a count of raises; the interrupt controller is not part of this model.
- PhantomClock.Device.IncrementClock: the addition may round in any way, but taking a hundredth off the phase is exact, as it is for doubles below two hundredths.
- SRAM files of the clock chip and register injection of the co-simulation.
- CosimCache.PageCache.RamHash: what the native side answers before its initialisation is not promised; the source does not guard that call.
- DiscWalk.ListFiles: a sector's Form 1 payload is a function of its number, and within one pass an allocation succeeds or not by the directory's number.
- Reading of raw sectors, the OS-9 module scan, ROM files, game configuration, the service jobs, audio, input, the video chips, the CD controller and the frontend.
