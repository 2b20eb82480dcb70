# Bottleship tools: a verified model

This project models the stateful and analytical code behind the repository's tools and proves what
that code is for. Each loop or object that the source updates step by step is a method or class here,
proved equal to a specification function; the theorems are then lemmas about that function, over
every input, run or interleaving.

* **Guard groups** (`GuardModel`, `GuardExact`, `GuardFixpoint`, `GuardSoundness`, `GuardForward`,
  `GuardSelfLoops`, `GuardCoverage`, `GuardHeights`, `GuardOscillation`, `GuardRotation`, `GuardNoEntry`,
  with the small programs of `GuardProbe` and the generic in-place sweeps of `Sweeps`). The forward
  must-analysis of a JIT module: which memory accesses need no guard because an earlier access of the
  same address key has checked the page. Which accesses those are, and what is recorded of each, is told
  exactly from a block's events and the state it starts in. It is proved sound against a register and
  segment machine with addresses modulo 2^32, on every run over the module's edges, if it converged. It
  converges on every module whose blocks have ranks below 49, a number per block that no edge lowers and
  every edge to a smaller or equal address raises, edges into entry blocks aside; where every key has
  heights, a block's edges to itself may be left aside too, with ranks below 24. Loops outside these
  conditions on which every pass changes the state, one that moves its address and one that moves
  nothing, show that neither condition can just be dropped. The order of the models by coverage holds
  converged or not.
* **Loops** (`Flows`, `Dominators`, `NaturalLoops`). The uncapped dominator iteration ends with exactly
  the nodes on every path from a root, and the body walk collects exactly the natural loop. For a back
  edge from a block to itself the walk starts at the header and leaves the loop; the exact condition
  under which it does not is proved, with an example where it does.
* **Store-only ZIP** (`Crc32`, `ZipBytes`, `StoreZip`, `ZipReader`, `ZipGeneral`, `ZipRoundTrip`,
  `ZipLimits`, with the generic `Folds` and `ShiftRegister`). The table-driven CRC is the bit-at-a-time
  CRC-32 of section 8 of RFC 1952; the seek-back patch changes four bytes; and the reader returns what
  was written exactly when the names and the member count fit their 16-bit fields and the directory's
  place and length their 32-bit ones (sections 4.3.7, 4.3.12 and 4.3.16 of PKWARE APPNOTE), but for
  stored data that passes for a directory where a wrapped offset points. The source checks the 32-bit
  limits of each member and none of these. Archives of any other origin are read back whole as well: any
  method, extra fields, comments and gaps.
* **Protocols** (`SessionOwnership` and `SessionHistory`, `LaunchLock` and `LockHistory`,
  `CdpAcquisition`, `CdpRequests`, `DigestCache` with `DigestHistory` and `DigestJobs`, `StepBatching`).
  Steps are what runs between two awaits, or one file-system call; every sequence of steps is a run.
  Beside the invariants, each protocol's state after a run is told from the steps alone: when a
  connection is published and when closed, who holds the lock and what a refused launcher met, which
  hashes are shared and how each ends. The launch lock is exclusive on every run whose lock files stay
  within their time to live; in general, every holder owns the file at the path exactly when no step
  removes another holder's file, and for every limit some run from no lock at all ends with two holders.
* **Profiles** (`ProfileSlice`, `IntervalUnion`, `WindowAttribution`, `ProfileTree`,
  `ProfileAccounting`, `Deferrable`, with the finite sums of `SetSums`). Slicing, the late-sampler
  correction, interval coverage, window attribution, self and total time, and the deferrable census,
  each fast form against its definition.
* **Smaller cores** (`LoadGraph`, `Deframer`, `LogEviction`). Breadth-first reachability of shipped
  modules, chunk-independent CD deframing, and log eviction within a budget.

`Options` and `Numbers` hold the optional value, minimum and maximum they share.

## Where the code falls short of its description

Each of these is kept as the code has it, with its exact condition or as much of it as can be read
off the input, and an input that fails.

* Guard soundness needs a converged run. Ranks ensure one (`GuardForward.RankedConverges`), and so do
  heights for every key with ranks that leave self-loops aside (`GuardSelfLoops.LevelledConverges`).
  For every key with a base register and every constant there is a self-loop that converges exactly
  when the constant is zero, and is misdescribed when the constant moves the address at all
  (`GuardOscillation.ConvergesIffUnmoved`). A loop of three blocks laid out against its own direction
  never settles although nothing moves, since a block first visited before all its predecessors starts
  from nothing (`GuardRotation.StillMayRotate`).
* The source's own notes call the model that ignores the dispatcher an upper bound of the realisable one
  (tools/guard-group-census.py:30). It is one on every module where each access lies outside what the
  entered blocks reach or has a key with heights (`GuardHeights.NoEntryBounds`): a number per block the
  key can be live in, carried through it by the tracked moves of the key's base, that edges preserve and
  accesses meet at zero. Modules that move no base by a constant, or whose entry blocks nothing branches
  to, are special cases. For every key with a base register and every constant there is a module moving
  only by that constant on which both analyses converge and the bound holds exactly when the constant is
  zero (`GuardNoEntry.NoEntryBoundsDiamond`).
* The recorded body of a self-loop stays within what its header dominates only under the condition of
  `NaturalLoops.SelfLoopBody`.
* An archive reads back only with fewer than 65536 members, names shorter than 65536 bytes, a
  directory shorter than 2^32 bytes and, unless it is empty, starting below 2^32, but for stored data
  that passes for a directory where a wrapped offset points: `ZipLimits.RoundTrip`. A long name, or one
  member of the largest size allowed, is accepted and lost.
* Lock files that outlive their time to live can be stolen twice: `LaunchLock.CollisionIsReached`.
* The regions of the deferrable census sum to its bucket only when no sample of the bucket has a
  negative delta: `Deferrable.RegionsSumToBucket`. The one-pass window attribution misses what falls
  back into a window already passed, which also takes a negative delta. It agrees with the windows' own
  attributions in every bucket of every classification exactly when what each node's samples miss that
  way sums to zero: `WindowAttribution.OnePassExactly`; `WindowAttribution.ReturnIsMissed` is a profile
  where it does not.

Two conditions of `ProfileSlice` are properties of the slicing function alone, since the command line
passes it only ranges with 0 <= start < end and slices once: absolute times are kept unless a range
that overlaps some sample starts before the profile, and a second slice is one slice of the composed
range unless that range is empty and lies inside a sample.

## Model

| member | source | states |
|---|---|---|
| `GuardModel.WriteReg` | tools/guard-group-census.py:228-238 | the loop over the live keys; what it keeps is told by `GuardExact.LiveIffChecked` |
| `GuardModel.TransferBlock` | tools/guard-group-census.py:213-265 | the event walk over a block reaches the specified state and, when asked to, records every access |
| `GuardModel.RecordedAt` | tools/guard-group-census.py:250-255 | each access of a block has its classification among the block's records |
| `GuardModel.MeetKey` | tools/guard-group-census.py:271-285 | a key survives the meet iff every state has it at one displacement; anchors are united, the capability is the weakest |
| `GuardModel.MeetStates` | tools/guard-group-census.py:267-286 | the meet over the available predecessors, by key |
| `GuardModel.AnchorsContain` | tools/guard-group-census.py:276-281 | no predecessor's anchors are lost at a meet |
| `GuardExact.MemberExactly` | tools/guard-group-census.py:213-265 | but for the control that kills before every event, from any state and in any model, an access is a member iff it has a key, does not leave its page, and the key is held from the block's start or touched earlier (for a write in MO-sep: by a write) with no kill, index write or untracked base write since |
| `GuardExact.LocalMemberExactly` | tools/guard-group-census.py:213-265 | in S and SO this is a matter of the block's own events; an absolute key is ended by nothing but a kill |
| `GuardExact.LiveIffChecked` | tools/guard-group-census.py:213-265 | a key is in the state of a block, with or without cover for writes, exactly while it is checked in that sense |
| `GuardExact.CheckedHasOrigin` | tools/guard-group-census.py:213-265 | a checked key goes back to one access that checked it, or to the block's start, with nothing between |
| `GuardExact.MemberOfCheck` | tools/guard-group-census.py:224-262 | the record of a member after such an access: that access as anchor, and its own displacement plus what was added to the base since |
| `GuardExact.MemberOfEntry` | tools/guard-group-census.py:224-262 | the record of a member whose key the block came in with |
| `GuardExact.OthersStandAlone` | tools/guard-group-census.py:250-262 | the record of every other access: its own anchor |
| `GuardExact.RecordsExactly` | tools/guard-group-census.py:250-255 | one record for each access of a block, in order |
| `GuardExact.MeetExactly` | tools/guard-group-census.py:267-286 | a key survives a meet at a displacement iff all states, of at least one, have it there; anchors and capability as of all of them |
| `GuardFixpoint.BuildPreds` | tools/guard-group-census.py:207-211 | predecessor lists, one entry per successor field naming the block |
| `GuardFixpoint.EdgeIsPred` | tools/guard-group-census.py:207-211 | every edge of the module is listed at its target |
| `GuardExact.InStateExactly` | tools/guard-group-census.py:294-318 | a block starts with a key iff the model reads predecessors, the block is no entry or entries are ignored, and all predecessors' states that exist have the key at one displacement |
| `GuardExact.InStateJoins` | tools/guard-group-census.py:271-286 | with the anchors of all of them, and good for writes iff all are |
| `GuardFixpoint.OnePass` | tools/guard-group-census.py:294-306 | one pass is one in-place sweep in address order, and `changed` says whether anything differs |
| `GuardFixpoint.RunPasses` | tools/guard-group-census.py:288-307 | the capped loop ends in the fiftieth pass's states, and its flag says whether the forty-ninth had them already |
| `GuardFixpoint.ConvergedIsConsistent` | tools/guard-group-census.py:293-307 | a converged run solves the dataflow equations of every block |
| `GuardFixpoint.RecordWalk` | tools/guard-group-census.py:310-319 | the recording walk over the final states |
| `GuardFixpoint.CensusContains` | tools/guard-group-census.py:310-319 | every block's records are in the census |
| `GuardFixpoint.Analyse` | tools/guard-group-census.py:199-319 | the analysis returns the specified census and convergence flag, for every model and control |
| `GuardSoundness.LatestMeaning` | tools/guard-group-census.py:213-265 | the run's latest check of a key: an anchor with no kill-all, no entry block and no newer anchor since |
| `GuardSoundness.RegWriteMovesBase` | tools/guard-group-census.py:228-238 | a tracked register write moves the key's concrete base, modulo 2^32, by what the analysis adds |
| `GuardSoundness.MeetWeakens` | tools/guard-group-census.py:267-286 | what the meet says of a key is true wherever a predecessor's state was |
| `GuardSoundness.CoversAlways` | tools/guard-group-census.py:213-319 | at every place of every run, each live key of a consistent solution describes the run's latest check |
| `GuardSoundness.Extents` | tools/guard-group-census.py:350-357 | anchor extents are exactly the hull of the recorded ranges naming the anchor |
| `GuardSoundness.MembersAreChecked` | tools/guard-group-census.py:199-319 | if the analysis converged, a member's address is its latest check's base plus the recorded offset, that check is a recorded anchor whose extent holds both accesses, every recorded anchor's extent holds the member, and with reads and writes apart a write was checked by a write |
| `GuardCoverage.TrackingAddsMembers` | tools/guard-group-census.py:199-319 | members of S are members of SO, access by access |
| `GuardCoverage.ModuleAddsMembers` | tools/guard-group-census.py:199-319 | members of SO are members of MO, converged or not |
| `GuardCoverage.RemovingKillsAddsMembers` | tools/guard-group-census.py:474-479 | members of MO are members of MO without kills, though the two fixpoint runs may stop at different passes |
| `GuardCoverage.KillEveryLeavesNoMembers` | tools/guard-group-census.py:474-479 | a kill before every event leaves no members in any model |
| `GuardOscillation.IterShape` | tools/guard-group-census.py:288-306 | the states of a family of two-block loops after every number of passes |
| `GuardOscillation.SettlesIffUnmoved` | tools/guard-group-census.py:293-307 | for every key with a base register and every constant the loop moves it by, the passes after the first change the state iff the constant is not zero, so no cap would do |
| `GuardOscillation.ConvergesIffUnmoved` | tools/guard-group-census.py:293-319 | the analysis of such a loop converges iff the constant is zero, and where 2^32 does not divide it the capped analysis records a member at a wrong address on a real run |
| `GuardForward.RanksSettle` | tools/guard-group-census.py:293-306 | after `n` passes the blocks of rank below `n` do not change any more |
| `GuardForward.RankedConverges` | tools/guard-group-census.py:293-307 | a module whose ranks stay below 49 converges in every model that reads its predecessors as ranked |
| `GuardForward.ForwardSettlesAtOnce` | tools/guard-group-census.py:293-307 | where every edge into a block that reads its predecessors goes to a larger address, one pass settles the module |
| `GuardForward.RankedMembersAreChecked` | tools/guard-group-census.py:199-319 | on a ranked module members are checked, whatever flag the analysis returns |
| `GuardSelfLoops.OwnStateSettles` | tools/guard-group-census.py:293-307 | where keys have heights, a block that reads nothing new but its own state comes out as before |
| `GuardSelfLoops.TwoPassesFixRank` | tools/guard-group-census.py:293-307 | with heights, two passes fix one more rank although ranks leave self-loops aside |
| `GuardSelfLoops.LevelledConverges` | tools/guard-group-census.py:293-307 | with heights for every key and such ranks below 24, the analysis converges |
| `GuardSelfLoops.StillModuleConverges` | tools/guard-group-census.py:293-307 | so it does where no register moves by a constant other than zero |
| `GuardSelfLoops.LevelledMembersAreChecked` | tools/guard-group-census.py:199-319 | on such a module members are checked, whatever flag the analysis returns |
| `GuardRotation.StillMayRotate` | tools/guard-group-census.py:267-306 | for every key with a base register there is a loop that moves nothing and on which no two passes in a row agree |
| `GuardHeights.UntouchedIsLevelled` | tools/guard-group-census.py:239-262 | a key no access touches has heights |
| `GuardHeights.InStateFollows` | tools/guard-group-census.py:267-306 | where a key has heights, its displacement at the start of a block is the block's height |
| `GuardHeights.LevelledKeepsMember` | tools/guard-group-census.py:293-319 | an access of a key with heights that is a member in MO is one in MO-noentry, converged or not |
| `GuardHeights.UnenteredRecordsSame` | tools/guard-group-census.py:299-319 | outside what the entered blocks reach, MO and MO-noentry record the same |
| `GuardHeights.NoEntryBounds` | tools/guard-group-census.py:293-319 | MO-noentry bounds MO on every module whose accesses are each of one of these two kinds |
| `GuardHeights.StillModuleBounds` | tools/guard-group-census.py:293-319 | MO-noentry bounds MO where no block moves a register by a constant other than zero |
| `GuardHeights.UnenteredModuleSame` | tools/guard-group-census.py:299-319 | the two models record the same where nothing branches to an entry block |
| `GuardNoEntry.PassSettles` | tools/guard-group-census.py:288-306 | on a family of four-block programs one pass reaches the final states of either model, whatever it starts from |
| `GuardNoEntry.NoEntryBoundsDiamond` | tools/guard-group-census.py:299-307 | for every key with a base register and every constant moving it, both models converge on such a program and MO-noentry bounds MO iff the constant is zero |
| `Flows.FlowOf` | tools/guard-group-census.py:382-390 | successors and predecessors are the module's edges, roots are entry blocks and blocks without predecessors |
| `Dominators.Intersect` | tools/guard-group-census.py:400-401 | the intersection of the predecessors' sets, with the node |
| `Dominators.UpdateKeeps` | tools/guard-group-census.py:395-404 | replacing a node's set keeps every dominator and never grows a set |
| `Dominators.SettledDominates` | tools/guard-group-census.py:395-404 | at a fixpoint only nodes on every root path remain |
| `Dominators.SweepDominators` | tools/guard-group-census.py:396-404 | a pass that changes anything makes the sets smaller, one that does not has settled |
| `Dominators.ComputeDominators` | tools/guard-group-census.py:388-404 | the uncapped iteration ends, with exactly the nodes on every path from a root |
| `NaturalLoops.LoopBody` | tools/guard-group-census.py:411-418 | the body walk collects exactly the nodes that reach the latch without passing the header, and the header |
| `NaturalLoops.BodyIsDominated` | tools/guard-group-census.py:405-419 | of a back edge between different blocks, every body node is dominated by the header |
| `NaturalLoops.HeaderIsOnlyEntry` | tools/guard-group-census.py:411-418 | the header is the only way into such a body |
| `NaturalLoops.SelfLoopBody` | tools/guard-group-census.py:411-418 | a self-loop's body is dominated by its header iff the header dominates all its own predecessors |
| `NaturalLoops.SelfLoopEscapes` | tools/guard-group-census.py:411-418 | a program whose self-loop body takes in a block outside the loop |
| `NaturalLoops.FindLoops` | tools/guard-group-census.py:405-419 | the bodies of all back edges, merged by header |
| `Crc32.BuildTable` | tools/iso-to-wgb.ts:85-89 | entry `i` is `i` after eight reflected steps |
| `Crc32.LookupIsEightSteps` | tools/iso-to-wgb.ts:91 | one lookup and a shift do the work of eight steps on any register value |
| `Crc32.MixedByteIsByteIn` | tools/iso-to-wgb.ts:91 | mixing in a byte and stepping eight times shifts in its bits one by one |
| `Crc32.CrcUpdate` | tools/iso-to-wgb.ts:90-93 | the table-driven loop computes the bit-at-a-time remainder of every byte string |
| `Crc32.RemainderOfChunks` | tools/iso-to-wgb.ts:129-136 | the remainder does not depend on how the data is split into chunks |
| `StoreZip.BuildLocalHeader` | tools/iso-to-wgb.ts:118-125 | the local header's bytes |
| `StoreZip.BuildCentralHeader` | tools/iso-to-wgb.ts:154-163 | the directory header's bytes |
| `StoreZip.BuildEndRecord` | tools/iso-to-wgb.ts:168-174 | the end record's bytes |
| `ZipBytes.LocalFieldsExactly` | tools/iso-to-wgb.ts:118-125 | every field of the local header, each at its place |
| `ZipBytes.CentralFields` | tools/iso-to-wgb.ts:154-163 | every field of the directory header |
| `ZipBytes.EndFields` | tools/iso-to-wgb.ts:168-174 | every field of the end record, both counts among them |
| `StoreZip.PatchOnlyChecksum` | tools/iso-to-wgb.ts:139-142 | the seek-back write turns the unpatched header into the patched one and changes nothing before or after |
| `StoreZip.StreamingStoreZip.WriteChunks` | tools/iso-to-wgb.ts:129-136 | chunks are appended in order while their checksum and length are kept |
| `StoreZip.StreamingStoreZip.AddStreaming` | tools/iso-to-wgb.ts:112-145 | the outcome and the new archive of a call, including the bytes a failing call leaves behind |
| `StoreZip.StreamingStoreZip.AddBuffer` | tools/iso-to-wgb.ts:147-149 | a buffer is stored like one chunk of its length |
| `StoreZip.StreamingStoreZip.Finish` | tools/iso-to-wgb.ts:151-177 | the directory and the end record follow the members |
| `ZipReader.SearchEnd` | tools/iso-to-wgb.ts:191-198 | the last position holding the end record's signature, within the tail |
| `ZipReader.ReadDirectory` | tools/iso-to-wgb.ts:204-224 | the directory walk, ending early at a foreign signature and failing beyond the buffer |
| `ZipReader.ReadZipMembers` | tools/iso-to-wgb.ts:187-228 | the listing of any file, archive or not |
| `ZipReader.ListingIsBounded` | tools/iso-to-wgb.ts:199-215 | no listing has more members or longer names than its 16-bit fields can say |
| `ZipGeneral.AnyArchiveReadsBack` | tools/iso-to-wgb.ts:187-241 | an archive with any methods, sizes, extra fields, comments, gaps and unread header bytes whose fields fit: every member is listed in order with its name, method, both sizes and place, and its content is the stored bytes, passed on by its method |
| `ZipGeneral.RecordIsRead` | tools/iso-to-wgb.ts:206-222 | a directory record is read as what it was printed from, and the next one starts after its name, extra field and comment |
| `ZipGeneral.DirectoryIsRead` | tools/iso-to-wgb.ts:204-224 | so is every directory |
| `ZipGeneral.RecordIsLaid` | tools/iso-to-wgb.ts:216-221 | local records laid out one after the other, with bytes before and between, stand where an archive needs them |
| `ZipGeneral.FindsLast` | tools/iso-to-wgb.ts:194-197 | the search finds a position iff it holds the last end signature |
| `ZipGeneral.RefusedIffNoEnd` | tools/iso-to-wgb.ts:194-198 | a file is refused as no archive iff no end signature stands where a record could follow it |
| `ZipRoundTrip.ContentIsKept` | tools/iso-to-wgb.ts:230-241 | the bytes at a stored member's data offset are its data |
| `ZipRoundTrip.SessionHolds` | tools/iso-to-wgb.ts:112-145 | after any calls, every stored member lies where its entry says, with its lengths and checksum |
| `ZipRoundTrip.KeptExactly` | tools/iso-to-wgb.ts:112-145 | a call's item is kept iff it announces fewer than 2^32 bytes, fewer than 2^32 were written before it, and it produces what it announces |
| `ZipRoundTrip.SessionSize` | tools/iso-to-wgb.ts:112-145 | the bytes written, from the calls alone |
| `ZipLimits.RoundTrip` | tools/iso-to-wgb.ts:112-241 | for every sequence of calls and then a finish, the reader returns exactly the stored names, sizes, method 0 and bytes in order iff names and count fit 16 bits and the directory's place and length 32 bits, unless stored data passes for a directory at the wrapped offset |
| `ZipLimits.WrappedOffsetFails` | tools/iso-to-wgb.ts:168-174 | a directory that starts at 2^32 or later is not found, unless it is empty or something passes for it |
| `ZipLimits.WrappedLengthFails` | tools/iso-to-wgb.ts:167-173 | a directory of 2^32 bytes or more cannot be read |
| `ZipLimits.LongNameIsLost` | tools/iso-to-wgb.ts:112-126 | one member with a name of 65536 bytes or more is accepted and does not read back |
| `ZipLimits.LargestMemberIsLost` | tools/iso-to-wgb.ts:112-177 | one member of the largest size the checks admit is accepted and does not read back |
| `ZipRoundTrip.ChecksumsAgree` | tools/iso-to-wgb.ts:136-144 | both copies of a member's checksum are the CRC-32 of its data, however it was chunked |
| `SessionOwnership.Reachable` | tools/harness.ts:73-117 | in every interleaving: the session is live and of the current generation, one attempt is open per generation, and every opened session is closed or is the session |
| `SessionOwnership.RetiredNeverReturns` | tools/harness.ts:99-107 | a session of a retired generation is never published, whatever happens later |
| `SessionOwnership.SessionStaysUntilClosed` | tools/harness.ts:78-84 | over every run the session stays until the first close, which closes it for good |
| `SessionOwnership.PendingClearedByItselfOnly` | tools/harness.ts:111-116 | over every run an acquisition stays pending until its own completion or a close, and no other completion clears it |
| `SessionOwnership.RetiredEndClosed` | tools/harness.ts:78-117 | every acquisition made before a close ends up closed if it opens at all, whatever is called later |
| `SessionOwnership.NothingLeaksAfterClose` | tools/harness.ts:78-117 | after a close that no further call follows, every session ends up closed |
| `SessionHistory.MadeByFreshCall` | tools/harness.ts:95-110 | an attempt is made iff a call finds neither a session nor a pending attempt, and is pending from then on |
| `SessionHistory.AnswerDecides` | tools/harness.ts:99-107 | at its first answer an attempt is published iff it connected and no close came since it was made, and closed iff it connected and one did |
| `SessionHistory.SessionExactly` | tools/harness.ts:78-117 | after any run the session is an attempt iff that attempt connected and no close came since it was made |
| `SessionHistory.ClosedExactly` | tools/harness.ts:78-107 | and its session is closed iff it connected and a close came since it was made |
| `SessionOwnership.HarnessConnection.EnsureSession` | tools/harness.ts:95-110 | a call goes on with the live session, the pending attempt, or a new one |
| `SessionOwnership.HarnessConnection.OnConnected` | tools/harness.ts:100-109 | a late connection is closed, a current one published |
| `SessionOwnership.HarnessConnection.OnSettled` | tools/harness.ts:111-116 | the completion of an attempt |
| `SessionOwnership.HarnessConnection.CloseConnection` | tools/harness.ts:78-84 | a close retires the generation |
| `LaunchLock.OwnershipStep` | tools/cdp-core.ts:83-99 | holders keep owning the file through exactly the steps that do not remove another holder's |
| `LaunchLock.OwnershipIffNoHazard` | tools/cdp-core.ts:83-99 | over whole runs, every holder owns the file at the path iff no step so far removed another holder's |
| `LaunchLock.MutualExclusion` | tools/cdp-core.ts:77-99 | over any number of processes at most one holds the lock, on every run whose lock files stay within their time to live |
| `LockHistory.HoldsIffTookAndKept` | tools/cdp-core.ts:83-87 | on every run a process holds the lock iff it has created the file and neither released it nor died since |
| `LockHistory.FileIffHeldOrLeft` | tools/cdp-core.ts:83-99 | while files stay young, a file is at the path iff the process that created it still holds the lock or died holding it |
| `LockHistory.ReleaseFrees` | tools/cdp-core.ts:87 | a release empties the path |
| `LockHistory.CreateTakesIffFree` | tools/cdp-core.ts:86 | a create takes the lock iff nobody holds it and no holder has died |
| `LockHistory.RefusedMeansMet` | tools/cdp-core.ts:83-99 | on every run a refused launcher met a file in this launch, and then saw that it was young or met a file again |
| `LockHistory.RefusedMeansTaken` | tools/cdp-core.ts:92-99 | while files stay young that file was of a launcher that held the lock or had died with it |
| `LockHistory.LoneLaunch` | tools/cdp-core.ts:83-99 | a launch that nothing interrupts takes the lock iff no file is there or it is too old, and is refused otherwise |
| `LockHistory.LockIsPassedOn` | tools/cdp-core.ts:83-99 | after a release the next such launch of any process takes the lock |
| `LockHistory.SecondTry` | tools/cdp-core.ts:91-95 | a launcher that finds the file gone when it looks opens once more and can take the lock |
| `LockHistory.FailedLaunch` | tools/cdp-core.ts:88-91 | a create that fails for any other reason ends the launch and leaves the lock as it was |
| `LaunchLock.StealersCollide` | tools/cdp-core.ts:92-94 | two processes that find one stale file reach a state where both hold the lock |
| `LaunchLock.CollisionIsReached` | tools/cdp-core.ts:83-99 | for every limit a run from no lock leads there |
| `CdpAcquisition.FirstEventDecides` | tools/cdp-core.ts:285-332 | under any order of events the acquisition settles at most once, by the first event that can; failure closes the socket and nothing is published afterwards |
| `CdpAcquisition.StartsExactly` | tools/cdp-core.ts:286-290 | an acquisition goes ahead iff its signal has not fired and its limit, if any, is a positive 31-bit number |
| `CdpAcquisition.ClosesExactly` | tools/cdp-core.ts:300-323 | the socket is closed once by the failure that decides and once more each time it opens after that, and otherwise never |
| `CdpAcquisition.Acquisition.HandleOpen` | tools/cdp-core.ts:313-323 | the open handler, whichever one is installed |
| `CdpAcquisition.Acquisition.Fail` | tools/cdp-core.ts:300-311 | the failure path and the handlers it leaves |
| `CdpRequests.PendingIsUnsettled` | tools/cdp-core.ts:263-279 | the pending ids are exactly the requests not settled, and none is settled twice |
| `CdpRequests.FirstAnswerSettles` | tools/cdp-core.ts:337-354 | a request is settled by the first reply or timeout after it that can answer it, and by nothing else |
| `CdpRequests.IdsExactly` | tools/cdp-core.ts:337-354 | every send uses up the next id, and the requests are those of the sends that did not throw |
| `CdpRequests.CdpSession.SendRequest` | tools/cdp-core.ts:337-354 | a send takes a fresh id; one that throws leaves no request |
| `CdpRequests.CdpSession.OnMessage` | tools/cdp-core.ts:265-273 | a reply settles its pending request once and clears its timer |
| `CdpRequests.CdpSession.OnTimer` | tools/cdp-core.ts:346-349 | a timeout settles its request if it is still pending |
| `DigestCache.Digests.Insert` | deploy/wgb-etag.ts:23-24 | an insertion, with the oldest key dropped beyond the capacity |
| `DigestCache.Digests.ForgetJob` | deploy/wgb-etag.ts:26 | a failed hash removes only its own entry |
| `DigestCache.RememberKeepsCache` | deploy/wgb-etag.ts:23-24 | at most 128 entries after an insertion, the new one among them, the others unchanged |
| `DigestHistory.RememberExactly` | deploy/wgb-etag.ts:23-24 | a known path keeps its place, a new one goes last, and the first goes iff the cache was full |
| `DigestCache.TagsAreDigests` | deploy/wgb-etag.ts:13-27 | in every interleaving of calls, evictions, failures and file changes, a returned tag is the digest of the version whose stamp the call read first |
| `DigestHistory.StartsIffNoEntry` | deploy/wgb-etag.ts:15-23 | over every run a job is started iff a call goes on whose path has no entry with the stamp it has read |
| `DigestHistory.CallsShare` | deploy/wgb-etag.ts:15-23 | with such an entry the call waits for the entry's job, and jobs and cache stay as they are |
| `DigestHistory.EntryExactly` | deploy/wgb-etag.ts:23-26 | an entry is there iff its job was started and it has not been replaced, cleaned up after or evicted since |
| `DigestHistory.Coalesced` | deploy/wgb-etag.ts:15-26 | two jobs for one version of one file mean that one of these happened to the first one's entry in between |
| `DigestHistory.EvictedIsOldest` | deploy/wgb-etag.ts:24 | an evicted path came into the cache before every other path in it |
| `DigestJobs.AnswerExactly` | deploy/wgb-etag.ts:16-26 | a call waits for its job until it is resumed with the job settled, and then has that job's tag or failure |
| `DigestJobs.SharedTag` | deploy/wgb-etag.ts:16-25 | calls that wait for one job return the same tag |
| `DigestJobs.JobExactly` | deploy/wgb-etag.ts:17-21 | a job of an unchanged file whose reads do not fail holds exactly what its reads asked for and, having reached the end and compared stamps, the digest of the file |
| `DigestJobs.WaiterReturnsDigest` | deploy/wgb-etag.ts:17-25 | a call that waits for such a job returns that digest |
| `DigestJobs.HashedIsReused` | deploy/wgb-etag.ts:14-16 | a whole call that finds its file hashed returns the tag and changes neither jobs nor cache |
| `DigestCache.StampIsFirstRead` | deploy/wgb-etag.ts:14 | that stamp is the version at the call's first read, whatever happens later |
| `DigestCache.CleanupSparesNewer` | deploy/wgb-etag.ts:25-26 | the cleanup after a failed hash never evicts a newer entry |
| `StepBatching.RunSteps` | src/harness/facade.ts:642-665 | the page's executor runs its steps one at a time up to the first failure |
| `StepBatching.BatchIsInPlace` | tools/harness.ts:237-248 | running a batch on its own and splicing it in is running its steps in place, the failing step renumbered |
| `StepBatching.ExecViaCdp` | tools/harness.ts:214-249 | for every mix of browser and page steps, results, named map, stop point and failing step equal running the steps one at a time |
| `StepBatching.StopsAtFirstFailure` | tools/harness.ts:218-249 | one result per step run, and the error names the last of them |
| `StepBatching.RunExactly` | tools/harness.ts:214-249 | every run from its trace of replies: a result for each step made, with its label and reply, the value of each command's last success, and the failing step's error and snapshot |
| `ProfileSlice.SliceProfileByRange` | tools/analyze-trace.ts:930-964 | the slicing loop, with its skip and its early end |
| `ProfileSlice.SlicedTimeIsOverlap` | tools/analyze-trace.ts:930-964 | sliced time is the overlap of the range with the profile |
| `ProfileSlice.AdjacentSlicesAdd` | tools/analyze-trace.ts:930-964 | slices that meet add up |
| `ProfileSlice.SliceKeepsAbsoluteEnds` | tools/analyze-trace.ts:946-962 | every kept sample keeps its absolute end up to clipping iff the range does not start before the profile, or overlaps no sample |
| `ProfileSlice.SliceOfSlice` | tools/analyze-trace.ts:930-964 | slicing a slice is slicing once at the composed range iff that range is not left empty, or overlaps no sample |
| `ProfileSlice.KeepsIffOverlaps` | tools/analyze-trace.ts:943-950 | the slice keeps something iff some sample overlaps the range |
| `ProfileSlice.KeepsExactly` | tools/analyze-trace.ts:943-950 | the kept samples are exactly those that overlap the range |
| `ProfileSlice.CorrectLateSampler` | tools/analyze-trace.ts:834-843 | the correction of a first delta beyond ten medians |
| `ProfileSlice.CorrectionKeepsPositions` | tools/analyze-trace.ts:829-843 | the correction moves no sample's end and is idempotent |
| `ProfileSlice.CorrectsExactly` | tools/analyze-trace.ts:834-843 | a profile is changed iff its first delta is beyond ten positive medians, and then only in that delta and its start |
| `IntervalUnion.FrontierMoves` | tools/analyze-trace.ts:1490-1493 | one more slice adds exactly what lies past the frontier |
| `IntervalUnion.BusyTime` | tools/analyze-trace.ts:1487-1494 | the pass over the sorted slices measures their union |
| `IntervalUnion.CoveredIgnoresOrder` | tools/analyze-trace.ts:1489 | the union does not depend on the order of the slices |
| `IntervalUnion.SumDoubleCounts` | tools/analyze-trace.ts:1488 | the sum of lengths is at least the coverage, and equal iff no two slices meet |
| `WindowAttribution.AttributeRange` | tools/analyze-trace.ts:713-735 | per-bucket and total time of the samples ending in a window |
| `WindowAttribution.AttributeBand` | tools/analyze-trace.ts:1806-1828 | the one-pass form with a window cursor gives, per bucket and in total, each window the samples ending in it before any sample has reached its end |
| `WindowAttribution.GapIsMissed` | tools/analyze-trace.ts:1806-1828 | for every bucket and prefix, what the one pass falls short of the windows' own attributions is the time of the bucket's samples in windows they fell back into |
| `WindowAttribution.OnePassExactly` | tools/analyze-trace.ts:1806-1828 | the two agree in every bucket of every classification iff for each node that time sums to zero |
| `WindowAttribution.OnePassIsBandSum` | tools/analyze-trace.ts:1806-1828 | in particular they agree where no sample falls back into a window passed |
| `WindowAttribution.ForwardNeverReturns` | tools/analyze-trace.ts:1812-1819 | profiles without negative deltas never fall back |
| `WindowAttribution.ReturnIsMissed` | tools/analyze-trace.ts:1817-1818 | one sample that falls back makes the two forms differ |
| `WindowAttribution.OnlyAtCursor` | tools/analyze-trace.ts:1817-1819 | with the cursor in place only its own window can catch the sample |
| `WindowAttribution.NothingAfterLast` | tools/analyze-trace.ts:1818 | leaving the loop once the windows are over loses nothing |
| `WindowAttribution.FramesAreInOrder` | tools/analyze-trace.ts:564-578 | frames of sorted marks are windows in order |
| `WindowAttribution.FramesExactly` | tools/analyze-trace.ts:564-578 | the frames are the spans between one mark and a later next one, and no others |
| `WindowAttribution.BandIsInOrder` | tools/analyze-trace.ts:1807 | so is any selection of them sorted by start |
| `WindowAttribution.OverIgnoresOrder` | tools/analyze-trace.ts:1807 | a sum over a band does not depend on the order of its frames |
| `WindowAttribution.BucketsAddUp` | tools/analyze-trace.ts:713-728 | the buckets of a window add up to its total |
| `WindowAttribution.WindowsAdd` | tools/analyze-trace.ts:713-728 | windows that meet hold what one window over both holds |
| `ProfileTree.BuildParentMap` | tools/analyze-trace.ts:864-883 | the map holds exactly the links stated by either form, and building fails iff two links disagree |
| `ProfileTree.WalkIsBounded` | tools/analyze-trace.ts:911-917 | a walk to new nodes is bounded by the number of parents, on cyclic maps too |
| `ProfileTree.WalkMeetsAncestors` | tools/analyze-trace.ts:911-917 | when it stops it has met exactly the ancestors |
| `ProfileAccounting.ChargeSample` | tools/analyze-trace.ts:903-917 | one sample: self time to its node, total time to the node and each ancestor once |
| `ProfileAccounting.ComputeStats` | tools/analyze-trace.ts:887-921 | every node's self and total time, for any parent map |
| `ProfileAccounting.TotalIsSelfAndChildren` | tools/analyze-trace.ts:887-921 | total is self plus the children's totals, at every node on no cycle |
| `ProfileAccounting.SelfTimesAddUp` | tools/analyze-trace.ts:907-908 | self times sum to the deltas |
| `ProfileAccounting.RootTotalsAddUp` | tools/analyze-trace.ts:910-917 | where every walk ends, the roots' totals sum to the deltas |
| `Deferrable.FindMarkers` | tools/analyze-trace.ts:2375-2388 | the walk finds every marker above a sample, and fails iff a node on the way is unknown |
| `Deferrable.ComputeDeferrable` | tools/analyze-trace.ts:2366-2398 | the region, off-guest, moving and keeping times, the tallies by frame name, and exactly when the census fails |
| `Deferrable.RegionsExactly` | tools/analyze-trace.ts:2375-2390 | each region's time from the markers alone: below the drain, below the boundary but not the drain, below neither |
| `Deferrable.LeavesAddUp` | tools/analyze-trace.ts:2393-2395 | the tallies of a region add up to it |
| `Deferrable.BackwardSampleIsLost` | tools/analyze-trace.ts:2370-2371 | one sample of the bucket that runs backwards is in the bucket and in no region |
| `Deferrable.BucketTime` | tools/analyze-trace.ts:2356-2358 | the bucket's self time from the per-node table, in any order |
| `Deferrable.RegionsSumToBucket` | tools/analyze-trace.ts:2348-2399 | the regions sum to the bucket iff no sample of the bucket runs backwards; moving and keeping sum to off-guest |
| `Deferrable.KeepsIsDrainThatStays` | tools/analyze-trace.ts:2391-2392 | what is kept is the drain time that does not move |
| `LoadGraph.IndexByName` | tools/api-census.ts:243 | the copies of a name are exactly the files of that name |
| `LoadGraph.FindRoots` | tools/api-census.ts:294-297 | entry points, all programs when asked for, every file when that leaves none |
| `LoadGraph.RootsExactly` | tools/api-census.ts:294-297 | a file is a root iff it is asked for, or no file is |
| `LoadGraph.Expand` | tools/api-census.ts:304-320 | every copy of every module a file names or matches is reached, and nothing else is new |
| `LoadGraph.LevelCovers` | tools/api-census.ts:302-322 | one more level covers the chains one step longer |
| `LoadGraph.FindReachable` | tools/api-census.ts:288-323 | the walk ends; it reaches exactly the closure of the roots, each at its shortest distance, with a finder one level nearer |
| `Deframer.CarryOver` | tools/bin2iso.ts:23-33 | reducing a prefix first and carrying its rest over gives the same output |
| `Deframer.UserDataAt` | tools/bin2iso.ts:28-29 | byte `j` of output sector `k` is byte `16 + j` of input sector `k` |
| `Deframer.Writer.Put` | tools/bin2iso.ts:28-30 | a sector goes into the batch, which never overflows |
| `Deframer.Writer.Drain` | tools/bin2iso.ts:27-32 | every whole sector is taken and the rest is less than one |
| `Deframer.PartialSectorIsDropped` | tools/bin2iso.ts:27-35 | a trailing part of a sector changes nothing |
| `Deframer.Convert` | tools/bin2iso.ts:11-36 | for every split of the input the output is the user data of its whole sectors |
| `LogEviction.SelectKept` | tools/log-manager.ts:124-130 | the paths kept are those of the first of each directory in the order given |
| `LogEviction.Evict` | tools/log-manager.ts:132-152 | the deletion loop, with skipped and fatal deletions and dry runs |
| `LogEviction.Cleanup` | tools/log-manager.ts:94-154 | the whole procedure on the listing sorted by time, with its limit checks |
| `LogEviction.NewestSurvive` | tools/log-manager.ts:117-134 | a candidate with fewer than the kept number of others in its directory at least as new is never deleted |
| `LogEviction.ProtectedIsRecent` | tools/log-manager.ts:124-134 | where paths differ, only these newest are protected |
| `LogEviction.CrowdedIsUnprotected` | tools/log-manager.ts:124-134 | a candidate with at least the kept number of strictly newer ones in its directory is not protected |
| `LogEviction.GoneExactly` | tools/log-manager.ts:132-152 | a candidate is deleted iff it is unprotected, too old or met over budget, and not skipped |
| `LogEviction.DeletedExactly` | tools/log-manager.ts:94-152 | the same from the listing and the limits in days and megabytes: the total counts every file listed, less the older candidates deleted |
| `LogEviction.TotalIsSum` | tools/log-manager.ts:119 | the total is the size of all files listed |
| `LogEviction.LogsExactly` | tools/log-manager.ts:123 | the candidates are the logs listed |
| `LogEviction.GoneOldestFirst` | tools/log-manager.ts:117-132 | files are deleted at most once, none before an older one that is deleted too |
| `LogEviction.FreedIsDeleted` | tools/log-manager.ts:148-150 | the bytes freed are the sizes of the files deleted |
| `LogEviction.BudgetOrProtected` | tools/log-manager.ts:132-152 | without skips, the run ends within budget or every survivor is protected |
| `LogEviction.OverBudgetMeansProtected` | tools/log-manager.ts:132-152 | over budget, each survivor is protected or was skipped |
| `LogEviction.YoungGoLast` | tools/log-manager.ts:117-134 | a file within the age limit goes only over budget, and only where every strictly older candidate that may go goes too or was skipped |
| `LogEviction.DryRunPredicts` | tools/log-manager.ts:136-150 | a dry run reports what a real one deletes where every deletion succeeds |

## Left out

- Instruction decoding, kill classification and constant deltas: disassembler behaviour; the analysis starts from event lists. An instruction's events carry its index, and the access class, which the analysis only passes on, is dropped.
- The calibration rule and the shares and page-crossing figures of the census: floating-point reporting.
- The set order of anchors and the iteration order of a meet's keys: no result depends on them.
- GuardForward.RankedConverges: ranks are sufficient; so is what `GuardSelfLoops` adds. Loops of several blocks that are not entered are covered by neither, and whether one converges is what running the analysis finds out.
- GuardHeights.NoEntryBounds: heights and reach are sufficient; the bound may hold on a module where a key has no heights.
- GuardSoundness.MembersAreChecked: not stated for MO-noentry or the control without kills, which are not meant to describe executions.
- Loop hoisting costs after the bodies: a floating-point estimate.
- ISO and CUE mounting, installer extraction, manifest synthesis, inflate and ZIP64: imported code or I/O. A deflated member is returned still deflated.
- Encoding names to UTF-8 and back: names are their encoded bytes.
- ZipLimits.RoundTrip: where the directory's offset wraps and stored data passes for a directory there, it is not said what the reader returns.
- Closing the archive file, and disk errors: I/O. One read is taken to return every byte asked for that the file holds, and one write to write all it is given; the source does not loop over short ones.
- Direct assignments of the session by the `up` command: they bypass the ownership protocol.
- Launching and attaching to Chrome, event listeners, and messages without an id: foreign calls and fan-out.
- LaunchLock.MutualExclusion: a look at the file or a removal that fails although the file is there, which the source treats as a file gone, is not a step.
- The digest cache identifies a file version by its stamp, and each read of a file is one step.
- StepBatching.ExecViaCdp: step durations, the journal, a page evaluation that itself throws and a page result without an error description are not modelled; a step's label is its `tag`.
- Sorting: the library's sorted result is an argument of the methods that sort, with what sorting guarantees as their precondition.
- ProfileSlice.CorrectLateSampler: the merging of chunks before the correction, which appends in order, is not modelled.
- WindowAttribution.AttributeBand: frame names are classified by an arbitrary function of the node.
- Times of profiles and slices are whole microseconds.
- ProfileAccounting.RootTotalsAddUp: on a cyclic map some walks reach no root, and their time is under none.
- Deferrable.ComputeDeferrable: frame names and files are given by node; the idle time, one more sum over the per-node table, is not modelled.
- LoadGraph.FindReachable: patterns are an arbitrary relation between a pattern and a name; shadowing, opaque entries and the ranking of imports are not modelled.
- Deframer.Convert: the writer is taken to copy what it is given before the batch buffer is reused; the file size is not used beyond a progress message.
- LogEviction.Cleanup: listing the directory, the pattern that makes a file a log, and deleting are given as data; limits are finite reals.
- Report formatting, statistics of frame tails, and the code generators, importers and shells of the repository: shallow or I/O.
