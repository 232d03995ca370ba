# Verified models of the Tegra out-of-tree drivers

Dafny models of the stateful parts of NVIDIA's out-of-tree driver repository, with proofs of what
those parts are for. `dafny verify dfyconfig.toml` checks everything. Each model follows the
driver's own branches, limits and error paths; state that a driver updates in place is a class or
an array here, and concurrent code is a state machine whose actions are single accesses to shared
state, interleaved freely.

| File | What it models |
|---|---|
| `Common.dfy` | bytes, concatenation, multiples of a unit |
| `ShaStream.dfy`, `ShaTheorems.dfy`, `ShaRequest.dfy` | how the hash driver cuts update, finup and final calls into tasks for a remote engine: functions on values, the theorems about them, and the request context that is updated in place |
| `Mailbox.dfy` | senders, kernel thread and server around one IVC channel |
| `Quiesce.dfy` | suspending an engine while senders use its channels |
| `Descriptors.dfy` | scatterlists turned into bounded descriptors, with their DMA mappings |
| `Cmac.dfy` | the last block of a CMAC request |
| `ChunkedBuffers.dfy` | user data and the AEAD layout in tables of fixed-size chunks |
| `CtrCounter.dfy` | the 128-bit CTR counter and what is carried between calls |
| `Qspi.dfy` | multi-round quad SPI transfers |
| `S2idle.dfy` | the CPU rendezvous before the guest is paused |
| `Wmark.dfy` | the watermark frequency governor |
| `PodGov.dfy` | the pod scaling frequency governor |
| `SysTime.dfy` | the torn-read-safe clock read |

## What came out

Most properties hold outright. These hold under a condition, which is proved to be the exact one:

- A hash session sends its message faithfully if and only if the lengths and entry counts of its
  requests pass `LosslessSession` (`ExactlyLossless`). A short single-entry request followed by one
  of at least a block fails it (`ShortThenLong`); lists of several entries with a SHA-2 block size
  always pass (`ScatteredIsLossless`). With such a block size `LosslessExactly` gives the condition
  in terms of the requests alone, without the driver's realignment flag.
- The two sides of the mailbox stay in step if and only if no message read gives up for want of
  memory (`InStepExactly`).
- A shutdown quiets an engine if and only if the node probed last is not the GPC-DMA one, or an
  earlier resume was skipped (`QuietExactly`): the flag that tells that node apart is one for the
  whole module, so the driver's comment that other nodes are still checked does not hold. A resume
  reopens the engine under the same condition, or if the flag was down already (`ReopensExactly`).
- A CMAC request reaches the engine whole if and only if its whole blocks lie in the first entry of
  the list that is not empty and stay below 2^24 bytes (`DeliveredExactly`). The message has room for
  one descriptor, whose length is overwritten with that of all blocks; the character device's
  requests above 1 MiB and one block fail (`DeviceRequests`, `DeviceRequestCutShort`). Exactly these
  also store a second descriptor behind the one there is room for.
- Counters of one CTR message run on if and only if every call but the last marks its nonce with
  exactly 1, is a multiple of 16 bytes and does not overflow (`CountersRunOn`). The interface
  header says any nonzero mark means a user nonce; the code carries the counter on only for 1, and
  the model follows the code. When a counter value is used twice is `CounterReuse`.
- A receiving quad SPI transfer leaves the memory behind the client's buffer alone if and only if it
  does not end in a packed DMA round with a length that is no multiple of four (`OverrunsExactly`).
- A quad SPI transfer runs to its end if and only if it is unpacked or a whole number of packets
  (`CompletesExactly`).
- C's index arithmetic in the watermark governor is exact if and only if the steps stay in an int's
  range (`StepsExactly`), which the clamps see to (`ClampsSuffice`).
- The four watermarks are ordered if and only if neither margin leaves the 32-bit range
  (`ThresholdsOrdered`).
- The pod governor's request is non-negative for every load if and only if the bias is at most 100
  (`SafeBias`); the default is 80.
- The clock read is right for every schedule if and only if its reads span at most one second
  (`ToleratedSpan`).

## Model

| member | source | states |
|---|---|---|
| `ShaTheorems.UpdateStreams` | drivers/crypto/tegra-hv-vse-safety.c:1126-1378 | each call, by fast or slow path, keeps: tasks sent plus bytes held are all input so far, the count is its length, every task is whole blocks, at most a block is held |
| `ShaTheorems.ExactlyLossless` | drivers/crypto/tegra-hv-vse-safety.c:1126-1547 | a session sends exactly its message, whole blocks closed by one last task, iff a check on lengths and entry counts passes |
| `ShaTheorems.DigestIsReference` | drivers/crypto/tegra-hv-vse-safety.c:1539-1547 | the digest of such a session is the block-by-block digest of its message, for any engine |
| `ShaTheorems.SegmentationIndependence` | drivers/crypto/tegra-hv-vse-safety.c:1380-1547 | two such sessions over the same bytes, cut differently and mixing paths, give the same digest |
| `ShaTheorems.ScatteredIsLossless` | drivers/crypto/tegra-hv-vse-safety.c:1541-1544 | sessions in lists of several entries, ending included, with a block size dividing 4 MiB, always pass the check |
| `ShaTheorems.LosslessExactly` | drivers/crypto/tegra-hv-vse-safety.c:1244-1250 | with whole-block slices and no SHAKE the check passes iff no single-entry request of a block or more comes while the stream strays: inside a block, with only small single-entry requests since some block boundary; the realignment flag is not part of the condition |
| `ShaTheorems.RealignedExactly` | drivers/crypto/tegra-hv-vse-safety.c:1347-1354 | after any lossless updates the realignment flag is up exactly when the stream is inside a block and does not stray |
| `ShaTheorems.LargeOrScatteredDigest` | drivers/crypto/tegra-hv-vse-safety.c:1126-1378 | if every update has a block or more, or several entries, the digest is the message's, whatever the flag does in between |
| `ShaTheorems.WhichSlicesAlign` | drivers/crypto/tegra-hv-vse-safety.c:1305-1309 | 4 MiB is whole blocks for the SHA-2 sizes and for none of the SHA-3 and SHAKE sizes |
| `ShaTheorems.ShortThenLong` | drivers/crypto/tegra-hv-vse-safety.c:1164-1184 | a short single-entry update followed by a finup of a block or more is never sent faithfully |
| `ShaTheorems.LengthWordsTell` | drivers/crypto/tegra-hv-vse-safety.c:1032-1058 | over a whole session the length words are equal exactly on the first task, and leave nothing over exactly on the last |
| `ShaRequest.Context.SendShaData` | drivers/crypto/tegra-hv-vse-safety.c:1032-1083 | the 32-bit halves of both lengths for first, middle and last tasks, and the hash state taken back |
| `ShaRequest.Context.SendOne` | drivers/crypto/tegra-hv-vse-safety.c:1086-1124 | a task from the linear buffer, with the SHAKE suffix byte on the last one |
| `ShaRequest.Context.FlushBlock` | drivers/crypto/tegra-hv-vse-safety.c:1152-1162 | only a held whole block is sent ahead of a fast-path request |
| `ShaRequest.Context.FastPath` | drivers/crypto/tegra-hv-vse-safety.c:1126-1251 | the zero-copy path in place refines the plan that keeps back the last block |
| `ShaRequest.Context.SendSlices` | drivers/crypto/tegra-hv-vse-safety.c:1302-1329 | the copying loop in place refines the recursive slicing of held bytes and request |
| `ShaRequest.Context.NextSlice` | drivers/crypto/tegra-hv-vse-safety.c:1305-1328 | one round of it keeps plan, copied bytes and what is left in step |
| `ShaRequest.Context.SlowPath` | drivers/crypto/tegra-hv-vse-safety.c:1279-1378 | the copying path in place refines its plan, with the new residual, count and flag |
| `ShaRequest.Context.Op` | drivers/crypto/tegra-hv-vse-safety.c:1380-1547 | update, final, finup and digest as one entry point, empty requests included |
| `ShaRequest.Context.Seal` | drivers/crypto/tegra-hv-vse-safety.c:1718-1800 | what is held goes out as the last task |
| `ShaRequest.Context.constructor` | drivers/crypto/tegra-hv-vse-safety.c:1632-1670 | a fresh context: nothing held, nothing counted, first task pending, flag clear |
| `ShaRequest.HashSession` | drivers/crypto/tegra-hv-vse-safety.c:1689-1800 | init, any updates, and an ending on one context return the digest of the message |
| `Mailbox.InvStep` | drivers/crypto/tegra-hv-vse-safety.c:838-879 | every access of sender, thread or server keeps one reader, a current thread copy and the frame alternation |
| `Mailbox.MailboxSafety` | drivers/crypto/tegra-hv-vse-safety.c:4688-4737 | over every interleaving there is one reader at most, no read finds an empty ring or the wrong kind of frame |
| `Mailbox.SkipLosesStep` | drivers/crypto/tegra-hv-vse-safety.c:651-753 | a message read skipped for want of memory puts the two sides out of step at once |
| `Mailbox.InStepExactly` | drivers/crypto/tegra-hv-vse-safety.c:624-753 | state and reader position name the next frame throughout a run iff no message read is skipped |
| `Mailbox.SenderReadsReply` | drivers/crypto/tegra-hv-vse-safety.c:842-851 | from every state a run can reach, a sender that sees NO_INTERRUPT with its reply in the ring takes exactly its two frames by its own actions, without waiting, and frees the lock |
| `Mailbox.ThreadReadsLateMessage` | drivers/crypto/tegra-hv-vse-safety.c:849-864 | if only the filler is there, the sender asks for an interrupt, the thread fetches the message when it comes, and the lock is freed |
| `Mailbox.ThreadReadsFirstReply` | drivers/crypto/tegra-hv-vse-safety.c:4692-4728 | in the FIRST state the thread reads both frames for the waiting sender and leaves NO_INTERRUPT behind |
| `Mailbox.ExchangeReturns` | drivers/crypto/tegra-hv-vse-safety.c:811-901 | a whole request, from taking the lock to giving it back, can always be made from an idle mailbox and leaves it exactly as it was |
| `Mailbox.RefusedReturns` | drivers/crypto/tegra-hv-vse-safety.c:826-830 | a request refused because the engine is suspended gives the lock back and leaves no trace |
| `Mailbox.SkipFailsNext` | drivers/crypto/tegra-hv-vse-safety.c:651-753 | after an exchange whose message read was skipped, the next sender, whoever it is, takes the old message for its filler and fails |
| `Mailbox.LockComesFree` | drivers/crypto/tegra-hv-vse-safety.c:811-901 | a sender inside always has an action of its own, on failing paths too, and gives the lock back in at most seven |
| `Mailbox.SenderGetsNearer` | drivers/crypto/tegra-hv-vse-safety.c:811-901 | every action of a sender inside, failing ones included, brings it nearer to giving the lock back |
| `Mailbox.ThreadComesBack` | drivers/crypto/tegra-hv-vse-safety.c:4688-4737 | the thread always gets back to its wait, without touching lock or senders |
| `Mailbox.FillerIsRetried` | drivers/crypto/tegra-hv-vse-safety.c:4692-4708 | a filler the thread had no memory for stays in the ring and is tried again |
| `Quiesce.InvStep` | drivers/crypto/tegra-hv-vse-safety.c:811-830 | every step keeps: a channel lock is held by the one sender inside, watched channels have no sender past the suspended check |
| `Quiesce.SuspendedIsQuiet` | drivers/crypto/tegra-hv-vse-safety.c:5148-5163 | once the engine's flag is set no continuation lets a sender write between the return of shutdown and resume |
| `Quiesce.SkippedKeepsWriting` | drivers/crypto/tegra-hv-vse-safety.c:5143-5149 | if shutdown returned early some sender of the engine writes within three steps, from every such state |
| `Quiesce.FlagIsLastProbe` | drivers/crypto/tegra-hv-vse-safety.c:4879-4883 | the module-wide flag is what the node probed last said, whatever engine is asked |
| `Quiesce.QuietExactly` | drivers/crypto/tegra-hv-vse-safety.c:5138-5204 | over every run a shutdown quiets an engine that has a sender iff the node probed last is not the GPC-DMA one, or a skipped resume has left the engine's flag up |
| `Quiesce.FirstSuspend` | drivers/crypto/tegra-hv-vse-safety.c:4879-4883 | for the first suspend that is the order of probing alone |
| `Quiesce.ReopensExactly` | drivers/crypto/tegra-hv-vse-safety.c:5187-5204 | over every run, after a resume an engine serves its senders again iff the node probed last is not the GPC-DMA one or the engine's flag was down already |
| `Quiesce.ServesExactly` | drivers/crypto/tegra-hv-vse-safety.c:826-830 | outside a suspend under way, a channel can be written to iff it is another engine's or the flag is down |
| `Quiesce.OthersKeepServing` | drivers/crypto/tegra-hv-vse-safety.c:5154-5156 | over every run and at every moment, suspending one engine leaves the channels of the others at work |
| `Quiesce.SuspendReturns` | drivers/crypto/tegra-hv-vse-safety.c:5154-5163 | every suspend that has begun can return: the senders inside need only go on, no new one is needed |
| `Descriptors.ListPiecesRead` | drivers/crypto/tegra-hv-vse-safety.c:918-958 | the pieces, read in order, are exactly the first bytes of the list, none empty, each below 2^24 |
| `Descriptors.CutEntry` | drivers/crypto/tegra-hv-vse-safety.c:930-956 | the inner loop in place emits one entry's pieces up to the bound, each to its index, and tells whether one fell outside the destination |
| `Descriptors.PrepareList` | drivers/crypto/tegra-hv-vse-safety.c:904-973 | success exactly when the bound and every mapping allow it; what is written and where; with all entries mapped and a destination no longer than the bound, every store is inside iff the list has no more pieces than the destination |
| `Descriptors.UnmapList` | drivers/crypto/tegra-hv-vse-safety.c:1235-1240 | the callers' loop gives back exactly the mappings reported |
| `Descriptors.MapAndUnmap` | drivers/crypto/tegra-hv-vse-safety.c:904-973 | from building the list to the clean-up, on success and on every error, no mapping is left |
| `Descriptors.OnePieceExactly` | drivers/crypto/tegra-hv-vse-safety.c:919-959 | one descriptor is enough iff all bytes lie in the first entry that is not empty and stay below 2^24 |
| `Descriptors.OneEntryFits` | drivers/crypto/tegra-hv-vse-safety.c:1199-1210 | the fast hash path, one entry and at most `SHA_MAX_LEN` bytes, always needs just one |
| `Descriptors.CutBetweenBlocks` | drivers/crypto/tegra-hv-vse-safety.c:930-944 | with a block size that divides 2^24, lists of whole blocks are cut between blocks only |
| `Descriptors.CutInsideBlock` | drivers/crypto/tegra-hv-vse-safety.c:930-944 | with any other block size an entry of 2^24 bytes or more is cut inside a block |
| `Cmac.SplitIsRfc4493` | drivers/crypto/tegra-hv-vse-safety.c:2274-2289 | blocks and last-block length are those of section 2.4 of RFC 4493 |
| `Cmac.SplitUpdate` | drivers/crypto/tegra-hv-vse-safety.c:2274-2289 | a request that is not the last sends all its whole blocks and keeps no last block, dropping nothing iff it is whole blocks |
| `Cmac.SplitInTwo` | drivers/crypto/tegra-hv-vse-safety.c:2274-2289 | a request of whole blocks and a last one split as the two together do |
| `Cmac.CopiedStep` | drivers/crypto/tegra-hv-vse-safety.c:2340-2358 | one segment gives exactly its part of the last block, never more than it holds |
| `Cmac.CopyLastBlock` | drivers/crypto/tegra-hv-vse-safety.c:2340-2358 | for any segmentation the buffer ends up with the final bytes of the message, and is untouched behind them |
| `Cmac.DeliveredExactly` | drivers/crypto/tegra-hv-vse-safety.c:2321-2369 | the one descriptor sent and the last block give the engine the message, whatever lies behind the entry, iff the whole blocks lie in the first entry that is not empty and stay below 2^24 |
| `Cmac.DescriptorTooLong` | drivers/crypto/tegra-hv-vse-safety.c:2369-2369 | if they do not, memory behind the entry exists that makes the engine read another message |
| `Cmac.DeviceRequests` | drivers/crypto/tegra-hv-vse-safety.c:2620-2661 | for the character device's tables that is iff the request is at most 1 MiB and one block; beyond it a second descriptor is stored in a destination for one |
| `Cmac.DeviceRequestCutShort` | drivers/crypto/tegra-hv-vse-safety.c:2635-2661 | at 1 MiB and 32 bytes: two pieces, one descriptor, and the request is not delivered |
| `ChunkedBuffers.AllocBuf` | drivers/crypto/tegra-nvvse-cryptodev.c:165-213 | size / chunk + 1 chunks, or an error exactly when that exceeds 33 |
| `ChunkedBuffers.AeadTablesFit` | drivers/crypto/tegra-nvvse-cryptodev.c:1400-1406 | every accepted AEAD request fits 33 chunks, and the longest needs all 33 |
| `ChunkedBuffers.CopyChunks` | drivers/crypto/tegra-nvvse-cryptodev.c:1513-1535 | whole chunks and the rest extend the filled prefix by exactly the source bytes |
| `ChunkedBuffers.CopyText` | drivers/crypto/tegra-nvvse-cryptodev.c:1537-1585 | the text continues the filled prefix, topping up a partly filled chunk first |
| `ChunkedBuffers.CopyTag` | drivers/crypto/tegra-nvvse-cryptodev.c:1587-1616 | the tag continues it, also when it straddles a chunk edge or starts at one |
| `ChunkedBuffers.FillInput` | drivers/crypto/tegra-nvvse-cryptodev.c:1496-1616 | the table spans exactly assoc data, text and (decrypting) tag, for any chunk size above 16 |
| `ChunkedBuffers.ReadText` | drivers/crypto/tegra-nvvse-cryptodev.c:1640-1692 | the bytes handed to the user continue the part of the table already skipped or read |
| `ChunkedBuffers.ReadTag` | drivers/crypto/tegra-nvvse-cryptodev.c:1694-1720 | the same for the tag, also when it straddles a chunk edge |
| `ChunkedBuffers.ReadOutput` | drivers/crypto/tegra-nvvse-cryptodev.c:1640-1724 | from any table that spans assoc data, text and tag the copier recovers exactly text and tag |
| `ChunkedBuffers.LayoutRoundTrip` | drivers/crypto/tegra-nvvse-cryptodev.c:1496-1724 | what is filled in as decryption input is read back unchanged, or allocation fails for size alone |
| `ChunkedBuffers.CopyUserBuf` | drivers/crypto/tegra-nvvse-cryptodev.c:228-262 | the table starts with the user's bytes, or is untouched and the call is refused exactly when they are too many |
| `ChunkedBuffers.CopyKernBuf` | drivers/crypto/tegra-nvvse-cryptodev.c:264-297 | the user gets exactly the table's bytes, refused exactly when the buffer is too small |
| `CtrCounter.UpdateCounter` | drivers/crypto/tegra-nvvse-cryptodev.c:310-348 | adds exactly `size` to the 128-bit big-endian value in place, or fails exactly at 2^128 and changes nothing |
| `CtrCounter.ReadLimbs` | drivers/crypto/tegra-nvvse-cryptodev.c:319-322 | the four 32-bit limbs denote the 128-bit big-endian value of the bytes |
| `CtrCounter.AddLimbs` | drivers/crypto/tegra-nvvse-cryptodev.c:324-330 | the carry loop keeps the sum exact through all four limbs |
| `CtrCounter.Device.EncDec` | drivers/crypto/tegra-nvvse-cryptodev.c:1198-1357 | for every mode, direction and nonce mark, which bytes reach the engine as IV: the vector, the counter, the carried counter or zeros, and the first byte when a random one is wanted; and the counter carried over |
| `CtrCounter.OwnNonceIv` | drivers/crypto/tegra-nvvse-cryptodev.c:1268-1283 | with a nonce of the user's, or decrypting: the vector for CBC, the counter or the carried one for CTR, zeros where the IV plays no part |
| `CtrCounter.RandomNonceIv` | drivers/crypto/tegra-nvvse-cryptodev.c:1304-1313 | without one, the first byte is 1 on the first call and 0 later, and the other fifteen are as they would be |
| `CtrCounter.NextStart` | drivers/crypto/tegra-nvvse-cryptodev.c:1268-1282 | where the next user-nonce encryption starts, whatever other calls come between |
| `CtrCounter.AdjacentUses` | drivers/crypto/tegra-nvvse-cryptodev.c:1345-1357 | the next encryption starts where this one stopped iff this one is proper |
| `CtrCounter.CountersRunOn` | drivers/crypto/tegra-nvvse-cryptodev.c:1345-1357 | call k starts at the first counter plus all blocks used before, iff all calls but the last are proper |
| `CtrCounter.CounterReuse` | drivers/crypto/tegra-nvvse-cryptodev.c:1345-1357 | over every message, whatever its nonces and overflows, no counter value is used twice, wrap-around included, iff `KeepsApart` holds: all calls carry the counter on, all but the last are whole blocks and at most 2^128 blocks are used, or only the first call does not carry on and the rest, starting from zero, stop before it (appendix B of NIST SP 800-38A) |
| `CtrCounter.RestartReuse` | drivers/crypto/tegra-nvvse-cryptodev.c:1198-1203 | the second of these cases |
| `Qspi.PlanIsSound` | drivers/spi/spi-tegra210-quad.c:333-370 | every round has between 1 and 65536 packets, so the 16-bit block field holds it |
| `Qspi.PlanExactly` | drivers/spi/spi-tegra210-quad.c:357-367 | a packed round has the most packets that fit what is left and the buffer; an unpacked one as many as cover what is left, one to a word of the buffer |
| `Qspi.Engine.ModeExactly` | drivers/spi/spi-tegra210-quad.c:341-356 | packed are the transfers of more than three bytes, with as many packets in a FIFO word as fill it |
| `Qspi.RoundIsSound` | drivers/spi/spi-tegra210-quad.c:333-370 | a round of any allowed size moves something, stays in the buffer and ends on a packet or the end |
| `Qspi.UnpackedIsNarrow` | drivers/spi/spi-tegra210-quad.c:349-356 | unpacked transfers of whole words are below 32 bits per word |
| `Qspi.ProcessorRoundsFit` | drivers/spi/spi-tegra210-quad.c:1529-1535 | a round left to the processor fits the 64-word FIFO, and so do all later ones, which are not rechecked |
| `Qspi.CarriedWords` | drivers/spi/spi-tegra210-quad.c:384-416 | unpacking the FIFO words made from any data gives the data back, for every word width |
| `Qspi.WordsArrive` | drivers/spi/spi-tegra210-quad.c:384-416 | the words a sender makes from data are words that bring it to a receiver |
| `Qspi.ArrivedIsCarried` | drivers/spi/spi-tegra210-quad.c:429-463 | words that bring data, with any garbage above the bytes they bring, are read back as the data, and are as many as it takes |
| `Qspi.MaskedArrives` | drivers/spi/spi-tegra210-quad.c:443-455 | the receive mask changes only garbage: masked words still bring the same data, for each packet size |
| `Qspi.DeliveredIsStored` | drivers/spi/spi-tegra210-quad.c:421-542 | what a round stores is the data its words bring, masked or in whole words, and no garbage before its end |
| `Qspi.Engine.CalcParam` | drivers/spi/spi-tegra210-quad.c:333-370 | the parameters of each round, with the same mode every time |
| `Qspi.Engine.FillTx` | drivers/spi/spi-tegra210-quad.c:372-419 | the FIFO gets the next client bytes, no more words than it has room for, and the position advances by them |
| `Qspi.Engine.CopyTx` | drivers/spi/spi-tegra210-quad.c:465-506 | the same for the DMA buffer |
| `Qspi.Engine.SendAll` | drivers/spi/spi-tegra210-quad.c:1508-1625 | over all rounds, by processor or DMA and for any FIFO room, the wire carries exactly the client's buffer, and a round goes by DMA iff the controller may and its words do not fit the FIFO |
| `Qspi.StoreWords` | drivers/spi/spi-tegra210-quad.c:421-463 | received words are stored byte by byte at the position and nowhere else |
| `Qspi.Engine.ReceiveRound` | drivers/spi/spi-tegra210-quad.c:421-542 | one round stores the valid parts of what arrived behind what is already there; packed DMA stores whole FIFO words |
| `Qspi.Engine.ReceiveAll` | drivers/spi/spi-tegra210-quad.c:1508-1625 | if the words of every round bring the peer's data, with any garbage above it, the client's buffer ends up with exactly that data, and the memory behind it is untouched but for the last round's surplus |
| `Qspi.OverrunsExactly` | drivers/spi/spi-tegra210-quad.c:692-700 | that surplus is there iff a packed transfer whose length is not a multiple of four ends in a DMA round, and fills it up to one |
| `Qspi.CompletesExactly` | drivers/spi/spi-tegra210-quad.c:1524-1535 | positions grow, rounds run out, and they run out at the end iff unpacked or whole packets |
| `S2idle.InvStep` | drivers/cpuidle/cpuidle-tegra-auto.c:75-118 | every access of any CPU or the notifier keeps: set bits mean parked CPUs, scanned CPUs have theirs set, bits not to be cleared any more are newer than the pause |
| `S2idle.PausedTogether` | drivers/cpuidle/cpuidle-tegra-auto.c:86-102 | at every pause call all other online CPUs have their bit set and are in the wait loop |
| `S2idle.OnlyAClearBitReleases` | drivers/cpuidle/cpuidle-tegra-auto.c:106-113 | a set bit means parked, a CPU leaves only on a clear bit, and only the boot CPU clears one |
| `S2idle.NoneLeftBehind` | drivers/cpuidle/cpuidle-tegra-auto.c:106-107 | when the boot CPU is back, no CPU is held by a bit set before the latest pause |
| `S2idle.StuckWithoutPause` | drivers/cpuidle/cpuidle-tegra-auto.c:38-51 | without another pause parked CPUs stay parked, whatever the notifier does |
| `S2idle.ReentryParksAgain` | drivers/cpuidle/cpuidle-tegra-auto.c:24-31 | the resume value reads as suspend in a bool, so until PM_POST_SUSPEND a returning CPU parks again |
| `S2idle.EntryExactly` | drivers/cpuidle/cpuidle-tegra-auto.c:80-83 | a CPU that enters goes on to park iff the latest write to the flag is a suspend start or a resume start |
| `S2idle.BootEntryExactly` | drivers/cpuidle/cpuidle-tegra-auto.c:80-97 | the boot CPU goes on to wait for the others under the same condition |
| `S2idle.TestExactly` | drivers/cpuidle/cpuidle-tegra-auto.c:109-113 | a parked CPU that looks at its bit is running afterwards iff the bit is clear, and nothing else changes |
| `S2idle.WaveCompletes` | drivers/cpuidle/cpuidle-tegra-auto.c:75-118 | from every state a run can reach with the flag up and the boot CPU outside, the CPUs can park, the pause be made, and every CPU leave, with no bit left set |
| `Wmark.GetFreqIndex` | drivers/devfreq/tegra_wmark.c:66-83 | the first entry at or above the frequency; inside the table exactly when there is one |
| `Wmark.Governor.constructor` | drivers/devfreq/tegra_wmark.c:467-489 | the default tunables and index |
| `Wmark.Governor.TargetFreq` | drivers/devfreq/tegra_wmark.c:85-120 | for every event the target index is inside the table |
| `Wmark.Governor.UpdateThreshold` | drivers/devfreq/tegra_wmark.c:173-218 | the index of the current frequency and the thresholds around it, each side only when enabled; a frequency above the whole table has no index inside it, and is told apart |
| `Wmark.Governor.React` | drivers/devfreq/tegra_wmark.c:85-218 | an event moves the index to the clamped target and programs its thresholds |
| `Wmark.Governor.StoreLoadTarget` | drivers/devfreq/tegra_wmark.c:394-418 | the target is clamped to 1000 per mille and the thresholds are reprogrammed with it |
| `Wmark.Governor.StoreUpWmark` | drivers/devfreq/tegra_wmark.c:310-334 | the same for the upper margin |
| `Wmark.Governor.StoreDownWmark` | drivers/devfreq/tegra_wmark.c:352-376 | the same for the lower margin |
| `Wmark.StepsExactly` | drivers/devfreq/tegra_wmark.c:98-115 | for 32-bit steps C's mixed signed and unsigned sums give the target iff neither leaves the range of an int |
| `Wmark.ClampsSuffice` | drivers/devfreq/tegra_wmark.c:239-284 | with the steps the two step files let through, the index C computes is the target and inside the table, for every event |
| `Wmark.StepsTaken` | drivers/devfreq/tegra_wmark.c:98-113 | a consecutive event moves the index by the step set, an average one by one, stopping short only at the end of the table |
| `Wmark.ThresholdsOrdered` | drivers/devfreq/tegra_wmark.c:196-215 | consecutive and average thresholds are in order iff neither margin leaves 32 bits |
| `Wmark.UpperMargin` | drivers/devfreq/tegra_wmark.c:196-200 | the consecutive upper threshold is the per-mille margin above the average one, or 2^32 off iff the sum leaves 32 bits |
| `Wmark.LowerMargin` | drivers/devfreq/tegra_wmark.c:204-212 | the same below, for the lower margin |
| `Wmark.AveragesMeet` | drivers/devfreq/tegra_wmark.c:192-217 | the lower average threshold of an entry is the upper one of the entry below |
| `Wmark.NoPingPong` | drivers/devfreq/tegra_wmark.c:99-104 | after a move one way the next average event is never the way back |
| `Wmark.Converges` | drivers/devfreq/tegra_wmark.c:85-218 | under constant load the index moves one way, rests within max_state - 1 events, and rests at the next entry whose enabled average thresholds bracket the load |
| `Wmark.RestIsUnique` | drivers/devfreq/tegra_wmark.c:192-217 | load and start alone decide where it rests, whatever the order of events |
| `PodGov.TracksSlides` | drivers/devfreq/governor_pod_scaling.c:654-670 | a full ring plus a new load is the ring of the last loads, its maximum from the rescan |
| `PodGov.Governor.Rescan` | drivers/devfreq/governor_pod_scaling.c:656-663 | the circular loop ends for every size and finds the highest entry but the oldest |
| `PodGov.Governor.Remember` | drivers/devfreq/governor_pod_scaling.c:654-670 | recent_high stays the highest of the last min(count, size) loads since the last suspend |
| `PodGov.Governor.Suspend` | drivers/devfreq/governor_pod_scaling.c:586-600 | history and average are cleared |
| `PodGov.SafeBias` | drivers/devfreq/governor_pod_scaling.c:346-361 | the undamped request is non-negative for all loads iff the bias is at most 100 |
| `PodGov.BoostFollowsLoad` | drivers/devfreq/governor_pod_scaling.c:350-357 | more load never asks for less, and a load at its target asks for no change |
| `PodGov.FullBias` | drivers/devfreq/governor_pod_scaling.c:350-361 | with a bias of 100 the request is the frequency at which the same cycles meet the target, up to the largest boost |
| `PodGov.TooBusy` | drivers/devfreq/governor_pod_scaling.c:346-349 | a load above the maximum asks for a third of the highest frequency more and is not damped |
| `PodGov.DecideInRange` | drivers/devfreq/governor_pod_scaling.c:360-372 | request, average and damped request stay non-negative and small for every history |
| `PodGov.DecideBetween` | drivers/devfreq/governor_pod_scaling.c:363-369 | the new average lies between the old one and the request, the damped request between it and the undamped one |
| `PodGov.BoostFitsLong` | drivers/devfreq/governor_pod_scaling.c:351-354 | the boost product fits a signed 64-bit value |
| `PodGov.Governor.ScalingStateCheck` | drivers/devfreq/governor_pod_scaling.c:317-376 | no change inside the block window, else the damped decision clamped to the limits |
| `PodGov.FreqlistUp` | drivers/devfreq/governor_pod_scaling.c:385-396 | the least entry at or above the target, or the last one, through an int |
| `PodGov.IntKeeps` | drivers/devfreq/governor_pod_scaling.c:385-396 | an entry survives the int return type iff it is below 2^31 |
| `PodGov.ChosenWithinLimits` | drivers/devfreq/governor_pod_scaling.c:112-168 | with limits on table entries the choice is the least entry at or above the clamped request and within them |
| `PodGov.ChosenWithinAnyLimits` | drivers/devfreq/governor_pod_scaling.c:112-168 | for any limits it is within them iff some entry lies between clamped request and maximum |
| `PodGov.RangeExactly` | drivers/devfreq/governor_pod_scaling.c:112-135 | for a table in either order the range is exactly the frequencies inside the limits and between two entries, or a single one if there are none |
| `PodGov.NearestInRange` | drivers/devfreq/governor_pod_scaling.c:157-168 | a limited request is the nearest frequency in the range: itself inside, an end outside |
| `PodGov.AnswersStayWithinLimits` | drivers/devfreq/governor_pod_scaling.c:672-684 | with limits on entries below 2^31 Hz the answer to a request is the least entry at or above it once clamped, and lies within the limits |
| `PodGov.Governor.Scale` | drivers/devfreq/governor_pod_scaling.c:647-688 | the load is recorded first, in the window and in the smoothed cycles; the frequency answers the damped request the new history gives |
| `PodGov.Governor.Estimate` | drivers/devfreq/governor_pod_scaling.c:573-688 | each early answer and what it returns, the history untouched by them and cleared by a suspend; otherwise the load is recorded and a frequency decided |
| `PodGov.Governor.Evaluate` | drivers/devfreq/governor_pod_scaling.c:573-688 | after any run of evaluations, suspends and mode changes recent_high is the highest of the last min(count, size) loads since the last suspend |
| `SysTime.GetSystime` | drivers/nvpps/nvpps_main.c:202-236 | within one second the result is the time of the first or second nanosecond read, and not later than the paired TSC read |
| `SysTime.NotTorn` | drivers/nvpps/nvpps_main.c:202-236 | which of the two it is |
| `SysTime.NotAheadOfTsc` | drivers/nvpps/nvpps_main.c:208-234 | without a rollover, and in less than a second, the result is not later than the paired TSC read |
| `SysTime.ToleratedSpan` | drivers/nvpps/nvpps_main.c:202-236 | all schedules up to a span are right iff the span is at most one second |
| `SysTime.NeverBackwards` | drivers/nvpps/nvpps_main.c:202-236 | results of successive calls never go backwards |

## Left out

- Failures of the transport and of user copies: a send, an engine run or a `copy_from_user` that fails ends the modelled run; only the failures the table names are followed.
- The cryptography: compression, finalisation, AES and GHASH are arbitrary functions; the contents of the zero-length digests are one opaque value.
- ShaRequest.Context.Op: requests are at most `SHA_MAX_LEN`, the limit the character device enforces; a context that comes to hold more than a block is not followed further, since such a session is already shown not to be lossless.
- ShaTheorems.DigestIsReference: messages are below 2^64 bytes, the range of the length words.
- Mailbox.MailboxSafety: completions are modelled as wake-ups that may come at any time. That requests can be answered and the lock comes free is proved (`ExchangeReturns`, `LockComesFree`); that a waiter is woken before its timeout depends on scheduling and is not claimed.
- Quiesce.SuspendedIsQuiet: the watch also wants the interrupt-state lock; leaving that out only adds behaviours. Senders that hold no lock are not followed. A GPC-DMA node that is itself shut down after another was probed has no engine data, which is not modelled.
- Descriptors.PrepareList: a store outside the destination is told apart, but what it overwrites is not part of the model.
- Cmac.DeliveredExactly: the bus address is one number per entry; an entry behind another in the engine's address space by chance is one of the memories `beyond` ranges over.
- ChunkedBuffers.FillInput: a table is an array whose elements are whole chunks, so two entries that alias one another cannot be expressed.
- CtrCounter.Device.EncDec: key set-up and algorithm look-up are not modelled; one flag says whether the engine and the copies succeed. Modes other than CBC, ECB and CTR are handled elsewhere in the file.
- CtrCounter.CountersRunOn: requests carry at least one byte, as the interface header asks.
- Qspi.Engine.SendAll: half-duplex only. Full duplex uses one position for two directions and is not covered, nor are combined messages whose third transfer is a dummy.
- Wmark.Governor.UpdateThreshold: what the driver reads behind the table for a frequency above it is not modelled; the call then only says so.
- Qspi.Engine.ReceiveAll: the peer delivers all words of a round before its interrupt; error and timeout paths end a transfer. The message layer (dummy folding, chip select) is not modelled.
- S2idle.PausedTogether: the set of online CPUs does not change during a run, and entering the idle state reads the flag in one step.
- Wmark.Governor.React: the clamp and frequency switch between target and thresholds belong to the kernel's devfreq core, which is not part of this model beyond that clamp; the clock is assumed to reach the entry asked for.
- Wmark.ThresholdsOrdered: table entries are below 2^32 Hz.
- Wmark.Converges: average events only. A consecutive event may jump several entries past the load, and is not claimed to settle.
- PodGov.Governor.Estimate: frequencies lie between 1 MHz and 1 THz, busy time does not exceed total time, and debugfs tunables stay in sane ranges (bias up to 100, damp up to 10, target 1 to 1000); outside them C's widths overflow.
- SysTime.GetSystime: times are below 2^32 seconds, the range of the seconds register.
- Probe, remove, device tree, sysfs and debugfs plumbing, clocks, resets, regulators and logging.
- The remaining drivers of the repository (PMIC, RTC, pinctrl, hwmon, PWM, sensors, display, slave SPI and others), which are register updates or repeat the loops modelled here.
