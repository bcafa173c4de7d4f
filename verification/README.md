# nvc0 queries, inline index submission and the Kepler launch descriptor

A Dafny model of three pieces of the Gallium nvc0 driver (NVIDIA Fermi and Kepler).

1. **The query engine.**
   - A query is created with a storage layout that depends on its type.
   - Occlusion queries rotate through 32-byte records of a 256-byte region and replace the region when it is used up.
   - `begin` and `end` take a 32-bit sequence number and sample hardware counters with QUERY_GET commands.
   - A result is ready when the sequence number has landed or the fence has signalled. Each type decodes its record into a value.
   - Render conditions compare at the query's record and can wait on its sequence number.
   - Kepler performance-counter queries share eight multiprocessor counter slots, four per signal domain. Their per-processor samples are reduced into one 64-bit value by seven reductions.
   - The driver-specific query list reports which performance queries the screen offers.
2. **Draw submission.**
   - The primitive translation and the instanced loop of a non-indexed draw.
   - The push hint and the primitive-restart setup of an indexed draw.
   - The four inline index encoders:
     - 8-bit indices, four per word;
     - 16-bit indices, two per word;
     - 32-bit indices, one per word;
     - 32-bit indices shortened to 16-bit pairs.

     The encoders cut their words into packets of at most 2047 data words.
   - Vertex-element state creation: format fallback, packed output layout and the per-instance sets.
   - The vertex-buffer byte range of a draw.
3. **The compute launch descriptor.**
   - Its default contents.
   - The binding of a constant buffer: the 40-bit address split, the size and the bit in the 8-bit mask.

## How the model is built

The model is functional:
- Every C operation that changes state becomes a function. It takes the old state and returns the new state together with the commands it emitted.
- Commands are an abstract log (`Commands.Event`), not push-buffer words.
- The buffer manager, the fence and the record memory the GPU writes are inputs:
  - allocation outcome `AllocOracle`;
  - fence `signalled`;
  - whether a blocking wait fails, `boWaitFails`;
  - the record's 32-bit words.
- Machine words are bounded naturals (`Words.U32`, `Words.U64`).
- C's unsigned wrap-around is written out with `Wrap32`, `Wrap64`, `Sub32` and `Sub64`.
- Index data is `bv8`, `bv16` or `bv32`, so packing and unpacking are bit operations.

Constants defined in headers that are not part of this model (`nvc0_context.h` and the nouveau winsys header that defines `NV04_PFIFO_MAX_PACKET_LEN`) are fixed as follows:
- the push-buffer packet limit is 2047 words;
- 38 performance queries, counted from the name table;
- achieved occupancy is query 35;
- driver statistics are compiled out.

Query types, primitives and comparison modes are enumerations rather than their header numbers.

## Model

| member | source | states |
|---|---|---|
| Words.Wrap32 | src/gallium/drivers/nvc0/nvc0_query.c:235 | a `uint32_t` result is the value modulo 2^32, and is the value itself when it fits |
| Words.AlignUp | src/gallium/drivers/nvc0/nvc0_vbo.c:109 | `align(x, a)` for a of 1, 2 or 4 is the least multiple of a that is at least x |
| Query.FreeRegion | src/gallium/drivers/nvc0/nvc0_query.c:75-84 | freeing drops the buffer reference; a sub-allocation is freed now or on the current fence; nothing happens without a buffer |
| Query.Allocate | src/gallium/drivers/nvc0/nvc0_query.c:85-98 | the query gets a region iff the size is nonzero and the allocation and the map both succeed; the call succeeds iff the size is zero or the region is mapped; on success the offset is the base; nothing else in the query or context changes |
| Query.Layout | src/gallium/drivers/nvc0/nvc0_query.c:120-170 | a type has a layout iff query creation accepts it; only occlusion queries rotate, with a stride of 32 in a 256-byte region |
| Query.Create | src/gallium/drivers/nvc0/nvc0_query.c:109-187 | unknown types create nothing and change nothing; a created query has the requested type and starts READY with sequence 0 and no fence |
| QueryLemmas.FreeNowIffReady | src/gallium/drivers/nvc0/nvc0_query.c:75-84 | the old sub-allocation is freed immediately exactly when the query is READY, otherwise on the current fence, after the buffer reference is dropped |
| QueryLemmas.CreateLayout | src/gallium/drivers/nvc0/nvc0_query.c:120-184 | creation succeeds iff the type is known and its storage is empty or could be mapped; a query rotates iff it is an occlusion query |
| QueryLemmas.CreateClearsSequenceWord | src/gallium/drivers/nvc0/nvc0_query.c:182-184 | a 32-bit non-rotating query starts with word 0 of its record cleared |
| QueryLemmas.LayoutHoldsRecord | src/gallium/drivers/nvc0/nvc0_query.c:120-147 | every 16-byte report begin and end ask for, the nested occlusion report, the four reinitialisation words and the words decoding reads lie inside the record; a rotating query's record is its 32-byte stride |
| QueryLemmas.PmLayoutHoldsRecord | src/gallium/drivers/nvc0/nvc0_query.c:844-846 | a performance query's region holds 12 words per processor, and every sequence word begin clears lies inside it |
| QueryLemmas.CreateRotating | src/gallium/drivers/nvc0/nvc0_query.c:178-181 | a new occlusion query sits one stride before its base, so that its first begin advances onto the base |
| QueryLemmas.PositionStep | src/gallium/drivers/nvc0/nvc0_query.c:204-211 | advancing the 32-bit offset moves the position in the region by the same amount modulo 2^32 |
| QueryLemmas.RotateWithin | src/gallium/drivers/nvc0/nvc0_query.c:204-211 | from any record but the last, rotation moves one stride on in the same region; the wrapped start position moves to 0 |
| QueryLemmas.RotateRenews | src/gallium/drivers/nvc0/nvc0_query.c:204-211 | from the last record, rotation reallocates and moves to the base of the new region |
| QueryLemmas.RotateInRegion | src/gallium/drivers/nvc0/nvc0_query.c:204-211 | rotation never leaves a whole record inside the region |
| QueryLemmas.BeginAfterReinit | src/gallium/drivers/nvc0/nvc0_query.c:213-295 | begin samples at the record reinitialisation chose and only appends to the command log |
| QueryLemmas.BeginInitialisesRecord | src/gallium/drivers/nvc0/nvc0_query.c:222-235 | begin of a rotating query writes, right after the rotation's commands and at the record it rotated to, the previous sequence number at +0, 1 at +4, its new sequence number at +16 and 0 at +20 |
| QueryLemmas.BeginRotatingRecord | src/gallium/drivers/nvc0/nvc0_query.c:222-235 | the record a rotating query begins on holds the previous sequence number in its sequence word, which differs from the new one, so it cannot read as landed early; its comparison word holds the new sequence number |
| QueryLemmas.BeginInRegion | src/gallium/drivers/nvc0/nvc0_query.c:220-235 | begin keeps a rotating query on a whole record inside its region |
| Query.Begin | src/gallium/drivers/nvc0/nvc0_query.c:213-295 | begin makes the query ACTIVE with sequence + 1 modulo 2^32; an occlusion query records the nesting depth and raises the active count by one; other fields are unchanged |
| QueryLemmas.OcclusionBegin | src/gallium/drivers/nvc0/nvc0_query.c:238-249 | an occlusion begin records how many occlusion queries were active, counts itself in, and enables sample counting iff it is the first |
| QueryLemmas.OcclusionEnd | src/gallium/drivers/nvc0/nvc0_query.c:313-320 | an occlusion end counts itself out and disables sample counting iff it was the last |
| QueryLemmas.OcclusionBalanced | src/gallium/drivers/nvc0/nvc0_query.c:238-320 | a begin/end pair leaves the number of active occlusion queries as it was, and end keeps the sequence number begin took |
| Query.Unbegun | src/gallium/drivers/nvc0/nvc0_query.c:304-309 | ending a query that is not ACTIVE first rotates it and takes a new sequence number; an ACTIVE query is left alone |
| Query.End | src/gallium/drivers/nvc0/nvc0_query.c:297-375 | end keeps the sequence of an ACTIVE query and advances any other; the occlusion count drops by one only for occlusion queries; the slot table stays well formed |
| QueryLemmas.EndGetsAtRecordStart | src/gallium/drivers/nvc0/nvc0_query.c:312-360 | every type but the performance queries samples a counter at the start of its record at end |
| QueryLemmas.EndSampleFirst | src/gallium/drivers/nvc0/nvc0_query.c:312-360 | the first command end appends writes the query's sequence number at the record start |
| QueryLemmas.EndWritesLandingWord | src/gallium/drivers/nvc0/nvc0_query.c:297-360 | end writes, with the sequence number the query ends with, the word that readiness and the fifo wait compare |
| QueryLemmas.BeginEndSameCounters | src/gallium/drivers/nvc0/nvc0_query.c:250-278 | for the differencing types, begin samples the same counters as end, a fixed span later in the record |
| Query.Update | src/gallium/drivers/nvc0/nvc0_query.c:377-387 | a query becomes READY iff it was, or its fence signalled (64-bit) or its first word equals its sequence (32-bit); only the state changes |
| Query.Decode | src/gallium/drivers/nvc0/nvc0_query.c:430-471 | every type the engine decodes yields a value; performance and unknown types yield none |
| QueryLemmas.PipelineDecode | src/gallium/drivers/nvc0/nvc0_query.c:461-464 | each of the ten pipeline statistics is its end sample minus its begin sample of the same counter, modulo 2^64 |
| QueryLemmas.CountsDecode | src/gallium/drivers/nvc0/nvc0_query.c:440-447 | primitive and stream-output counts are end minus begin samples of the same counters |
| QueryLemmas.ElapsedDecode | src/gallium/drivers/nvc0/nvc0_query.c:458-460 | elapsed time is the end timestamp minus the begin timestamp |
| QueryLemmas.OcclusionDecode | src/gallium/drivers/nvc0/nvc0_query.c:434-439 | the occlusion count is the difference of the two sample words, and the occlusion predicate holds iff that count is nonzero |
| QueryLemmas.OverflowAgreesWithCount | src/gallium/drivers/nvc0/nvc0_query.c:440-450 | the overflow predicate holds iff the generated-primitives difference of the same record is nonzero |
| QueryLemmas.DisjointAgreesWithElapsed | src/gallium/drivers/nvc0/nvc0_query.c:454-460 | a disjoint-timestamp query reports a 1 GHz frequency, and disjoint iff the elapsed difference is nonzero |
| QueryLemmas.D64Halves | src/gallium/drivers/nvc0/nvc0_query.c:398 | the 64-bit view of the record pairs consecutive 32-bit words, low word first |
| QueryLemmas.ResultReadiness | src/gallium/drivers/nvc0/nvc0_query.c:412-473 | a result is delivered iff the query was ready or has landed, or a blocking wait succeeded; it is the decoded record; the new state is READY, FLUSHED after a non-blocking miss, or unchanged after a failed wait |
| QueryLemmas.KickOnce | src/gallium/drivers/nvc0/nvc0_query.c:415-422 | a non-blocking miss flushes the commands once; asking again while FLUSHED changes nothing |
| RenderCondition.FifoWait | src/gallium/drivers/nvc0/nvc0_query.c:476-492 | the GPU waits for the query's sequence number |
| RenderCondition.Comparison | src/gallium/drivers/nvc0/nvc0_query.c:517-540 | the overflow predicate compares not-equal and always waits; occlusion queries wait as asked; any other type keeps the unset comparison |
| RenderCondition.OcclusionComparison | src/gallium/drivers/nvc0/nvc0_query.c:524-535 | an outermost occlusion query renders iff its count is nonzero; a nested one always renders iff the caller does not wait |
| RenderCondition.RenderCondition | src/gallium/drivers/nvc0/nvc0_query.c:494-551 | the query and mode are stored; with no query rendering is unconditional; otherwise the last command compares at the query's record |
| RenderCondition.WaitsIff | src/gallium/drivers/nvc0/nvc0_query.c:503-543 | the GPU waits iff there is a query and the caller asked to wait or the query is the overflow predicate |
| RenderCondition.PredicatesNeverNegated | src/gallium/drivers/nvc0/nvc0_query.c:502-535 | a predicate query never compares equal and never disables rendering |
| RenderCondition.WaitMatchesEnd | src/gallium/drivers/nvc0/nvc0_query.c:476-492 | the word the GPU waits on is one that the query's end writes with its sequence number |
| PmConfig.PmQueryConfig | src/gallium/drivers/nvc0/nvc0_query.c:767-807 | every table entry has one to four channels in domain A or B; the 32 raw counters are single-channel sums and the six metrics are not |
| PmConfig.RawEntriesValid | src/gallium/drivers/nvc0/nvc0_query.c:769-800 | each raw-counter entry is one channel, summed |
| PmConfig.MetricEntriesValid | src/gallium/drivers/nvc0/nvc0_query.c:801-806 | each metric entry has two channels and a reduction other than a sum |
| PmConfig.NeedStep | src/gallium/drivers/nvc0/nvc0_query.c:826-827 | the per-domain channel count grows one channel at a time |
| CounterSlots.InitialWf | src/gallium/drivers/nvc0/nvc0_query.c:829-830 | the empty slot table is well formed: each domain's active count equals its occupied slots |
| CounterSlots.Occupied | src/gallium/drivers/nvc0/nvc0_query.c:829-830 | a domain has at most four occupied slots, and exactly four iff all its slots are taken |
| CounterSlots.FirstFree | src/gallium/drivers/nvc0/nvc0_query.c:860-866 | the search ends at a slot of the domain, and inside the domain iff the domain has room |
| CounterSlots.FreeFrom | src/gallium/drivers/nvc0/nvc0_query.c:860-866 | the search stops at the first free slot, with every slot it passed taken |
| CounterSlots.StepSound | src/gallium/drivers/nvc0/nvc0_query.c:848-866 | one channel in a domain with room takes that domain's lowest free slot and keeps the table well formed |
| CounterSlots.OccupiedTake | src/gallium/drivers/nvc0/nvc0_query.c:858-863 | taking a free slot raises its domain's occupancy by one and leaves the other domain's alone |
| CounterSlots.AssignCounts | src/gallium/drivers/nvc0/nvc0_query.c:848-866 | assigning the channels keeps the table well formed and raises each domain's count by the channels it needs |
| CounterSlots.AssignOwned | src/gallium/drivers/nvc0/nvc0_query.c:860-866 | every channel gets a slot that was free and now belongs to the query |
| CounterSlots.AssignDistinct | src/gallium/drivers/nvc0/nvc0_query.c:860-866 | no two channels share a slot |
| CounterSlots.AssignInDomain | src/gallium/drivers/nvc0/nvc0_query.c:860-866 | every channel's slot lies in its own domain |
| CounterSlots.AssignLowest | src/gallium/drivers/nvc0/nvc0_query.c:860-866 | every slot of a channel's domain below the one it gets was, at its turn, either taken before the assignment or given to an earlier channel |
| CounterSlots.AssignKeeps | src/gallium/drivers/nvc0/nvc0_query.c:860-866 | occupied slots keep their owner, and each slot whose owner changes is one of the channels' slots |
| CounterSlots.Begin | src/gallium/drivers/nvc0/nvc0_query.c:825-866 | a query that does not fit changes nothing and emits nothing; one that fits leaves counting on, switching it on first if it was off, and no later command switches it on again |
| CounterSlots.BeginRefusesIffFull | src/gallium/drivers/nvc0/nvc0_query.c:825-833 | begin leaves the slot table as it was iff the query's channels do not fit beside the active ones |
| CounterSlots.EnableOnce | src/gallium/drivers/nvc0/nvc0_query.c:838-842 | counting is switched on by at most one command |
| CounterSlots.AssignNoEnable | src/gallium/drivers/nvc0/nvc0_query.c:848-866 | the slot programming never switches counting on |
| CounterSlots.BeginCounts | src/gallium/drivers/nvc0/nvc0_query.c:838-866 | begin of a query that fits switches counting on and raises each domain's count by what the query needs |
| CounterSlots.BeginSlots | src/gallium/drivers/nvc0/nvc0_query.c:848-866 | begin gives each channel a distinct slot of its own domain that was free and now belongs to the query |
| CounterSlots.BeginLowest | src/gallium/drivers/nvc0/nvc0_query.c:860-866 | each channel's slot is the lowest one of its domain left free at its turn: every lower slot was taken before begin or given to an earlier channel |
| CounterSlots.BeginOrdered | src/gallium/drivers/nvc0/nvc0_query.c:860-866 | channels of the same domain get ascending slots in channel order |
| CounterSlots.BeginFrame | src/gallium/drivers/nvc0/nvc0_query.c:848-866 | begin disturbs no slot that another query holds and no slot index past the query's channels |
| CounterSlots.OccupiedGive | src/gallium/drivers/nvc0/nvc0_query.c:916-921 | releasing a slot lowers its domain's occupancy by one and leaves the other domain's alone |
| CounterSlots.ReleaseWf | src/gallium/drivers/nvc0/nvc0_query.c:916-921 | releasing a query's slots keeps the table well formed |
| CounterSlots.ReleaseOwners | src/gallium/drivers/nvc0/nvc0_query.c:916-921 | release frees exactly the query's slots and leaves every other slot alone |
| CounterSlots.DisableAll | src/gallium/drivers/nvc0/nvc0_query.c:910-914 | counting is switched off on exactly the occupied slots |
| CounterSlots.EndSound | src/gallium/drivers/nvc0/nvc0_query.c:884-921 | end keeps the table well formed, frees exactly the query's slots, and switches off every occupied slot |
| Query.PmBegin | src/gallium/drivers/nvc0/nvc0_query.c:825-866 | a performance begin that does not fit changes nothing; one that fits appends the switch-on (when counting was off), then the clear of every processor's sequence word, then the slot programming |
| QueryLemmas.PmBeginSlots | src/gallium/drivers/nvc0/nvc0_query.c:815-882 | a performance begin that fits gives each channel a slot that was free and is now the query's |
| QueryLemmas.PmEndReleases | src/gallium/drivers/nvc0/nvc0_query.c:884-930 | a performance end frees exactly the query's slots and launches the readback with the query's sequence number |
| MetricAggregate.ColSum64 | src/gallium/drivers/nvc0/nvc0_query.c:996-999 | the `uint64_t` running sum of one channel never wraps: it is the exact sum |
| MetricAggregate.Total64 | src/gallium/drivers/nvc0/nvc0_query.c:996-999 | the SUM accumulation over all channels and processors is the exact total |
| MetricAggregate.SumOp | src/gallium/drivers/nvc0/nvc0_query.c:996-1000 | SUM is the exact total times num over den |
| MetricAggregate.OrAllUpper | src/gallium/drivers/nvc0/nvc0_query.c:1002-1006 | the OR reduction contains every bit of every sample |
| MetricAggregate.OrAllLeast | src/gallium/drivers/nvc0/nvc0_query.c:1002-1006 | the OR reduction lies within any word that contains every sample, so it is the least such word |
| MetricAggregate.AndAllLower | src/gallium/drivers/nvc0/nvc0_query.c:1009-1013 | the AND reduction lies within every sample |
| MetricAggregate.AndAllGreatest | src/gallium/drivers/nvc0/nvc0_query.c:1009-1013 | the AND reduction contains every bit that all samples share, so it is the greatest such word |
| MetricAggregate.BitwiseOp | src/gallium/drivers/nvc0/nvc0_query.c:1007 | the scaled OR/AND word is `v * num / den` when the 32-bit product does not wrap, and stays below 2^32 |
| MetricAggregate.RelSumMM | src/gallium/drivers/nvc0/nvc0_query.c:1016-1023 | REL_SUM_MM is zero when the first sum is zero; when the second sum is at most the first, it is the exact ratio and at most num/den |
| MetricAggregate.RelSumExact | src/gallium/drivers/nvc0/nvc0_query.c:1023 | without wrap-around the 64-bit REL_SUM_MM arithmetic equals the exact formula |
| MetricAggregate.DivSumM0 | src/gallium/drivers/nvc0/nvc0_query.c:1025-1031 | DIV_SUM_M0 is zero when processor 0's second sample is zero; it traps iff the 32-bit divisor wraps to zero; otherwise it is the floor of the scaled sum over that divisor |
| MetricAggregate.DivSumM0DenominatorOne | src/gallium/drivers/nvc0/nvc0_query.c:801 | the only DIV_SUM_M0 entry has denominator 1, so its 32-bit divisor cannot wrap; every table entry but AVG_DIV_M0 gives a value as written, and every one does when corrected |
| MetricAggregate.AvgDivMM | src/gallium/drivers/nvc0/nvc0_query.c:1033-1039 | AVG_DIV_MM is the bare ratio sum when no processor is counted as used, and otherwise the floor of that sum over the used count times den |
| MetricAggregate.MpUsedCounts | src/gallium/drivers/nvc0/nvc0_query.c:1034-1035 | the corrected used-processor count is zero iff no processor read has a nonzero first sample, and equals the number read iff all have |
| MetricAggregate.MpUsedShifted | src/gallium/drivers/nvc0/nvc0_query.c:1035 | the count as written looks at rows 1..mp instead of 0..mp-1: it differs from the corrected count by row 0 and row mp |
| MetricAggregate.MpUsedMissesProcessorZero | src/gallium/drivers/nvc0/nvc0_query.c:1035 | with one processor whose sample is nonzero, the count as written is 0 where the corrected count is 1 |
| MetricAggregate.AvgDivM0 | src/gallium/drivers/nvc0/nvc0_query.c:1041-1050 | AVG_DIV_M0 with the divisor taken exactly: zero when either factor is zero, otherwise the floor of the scaled sum over processor 0's sample times the used count times den |
| MetricAggregate.AvgDivM0AsWritten | src/gallium/drivers/nvc0/nvc0_query.c:1041-1050 | AVG_DIV_M0 as written: zero when either factor is zero; it traps iff the divisor taken modulo 2^32 is zero; otherwise the floor of the scaled sum over that divisor |
| MetricAggregate.AvgDivM0AgreesWithoutWrap | src/gallium/drivers/nvc0/nvc0_query.c:1045-1047 | while the divisor fits in 32 bits, the code as written and the corrected reduction agree |
| MetricAggregate.AvgDivM0DivisorWraps | src/gallium/drivers/nvc0/nvc0_query.c:1041-1047 | three processors read, processor 0's clock sample 2^31, rows 1 and 2 nonzero: as written two are counted, the divisor wraps to zero and sm_efficiency traps, where the corrected reduction gives a value |
| MetricAggregate.AvgDivM0InTable | src/gallium/drivers/nvc0/nvc0_query.c:806 | metric-sm_efficiency uses AVG_DIV_M0 with 100/1 |
| MetricAggregate.Aggregate | src/gallium/drivers/nvc0/nvc0_query.c:996-1051 | the metric value as written: SUM is the scaled total; the reduction traps iff DIV_SUM_M0's or AVG_DIV_M0's 32-bit divisor (the latter with the used count over rows 1..mp) is zero; the zero cases of REL_SUM_MM, DIV_SUM_M0, AVG_DIV_M0 and AVG_DIV_MM |
| MetricAggregate.AggregateCorrected | src/gallium/drivers/nvc0/nvc0_query.c:1033-1050 | the averaging reductions as meant: processors 0..mp-1 counted and the AVG_DIV_M0 divisor taken exactly; only a wrapped DIV_SUM_M0 divisor traps, and both averages are the floor of their quotient |
| MetricAggregate.AggregateAgrees | src/gallium/drivers/nvc0/nvc0_query.c:996-1051 | the two agree on every reduction that does not average, and on the averaging ones whenever row 0 and row mp are alike in being zero and the AVG_DIV_M0 divisor fits in 32 bits |
| MetricAggregate.OccupancyOnOneProcessor | src/gallium/drivers/nvc0/nvc0_query.c:1033-1039 | achieved occupancy on one processor with samples (1, 1) is 200 as written and 3 corrected |
| MetricAggregate.Samples | src/gallium/drivers/nvc0/nvc0_query.c:976-994 | the sample of processor p and channel c is record word 12p + ctr[c]; unread entries keep their stale values |
| MetricAggregate.MpRead | src/gallium/drivers/nvc0/nvc0_query.c:969 | the processors read are the compute processor count capped at 32 |
| MetricAggregate.PmResult | src/gallium/drivers/nvc0/nvc0_query.c:964-1055 | a performance result is not ready iff some processor's sequence word has not landed and the call does not wait or the wait fails; otherwise it is the as-written reduction of the samples, or a division by zero exactly when that reduction traps |
| Query.PmQueryResult | src/gallium/drivers/nvc0/nvc0_query.c:408-410 | a performance query's result is not ready under the same landing condition, is otherwise the as-written reduction of the first min(processors, 32) records, and divides by zero exactly when that reduction traps, which only sm_efficiency can |
| DriverQueryInfo.QueryCount | src/gallium/drivers/nvc0/nvc0_query.c:1063-1070 | 38 queries on Kepler with a recent enough kernel interface, none otherwise |
| DriverQueryInfo.GetDriverQueryInfo | src/gallium/drivers/nvc0/nvc0_query.c:1057-1097 | without an info record only the count is returned; with one the result is 1 iff the id is listed and 0 otherwise |
| DriverQueryInfo.ListedIffCreatable | src/gallium/drivers/nvc0/nvc0_query.c:1083-1090 | an id is listed iff query creation accepts the type it reports |
| DriverQueryInfo.UnlistedNotCreatable | src/gallium/drivers/nvc0/nvc0_query.c:1091-1096 | an unlisted id reports maximum 0 and a type that creation rejects |
| DriverQueryInfo.MaxValues | src/gallium/drivers/nvc0/nvc0_query.c:1086-1087 | counters and rate metrics range over 64 bits; from achieved occupancy on, the maximum is 100 |
| Draw.PrimGl | src/gallium/drivers/nvc0/nvc0_vbo.c:430-457 | a primitive maps to points iff it is points or not listed |
| Draw.PrimGlBijective | src/gallium/drivers/nvc0/nvc0_vbo.c:430-457 | the translation is a bijection between the listed primitives and the hardware ones |
| Draw.DrawArrays | src/gallium/drivers/nvc0/nvc0_vbo.c:466-494 | a nonzero index bias is reset first; then each of the instances begins, names the vertex range and ends, and every instance after the first continues the instance count |
| Draw.PushHint | src/gallium/drivers/nvc0/nvc0_vbo.c:705-707 | the hint needs an indexed draw; without wrap-around it holds iff the index range spans at least twice the count |
| Draw.PushHintReversedRange | src/gallium/drivers/nvc0/nvc0_vbo.c:705-707 | a reversed index range wraps around and asks for pushing |
| Draw.RestartSetup | src/gallium/drivers/nvc0/nvc0_vbo.c:755-779 | the draw shortens iff its maximum index and, with restart, its restart index fit in 16 bits; the restart index is sent iff restart is on; the state follows the draw |
| Draw.ShortenedIndicesRoundTrip | src/gallium/drivers/nvc0/nvc0_vbo.c:756-783 | when the draw shortens, pairing its indices loses nothing |
| IndexInline.UnpackPack | src/gallium/drivers/nvc0/nvc0_vbo.c:515-519 | unpacking a packed word gives back its lanes |
| IndexInline.PackUnpack | src/gallium/drivers/nvc0/nvc0_vbo.c:515-519 | every word is the packing of its lanes, and each lane fits its width |
| IndexInline.PackWordsRoundTrip | src/gallium/drivers/nvc0/nvc0_vbo.c:510-521 | unpacking the packed words gives back the indices |
| IndexInline.Packetize | src/gallium/drivers/nvc0/nvc0_vbo.c:555-564 | packets hold 1 to 2047 words, each reserves its header and words, they carry the method asked for, and together they hold every word |
| IndexInline.DecodePacketize | src/gallium/drivers/nvc0/nvc0_vbo.c:555-564 | cutting into packets changes nothing about what decodes |
| IndexInline.ChunksRoundTrip | src/gallium/drivers/nvc0/nvc0_vbo.c:510-521 | the packed loop decodes to its indices, keeps to the packet limits and sends one word per lane group |
| IndexInline.Lone | src/gallium/drivers/nvc0/nvc0_vbo.c:502-509 | the lone-index packet decodes to exactly the lone indices |
| IndexInline.LoneThenPackedSound | src/gallium/drivers/nvc0/nvc0_vbo.c:502-521 | lone indices then packed ones decode to the input when every index fits its lane, keep to the packet limits, and send count mod k plus count div k words |
| IndexInline.EncodeU08Sound | src/gallium/drivers/nvc0/nvc0_vbo.c:496-522 | the 8-bit encoder round-trips, keeps to the packet limits and sends `count & 3` lone words plus one word per four indices |
| IndexInline.EncodeU16Sound | src/gallium/drivers/nvc0/nvc0_vbo.c:524-547 | the 16-bit encoder round-trips, keeps to the limits and sends the lone word plus one word per pair |
| IndexInline.EncodeU32Sound | src/gallium/drivers/nvc0/nvc0_vbo.c:549-565 | the 32-bit encoder round-trips with one word per index |
| IndexInline.EncodeU32ShortSound | src/gallium/drivers/nvc0/nvc0_vbo.c:567-590 | pairing 32-bit indices keeps to the limits and round-trips when every index fits in 16 bits |
| IndexInline.U32ShortLosesWideIndex | src/gallium/drivers/nvc0/nvc0_vbo.c:584-586 | an index too wide for 16 bits does not survive pairing |
| IndexInline.U32ShortAsWrittenUnderReserves | src/gallium/drivers/nvc0/nvc0_vbo.c:573-577 | as written, the lone index of an odd count is sent in a packet that reserves fewer words than it writes |
| IndexInline.Widen8 | src/gallium/drivers/nvc0/nvc0_vbo.c:507 | widening 8-bit indices keeps each value and its length, and each fits a byte lane |
| VertexLayout.FetchFormat | src/gallium/drivers/nvc0/nvc0_vbo.c:74-88 | a format the hardware fetches is kept; one it cannot fetch falls back to the float format; there is none iff the format has no hardware form and not 1-4 components |
| VertexLayout.ChannelAlign | src/gallium/drivers/nvc0/nvc0_vbo.c:99-101 | the alignment is 1, 2 or 4, and 4 iff the first channel is not one or two bytes |
| VertexLayout.PackedStep | src/gallium/drivers/nvc0/nvc0_vbo.c:109-112 | placing the next element at the aligned packed size keeps the packing |
| VertexLayout.InstanceStep | src/gallium/drivers/nvc0/nvc0_vbo.c:90-93 | an element joins the per-instance sets iff it has a divisor |
| VertexLayout.VertexStateCreate | src/gallium/drivers/nvc0/nvc0_vbo.c:47-126 | the state fails iff some element can be neither fetched nor converted; otherwise each element has its fetch format, the elements are packed at their alignments without overlap within a 4-aligned size, conversion is needed iff some format was replaced, and the per-instance sets are exactly the elements and buffers with a divisor |
| VertexLayout.VbufRange | src/gallium/drivers/nvc0/nvc0_vbo.c:179-193 | a buffer read per instance is used whole |
| VertexLayout.VbufRangeCovers | src/gallium/drivers/nvc0/nvc0_vbo.c:179-193 | without wrap-around, the range of a per-vertex buffer starts at the first vertex, ends where the last ends, and holds every vertex in between |
| LaunchDesc.InitDefault | src/gallium/drivers/nvc0/nve4_compute.h:66-74 | every field of the default descriptor is zero except three magic words; no constant buffer is bound |
| LaunchDesc.SetCb | src/gallium/drivers/nvc0/nve4_compute.h:76-93 | the slot holds the low 32 bits and bits 32-39 of buffer address plus base, and the size; the slot's mask bit is set; other slots, other mask bits and all other fields are unchanged |
| LaunchDesc.SetBit | src/gallium/drivers/nvc0/nve4_compute.h:92 | setting a mask bit leaves the other bits alone |
| LaunchDesc.ClearBit | src/gallium/drivers/nvc0/nve4_compute.h:103 | clearing a mask bit leaves the other bits alone |
| LaunchDesc.SetCtxCb | src/gallium/drivers/nvc0/nve4_compute.h:95-111 | with no buffer only the slot's mask bit is cleared; with one, the slot holds bits 0..39 of the buffer object's address plus the resource and buffer offsets, the buffer's full size and its mask bit; other slots, other mask bits and all other fields are unchanged |
| LaunchDesc.SetCtxCbAsWritten | src/gallium/drivers/nvc0/nve4_compute.h:80-108 | as written, the stored size is the buffer size modulo 64 KiB |
| LaunchDesc.FullSizeBufferTruncated | src/gallium/drivers/nvc0/nve4_compute.h:80-90 | below 64 KiB both bindings agree; a 64 KiB buffer, which the size assertion admits, is recorded with size 0 as written |
| LaunchDesc.DefaultThenBind | src/gallium/drivers/nvc0/nve4_compute.h:66-93 | binding one slot of the default descriptor leaves exactly that slot's bit in the mask |

## Left out

- Push-buffer encoding. Method numbers, subchannels, packet headers other than the inline-index packets, `PUSH_SPACE` for anything but those packets, and buffer-context references are left out. Commands are abstract events.
- The readback compute program (`nve4_read_mp_pm_counters_code`), its binding and the grid launch. A performance end logs one event carrying the query's sequence number.
- The re-activation of other queries' counter functions after a performance end (nvc0_query.c:934-950). It only re-emits configuration.
- Driver statistics (`NOUVEAU_ENABLE_DRIVER_STATISTICS`). They are compiled out, so no statistics query exists.
- `nvc0_query_destroy`, `nvc0_so_target_save_offset`, `nvc0_query_pushbuf_submit` and the init hooks. They only plumb into the state tracker.
- RenderCondition.RenderCondition: the comparison left unset for a non-predicate query is an arbitrary input mode (C reads an uninitialised variable there).
- The sentinel clearing at performance begin (nvc0_query.c:845-846). The modelled events follow the code's word `10i + 10`, but readiness reads word `12p + 10` (line 983). The model keeps both as written and proves nothing relating them.
- MetricAggregate.Aggregate: states the zero, SUM and trap cases; the value of each ratio reduction is stated by the per-reduction member it calls.
- The row past the processors read. As written, the used-processor count reads `count[mp_count]`, which is never filled and lies past the 32-row array when 32 processors are read. The model gives the sample matrix a 33rd row and takes that row, like every entry the readback does not fill, from an input of stale values.
- The pixel-format tables. Hardware formats, component counts, channel sizes and block sizes are inputs (`FormatInfo`, `FloatTable`).
- `MALLOC` failure in vertex-state creation. An allocation failure is not modelled.
- The `translate` key fields beyond the output format and offset, and `translate_create`. They belong to the translate module.
- The element's hardware word encoding (`BUFFER__SHIFT`, `state_alt` offset bits). The model keeps the format and offset as numbers.
- Per-instance bitmasks. They are modelled as sets of element and buffer numbers; the source's `1 << i` overflow past 32 elements is not modelled.
- `nvc0_draw_elements`, `nvc0_draw_stream_output`, the vertex-buffer validation and user-buffer upload. The model covers only the index encoders and the restart and shorten decisions the indexed path takes.
- VertexLayout.VbufRange: stated in full only without 32-bit wrap-around (VbufRangeCovers).
- Draw.PushHint: the equivalence is stated only without wrap-around; the wrapped case is shown by an example.
- The dangling record pointer after a failed rotation. The source keeps using `q->data` after `nvc0_query_allocate` fails; the model keeps the old base and offset and reports nothing else.
- The `STATIC_ASSERT` on the descriptor layout (nve4_compute.h:60). Byte offsets are not modelled; fields are named record entries.
- The context constant buffer type (`nvc0_constbuf`, declared in `nvc0_context.h`) is not part of this model. Its size is taken as a 32-bit value.
- LaunchDesc.SetCb: the debug assertions `index < 8`, aligned base and size of at most 64 KiB are preconditions.

## Findings

| source | as written | input that shows it | evidently intended | confidence | as-written member | corrected member |
|---|---|---|---|---|---|---|
| src/gallium/drivers/nvc0/nvc0_query.c:1035, 1043 | the used-processor count of AVG_DIV_MM and AVG_DIV_M0 adds `!!count[p][0]` after `++p`, so it tests rows 1..mp_count: row 0 is skipped and row mp_count, which was never read back, is tested | one processor whose first sample is nonzero: the count is 0, where 1 was meant | processors 0..mp_count-1 with a nonzero first sample counted | not executed; high | MetricAggregate.MpUsedAsWritten, MetricAggregate.MpUsedMissesProcessorZero, MetricAggregate.OccupancyOnOneProcessor | MetricAggregate.MpUsed, MetricAggregate.MpUsedCounts, MetricAggregate.AggregateCorrected, MetricAggregate.AggregateAgrees |
| src/gallium/drivers/nvc0/nvc0_query.c:1047 | the AVG_DIV_M0 divisor `count[0][1] * mp_used * cfg->norm[1]` is computed in 32-bit unsigned arithmetic and can wrap to zero | three processors read, processor 0's clock sample 0x80000000, rows 1 and 2 nonzero: the count as written is 2, the divisor 2^32 wraps to 0 and the division traps | the divisor computed in 64 bits | not executed; high | MetricAggregate.AvgDivM0AsWritten, MetricAggregate.AvgDivM0DivisorWraps | MetricAggregate.AvgDivM0, MetricAggregate.AvgDivM0AgreesWithoutWrap, MetricAggregate.AggregateCorrected |
| src/gallium/drivers/nvc0/nve4_compute.h:80 | `set_cb` takes its size as `uint16_t`, yet asserts `size <= 65536`; a 64 KiB constant buffer passed by `set_ctx_cb` is stored with size 0 | a bound buffer of 65536 bytes | the full 17-bit size stored | not executed; high | LaunchDesc.SetCtxCbAsWritten, LaunchDesc.FullSizeBufferTruncated | LaunchDesc.SetCtxCb, LaunchDesc.SetCb |
| src/gallium/drivers/nvc0/nvc0_vbo.c:575 | the shortened 32-bit encoder reserves one push-buffer word for the lone-index packet, which writes a header and one data word | an odd index count, e.g. count 1 | two words reserved, as the 16-bit encoder does at line 532 | not executed; medium (the push buffer may have slack) | IndexInline.EncodeU32ShortAsWritten, IndexInline.U32ShortAsWrittenUnderReserves | IndexInline.EncodeU32Short, IndexInline.EncodeU32ShortSound |
