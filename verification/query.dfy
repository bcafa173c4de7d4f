/** The query engine: creation with a per-type storage layout, the
    READY -> ACTIVE -> ENDED (-> FLUSHED) -> READY life cycle driven by a
    32-bit sequence number, rotation of occlusion-query records through a
    256-byte region, the commands each begin and end emits, and the
    decoding of a finished record.

    The buffer manager, the fence and the GPU are oracles: an allocation
    outcome, a `signalled` flag, a failing buffer wait, and the words of the
    current record as the CPU reads them. */
module Query {
  import opened Words
  import opened Commands
  import opened PmConfig
  import CounterSlots
  import MetricAggregate

  /** Bytes of a query's region (NVC0_QUERY_ALLOC_SPACE). */
  const AllocSpace: nat := 256
  /** Record stride of the rotating (occlusion) queries. */
  const RotateStep: nat := 32
  /** Kernel interface version from which performance counters are offered. */
  const PmDrmVersion: nat := 0x0100_0101

  datatype QueryType =
    | OcclusionCounter | OcclusionPredicate
    | PrimitivesGenerated | PrimitivesEmitted
    | SoStatistics | SoOverflowPredicate
    | TimeElapsed | Timestamp | TimestampDisjoint | GpuFinished
    | PipelineStatistics
    | TfbBufferOffset          // the driver's own transform-feedback offset query
    | PmQuery(n: nat)          // performance query n of the counter table
    | Unknown(code: nat)

  datatype State = Ready | Active | Ended | Flushed

  /** The storage behind a query: a buffer object and, when the buffer
      manager handed out a sub-allocation, its handle. */
  datatype Region = Region(bo: nat, mm: Option<nat>)

  /** A query. `offset` is the byte offset of the current record in the
      buffer, `base` that of the region; both are `uint32_t`. `ctr` holds
      the counter slots of a performance query. */
  datatype Query = Query(
    id: nat, qtype: QueryType, index: bv16, ctr: seq<int>, sequence: U32,
    region: Option<Region>, base: U32, offset: U32, state: State,
    is64bit: bool, rotate: nat, nesting: int, fence: Option<nat>)

  /** What the driver knows of the device. */
  datatype Screen = Screen(kepler: bool, drmVersion: nat, mpCount: nat, mpCountCompute: nat)

  /** The context: the number of active occlusion queries, the current
      fence, the counter-slot table and the log of emitted commands. */
  datatype Ctx = Ctx(screen: Screen, occlusionActive: int, fence: nat, pm: CounterSlots.SlotTable, log: seq<Event>)

  /** Outcome of asking the buffer manager for a region. */
  datatype AllocOracle =
    | AllocFails
    | MapFails(bo: nat, mm: Option<nat>, base: U32)
    | Maps(bo: nat, mm: Option<nat>, base: U32)

  predicate IsOcclusion(t: QueryType) {
    t == OcclusionCounter || t == OcclusionPredicate
  }

  predicate PmSupported(s: Screen) {
    s.kepler && s.drmVersion >= PmDrmVersion
  }

  /** A query type the driver creates. */
  predicate Known(t: QueryType, s: Screen) {
    match t
      case Unknown(_) => false
      case PmQuery(n) => PmSupported(s) && n < PmQueryCount
      case _ => true
  }

  /* ------------------------------------------------------------ storage */

  /** The old region goes back: the buffer reference is dropped and the
      sub-allocation freed at once when the query is READY, or when the
      current fence signals otherwise. */
  function FreeRegion(q: Query, ctx: Ctx): (res: (Query, Ctx))
    ensures res.0 == q.(region := None)
    ensures q.region.None? ==> res.1 == ctx
    ensures q.region.Some? && q.region.value.mm.None? ==> res.1 == ctx.(log := ctx.log + [BoUnref(q.region.value.bo)])
    ensures q.region.Some? && q.region.value.mm.Some? ==>
      res.1 == ctx.(log := ctx.log + [BoUnref(q.region.value.bo),
        if q.state == Ready then MmFree(q.region.value.mm.value) else MmFreeOnFence(q.region.value.mm.value, ctx.fence)])
  {
    match q.region
      case None => (q, ctx)
      case Some(r) =>
        var release := match r.mm
          case None => []
          case Some(m) => if q.state == Ready then [MmFree(m)] else [MmFreeOnFence(m, ctx.fence)];
        (q.(region := None), ctx.(log := ctx.log + [BoUnref(r.bo)] + release))
  }

  /** (Re)allocate `size` bytes: the old region is freed; size 0 only frees.
      A region that cannot be mapped is given back again. On success the
      current record is the start of the new region. */
  function Allocate(q: Query, ctx: Ctx, size: nat, oracle: AllocOracle): (res: (bool, Query, Ctx))
    ensures res.2 == ctx.(log := res.2.log)
    ensures res.1 == q.(region := res.1.region, base := res.1.base, offset := res.1.offset)
    ensures res.1.region.Some? <==> size != 0 && oracle.Maps?
    ensures res.0 <==> size == 0 || oracle.Maps?
    ensures size != 0 && oracle.Maps? ==>
      res.1.region == Some(Region(oracle.bo, oracle.mm)) && res.1.base == oracle.base && res.1.offset == oracle.base
    ensures size == 0 || oracle.AllocFails? ==> res.1.base == q.base && res.1.offset == q.offset
  {
    var (q1, ctx1) := FreeRegion(q, ctx);
    if size == 0 then (true, q1, ctx1)
    else match oracle
      case AllocFails => (false, q1, ctx1)
      case MapFails(bo, mm, base) =>
        var q2 := q1.(region := Some(Region(bo, mm)), base := base, offset := base);
        var (q3, ctx3) := FreeRegion(q2, ctx1);
        (false, q3, ctx3)
      case Maps(bo, mm, base) =>
        (true, q1.(region := Some(Region(bo, mm)), base := base, offset := base), ctx1)
  }

  /** Byte distance of the current record from the region start, as the
      source's `uint32_t` difference `offset - base`. */
  function Position(q: Query): U32 {
    Sub32(q.offset, q.base)
  }

  /** Advance to the next record; when the region is used up, replace it
      by a fresh one and start at its base. */
  function Rotate(q: Query, ctx: Ctx, oracle: AllocOracle): (res: (Query, Ctx))
    ensures res.0 == q.(region := res.0.region, base := res.0.base, offset := res.0.offset)
    ensures res.1 == ctx.(log := res.1.log)
  {
    var q1 := q.(offset := Wrap32(q.offset + q.rotate));
    if Position(q1) == AllocSpace then
      var r := Allocate(q1, ctx, AllocSpace, oracle);
      (r.1, r.2)
    else (q1, ctx)
  }

  /* ----------------------------------------------------------- creation */

  /** Storage layout by type: (bytes, rotation stride, 64-bit results). */
  function Layout(t: QueryType, s: Screen): (r: Option<(nat, nat, bool)>)
    ensures r.Some? <==> Known(t, s)
    ensures r.Some? && r.value.1 != 0 ==> IsOcclusion(t) && r.value.1 == RotateStep && r.value.0 == AllocSpace
  {
    match t
      case OcclusionCounter => Some((AllocSpace, RotateStep, false))
      case OcclusionPredicate => Some((AllocSpace, RotateStep, false))
      case PipelineStatistics => Some((512, 0, true))
      case SoStatistics => Some((64, 0, true))
      case SoOverflowPredicate => Some((64, 0, true))
      case PrimitivesGenerated => Some((32, 0, true))
      case PrimitivesEmitted => Some((32, 0, true))
      case TimeElapsed => Some((32, 0, false))
      case Timestamp => Some((32, 0, false))
      case TimestampDisjoint => Some((32, 0, false))
      case GpuFinished => Some((32, 0, false))
      case TfbBufferOffset => Some((16, 0, false))
      case PmQuery(n) =>
        // eight counters and a clock per processor: 12 words each
        if PmSupported(s) && n < PmQueryCount then Some((12 * s.mpCount * 4, 0, false)) else None
      case Unknown(_) => None
  }

  /** A zeroed query of type t. */
  function Fresh(id: nat, t: QueryType): Query {
    Query(id, t, 0, [0, 0, 0, 0], 0, None, 0, 0, Ready, false, 0, 0, None)
  }

  /** Create a query: unknown types and failed allocations give None. A
      rotating query's offset starts one stride before its base, so that
      the first begin lands on the base; any other 32-bit query has its
      sequence word cleared. */
  function Create(id: nat, t: QueryType, ctx: Ctx, oracle: AllocOracle): (res: (Option<Query>, Ctx))
    ensures !Known(t, ctx.screen) ==> res == (None, ctx)
    ensures res.1 == ctx.(log := res.1.log)
    ensures res.0.Some? ==> var q := res.0.value;
      && q.qtype == t && q.id == id && q.state == Ready && q.sequence == 0 && q.ctr == [0, 0, 0, 0]
      && q.fence.None? && q.index == 0
  {
    match Layout(t, ctx.screen)
      case None => (None, ctx)
      case Some((space, rotate, is64bit)) =>
        var q0 := Fresh(id, t).(rotate := rotate, is64bit := is64bit);
        var (ok, q1, ctx1) := Allocate(q0, ctx, space, oracle);
        if !ok then (None, ctx1)
        else if rotate != 0 then
          (Some(q1.(offset := Wrap32(q1.offset - rotate))), ctx1)
        else if !is64bit then
          (Some(q1), ctx1.(log := ctx1.log + [CpuWrite(q1.offset, 0)]))
        else (Some(q1), ctx1)
  }

  /* -------------------------------------------------------- begin / end */

  /** `get | index << 5`: the vertex stream or buffer index of a counter. */
  function Tag(get: bv32, index: bv16): bv32 {
    get | ((index as bv32) << 5)
  }

  /** The ten pipeline-statistics counters, in result order. */
  function PipelineCounter(i: nat): bv32
    requires i < 10
  {
    [ 0x0080_1002, 0x0180_1002, 0x0280_2002, 0x0380_6002, 0x0480_6002,
      0x0780_4002, 0x0880_4002, 0x0980_a002, 0x0d80_8002, 0x0e80_9002 ][i]
  }

  /** The pipeline-statistics samples, 16 bytes apart from `at`. */
  function PipelineGets(at: nat): (gets: seq<(nat, bv32)>)
    ensures |gets| == 10
    ensures forall i :: 0 <= i < 10 ==> gets[i] == (at + 16 * i, PipelineCounter(i))
  {
    seq(10, i requires 0 <= i < 10 => (at + 16 * i, PipelineCounter(i)))
  }

  /** The counters sampled at begin: (byte offset in the record, counter). */
  function BeginGets(t: QueryType, index: bv16): seq<(nat, bv32)> {
    match t
      case PrimitivesGenerated => [(0x10, Tag(0x0900_5002, index))]
      case PrimitivesEmitted => [(0x10, Tag(0x0580_5002, index))]
      case SoStatistics => [(0x20, Tag(0x0580_5002, index)), (0x30, Tag(0x0680_5002, index))]
      case SoOverflowPredicate => [(0x10, Tag(0x0300_5002, index))]
      case TimestampDisjoint => [(0x10, 0x0000_5002)]
      case TimeElapsed => [(0x10, 0x0000_5002)]
      case PipelineStatistics => PipelineGets(0xc0)
      case _ => []
  }

  /** The counters sampled at end. */
  function EndGets(t: QueryType, index: bv16): seq<(nat, bv32)> {
    match t
      case OcclusionCounter => [(0, 0x0100_f002)]
      case OcclusionPredicate => [(0, 0x0100_f002)]
      case PrimitivesGenerated => [(0, Tag(0x0900_5002, index))]
      case PrimitivesEmitted => [(0, Tag(0x0580_5002, index))]
      case SoStatistics => [(0, Tag(0x0580_5002, index)), (0x10, Tag(0x0680_5002, index))]
      case SoOverflowPredicate => [(0, Tag(0x0300_5002, index)), (0x20, 0x0000_5002)]
      case Timestamp => [(0, 0x0000_5002)]
      case TimestampDisjoint => [(0, 0x0000_5002)]
      case TimeElapsed => [(0, 0x0000_5002)]
      case GpuFinished => [(0, 0x1000_f010)]
      case PipelineStatistics => PipelineGets(0)
      case TfbBufferOffset => [(0, Tag(0x0d00_5002, index))]
      case _ => []
  }

  /** The QUERY_GET commands for a list of (offset, counter) pairs. */
  function Gets(q: Query, gets: seq<(nat, bv32)>): (ev: seq<Event>)
    ensures |ev| == |gets|
    ensures forall i :: 0 <= i < |gets| ==> ev[i] == QueryGet(q.offset + gets[i].0, q.sequence, gets[i].1)
  {
    seq(|gets|, i requires 0 <= i < |gets| => QueryGet(q.offset + gets[i].0, q.sequence, gets[i].1))
  }

  /** The performance-counter part of begin: when the query fits, counting
      is switched on (the first time only), processor i's sequence word at
      word `10i + 10` of the record is cleared, and the channels are given
      their slots and programmed; otherwise nothing happens. */
  function PmBegin(q: Query, ctx: Ctx, n: nat): (res: (Query, Ctx))
    requires n < PmQueryCount && CounterSlots.Wf(ctx.pm) && |q.ctr| == 4
    ensures res.0 == q.(ctr := res.0.ctr) && |res.0.ctr| == 4
    ensures res.1 == ctx.(pm := res.1.pm, log := res.1.log)
    ensures CounterSlots.Wf(res.1.pm)
    ensures |res.1.log| >= |ctx.log| && res.1.log[..|ctx.log|] == ctx.log
    ensures !CounterSlots.Fits(ctx.pm, PmQueryConfig(n).channels) ==> res == (q, ctx)
    ensures CounterSlots.Fits(ctx.pm, PmQueryConfig(n).channels) ==>
      var at := |ctx.log| + |CounterSlots.EnableOnce(ctx.pm)|;
      && |res.1.log| >= at + ctx.screen.mpCount
      && res.1.log[|ctx.log|..at] == CounterSlots.EnableOnce(ctx.pm)
      && res.1.log[at..at + ctx.screen.mpCount] == SentinelClears(q.offset, ctx.screen.mpCount)
  {
    var cfg := PmQueryConfig(n);
    var r := CounterSlots.Begin(ctx.pm, q.id, q.ctr, cfg);
    if !CounterSlots.Fits(ctx.pm, cfg.channels) then (q, ctx)
    else
      CounterSlots.BeginCounts(ctx.pm, q.id, q.ctr, cfg);
      var enable := CounterSlots.EnableOnce(ctx.pm);
      var clears := SentinelClears(q.offset, ctx.screen.mpCount);
      var log := ctx.log + enable + clears + r.2[|enable|..];
      assert log[|ctx.log|..|ctx.log| + |enable|] == enable;
      assert log[|ctx.log| + |enable|..|ctx.log| + |enable| + |clears|] == clears;
      (q.(ctr := r.1), ctx.(pm := r.0, log := log))
  }

  /** Processor i's sequence word, word `10i + 10` of the record, cleared. */
  function SentinelClears(offset: U32, mp: nat): (ev: seq<Event>)
    ensures |ev| == mp
    ensures forall i :: 0 <= i < mp ==> ev[i] == CpuWrite(offset + 4 * (10 * i + 10), 0)
  {
    seq(mp, i => CpuWrite(offset + 4 * (10 * i + 10), 0))
  }

  /** A rotating query moves to its next record and initialises it:
      sequence word = current sequence, render condition TRUE, comparison
      word = next sequence, zero. Other queries are left as they are. */
  function Reinit(q: Query, ctx: Ctx, oracle: AllocOracle): (res: (Query, Ctx))
    ensures res.0 == q.(region := res.0.region, base := res.0.base, offset := res.0.offset)
    ensures res.1 == ctx.(log := res.1.log)
    ensures q.rotate == 0 ==> res == (q, ctx)
  {
    if q.rotate != 0 then
      var (qr, cr) := Rotate(q, ctx, oracle);
      (qr, cr.(log := cr.log + [CpuWrite(qr.offset, q.sequence), CpuWrite(qr.offset + 4, 1),
                               CpuWrite(qr.offset + 16, Wrap32(q.sequence + 1)), CpuWrite(qr.offset + 20, 0)]))
    else (q, ctx)
  }

  /** The begin samples of a query already carrying its new sequence:
      occlusion queries count their nesting and the outermost one resets
      and enables sample counting; performance queries take their slots;
      the others sample their begin counters. */
  function BeginSample(q: Query, ctx: Ctx): (res: (Query, Ctx))
    requires CounterSlots.Wf(ctx.pm) && |q.ctr| == 4
    ensures res.0 == q.(ctr := res.0.ctr, nesting := res.0.nesting) && |res.0.ctr| == 4
    ensures res.1 == ctx.(pm := res.1.pm, log := res.1.log, occlusionActive := res.1.occlusionActive)
    ensures CounterSlots.Wf(res.1.pm)
    ensures |res.1.log| >= |ctx.log| && res.1.log[..|ctx.log|] == ctx.log
  {
    if IsOcclusion(q.qtype) then
      var nesting := ctx.occlusionActive;
      var ev := if nesting != 0 then Gets(q, [(0x10, 0x0100_f002)]) else [CounterResetSampleCount, SampleCountEnable(true)];
      (q.(nesting := nesting), ctx.(occlusionActive := nesting + 1, log := ctx.log + ev))
    else if q.qtype.PmQuery? then
      if q.qtype.n < PmQueryCount then PmBegin(q, ctx, q.qtype.n) else (q, ctx)
    else (q, ctx.(log := ctx.log + Gets(q, BeginGets(q.qtype, q.index))))
  }

  /** Begin: reinitialise the record of a rotating query, take the next
      sequence number, sample, and become ACTIVE. */
  function Begin(q: Query, ctx: Ctx, oracle: AllocOracle): (res: (Query, Ctx))
    requires CounterSlots.Wf(ctx.pm) && |q.ctr| == 4
    ensures res.0.state == Active
    ensures res.0.sequence == Wrap32(q.sequence + 1)
    ensures res.0 == q.(region := res.0.region, base := res.0.base, offset := res.0.offset, sequence := res.0.sequence,
                        ctr := res.0.ctr, nesting := res.0.nesting, state := Active)
    ensures |res.0.ctr| == 4 && CounterSlots.Wf(res.1.pm)
    ensures res.1 == ctx.(log := res.1.log, pm := res.1.pm, occlusionActive := res.1.occlusionActive)
    ensures IsOcclusion(q.qtype) ==> res.0.nesting == ctx.occlusionActive && res.1.occlusionActive == ctx.occlusionActive + 1
    ensures !IsOcclusion(q.qtype) ==> res.1.occlusionActive == ctx.occlusionActive
  {
    var (q1, ctx1) := Reinit(q, ctx, oracle);
    var (q3, ctx3) := BeginSample(q1.(sequence := Wrap32(q1.sequence + 1)), ctx1);
    (q3.(state := Active), ctx3)
  }

  /** The performance-counter part of end: counting is switched off on
      every occupied slot, q's slots are released and the readback program
      is launched with the sequence number. */
  function PmEnd(q: Query, ctx: Ctx): (res: Ctx)
    requires CounterSlots.Wf(ctx.pm)
    ensures res == ctx.(pm := res.pm, log := res.log)
    ensures CounterSlots.Wf(res.pm)
    ensures |res.log| >= |ctx.log| && res.log[..|ctx.log|] == ctx.log
  {
    CounterSlots.EndSound(ctx.pm, q.id);
    ctx.(pm := CounterSlots.Release(ctx.pm, q.id, 0), log := ctx.log + CounterSlots.DisableAll(ctx.pm.owner, 0) + [PmReadback(q.sequence)])
  }

  /** A query ended without a begin first rotates (if rotating) and takes
      the next sequence number; a begun query keeps its own. */
  function Unbegun(q: Query, ctx: Ctx, oracle: AllocOracle): (res: (Query, Ctx))
    ensures res.0.sequence == if q.state == Active then q.sequence else Wrap32(q.sequence + 1)
    ensures res.0 == q.(region := res.0.region, base := res.0.base, offset := res.0.offset, sequence := res.0.sequence)
    ensures res.1 == ctx.(log := res.1.log)
    ensures q.state == Active ==> res == (q, ctx)
  {
    if q.state != Active then
      var (qr, cr) := if q.rotate != 0 then Rotate(q, ctx, oracle) else (q, ctx);
      (qr.(sequence := Wrap32(qr.sequence + 1)), cr)
    else (q, ctx)
  }

  /** The end samples of an ENDED query: the occlusion counter (the last
      active occlusion query disabling sample counting), the performance
      counters' readback, or the type's end counters. */
  function EndSample(q: Query, ctx: Ctx): (res: Ctx)
    requires CounterSlots.Wf(ctx.pm)
    ensures res == ctx.(pm := res.pm, log := res.log, occlusionActive := res.occlusionActive)
    ensures CounterSlots.Wf(res.pm)
    ensures |res.log| >= |ctx.log| && res.log[..|ctx.log|] == ctx.log
  {
    if IsOcclusion(q.qtype) then
      var left := ctx.occlusionActive - 1;
      ctx.(occlusionActive := left,
           log := ctx.log + Gets(q, EndGets(q.qtype, q.index)) + (if left == 0 then [SampleCountEnable(false)] else []))
    else if q.qtype.PmQuery? then
      if q.qtype.n < PmQueryCount then PmEnd(q, ctx) else ctx
    else ctx.(log := ctx.log + Gets(q, EndGets(q.qtype, q.index)))
  }

  /** End: the query becomes ENDED and samples its end counters; a 64-bit
      query remembers the current fence. */
  function End(q: Query, ctx: Ctx, oracle: AllocOracle): (res: (Query, Ctx))
    requires CounterSlots.Wf(ctx.pm)
    ensures res.0.sequence == if q.state == Active then q.sequence else Wrap32(q.sequence + 1)
    ensures res.0 == q.(region := res.0.region, base := res.0.base, offset := res.0.offset, sequence := res.0.sequence,
                        state := Ended, fence := if q.is64bit then Some(ctx.fence) else q.fence)
    ensures CounterSlots.Wf(res.1.pm)
    ensures res.1 == ctx.(log := res.1.log, pm := res.1.pm, occlusionActive := res.1.occlusionActive)
    ensures res.1.occlusionActive == if IsOcclusion(q.qtype) then ctx.occlusionActive - 1 else ctx.occlusionActive
  {
    var (q1, ctx1) := Unbegun(q, ctx, oracle);
    var q2 := q1.(state := Ended);
    (if q.is64bit then q2.(fence := Some(ctx.fence)) else q2, EndSample(q2, ctx1))
  }

  /* ------------------------------------------------------------- result */

  /** Whether a query that is not READY has completed: by its fence for a
      64-bit query, by the record's sequence word otherwise. */
  predicate Landed(q: Query, signalled: bool, record: seq<U32>)
    requires |record| >= 1
  {
    if q.is64bit then signalled else record[0] == q.sequence
  }

  function Update(q: Query, signalled: bool, record: seq<U32>): (q': Query)
    requires |record| >= 1
    ensures q' == q.(state := q'.state)
    ensures q'.state == Ready <==> Landed(q, signalled, record) || q.state == Ready
  {
    if Landed(q, signalled, record) then q.(state := Ready) else q
  }

  datatype Value =
    | Flag(b: bool)
    | Count(v: U64)
    | Counts(vs: seq<U64>)
    | Disjoint(frequency: U64, disjoint: bool)
    | Word(w: U32)

  /** Words of the record a type's decoding reads. */
  function RecordWords(t: QueryType): nat {
    match t
      case OcclusionCounter => 6
      case OcclusionPredicate => 6
      case PrimitivesGenerated => 6
      case PrimitivesEmitted => 6
      case SoStatistics => 14
      case SoOverflowPredicate => 6
      case Timestamp => 4
      case TimestampDisjoint => 8
      case TimeElapsed => 8
      case PipelineStatistics => 86
      case TfbBufferOffset => 2
      case _ => 1
  }

  /** The 64-bit word i of the record. */
  function D64(record: seq<U32>, i: nat): U64
    requires 2 * i + 1 < |record|
  {
    Join64(record[2 * i], record[2 * i + 1])
  }

  /** Counter i of a pipeline-statistics record: its end sample (64-bit
      word 2i) minus its begin sample (word 24 + 2i). */
  function PipelineCounts(record: seq<U32>): (vs: seq<U64>)
    requires |record| >= RecordWords(PipelineStatistics)
    ensures |vs| == 10
  {
    seq(10, i requires 0 <= i < 10 => Sub64(D64(record, 2 * i), D64(record, 24 + 2 * i)))
  }

  /** The value of a finished record. */
  function Decode(t: QueryType, record: seq<U32>): (v: Option<Value>)
    requires |record| >= RecordWords(t)
    ensures v.None? <==> t.PmQuery? || t.Unknown?
  {
    match t
      case GpuFinished => Some(Flag(true))
      case OcclusionCounter => Some(Count(Sub32(record[1], record[5])))
      case OcclusionPredicate => Some(Flag(record[1] != record[5]))
      case PrimitivesGenerated => Some(Count(Sub64(D64(record, 0), D64(record, 2))))
      case PrimitivesEmitted => Some(Count(Sub64(D64(record, 0), D64(record, 2))))
      case SoStatistics => Some(Counts([Sub64(D64(record, 0), D64(record, 4)), Sub64(D64(record, 2), D64(record, 6))]))
      case SoOverflowPredicate => Some(Flag(D64(record, 0) != D64(record, 2)))
      case Timestamp => Some(Count(D64(record, 1)))
      case TimestampDisjoint => Some(Disjoint(1_000_000_000, D64(record, 1) != D64(record, 3)))
      case TimeElapsed => Some(Count(Sub64(D64(record, 1), D64(record, 3))))
      case PipelineStatistics => Some(Counts(PipelineCounts(record)))
      case TfbBufferOffset => Some(Word(record[1]))
      case _ => None
  }

  /** Get the result of a non-performance query. A query that is not READY
      is updated; if it still is not, a non-blocking call fails, marking the
      query FLUSHED and submitting the commands the first time only, and a
      blocking call waits for the buffer and fails if the wait fails.
      Otherwise the query is READY and its record is decoded. */
  function Result(q: Query, ctx: Ctx, wait: bool, signalled: bool, boWaitFails: bool, record: seq<U32>)
    : (res: (Option<Value>, Query, Ctx))
    requires !q.qtype.PmQuery? && |record| >= RecordWords(q.qtype)
    ensures res.1 == q.(state := res.1.state)
    ensures res.2 == ctx.(log := res.2.log)
  {
    var q1 := if q.state != Ready then Update(q, signalled, record) else q;
    if q1.state != Ready && !wait then
      if q1.state != Flushed then (None, q1.(state := Flushed), ctx.(log := ctx.log + [Kick]))
      else (None, q1, ctx)
    else if q1.state != Ready && boWaitFails then (None, q1, ctx)
    else (Decode(q.qtype, record), q1.(state := Ready), ctx)
  }

  /** The result of a performance query: the samples of the query's slots
      in the first min(processors, 32) records, reduced as its
      configuration says (the query's state is not consulted). */
  function PmQueryResult(q: Query, ctx: Ctx, wait: bool, boWaitFails: bool, record: seq<U32>,
                         stale: MetricAggregate.Counts): (r: MetricAggregate.Outcome)
    requires q.qtype.PmQuery? && q.qtype.n < PmQueryCount && MetricAggregate.WellShaped(stale)
    requires |q.ctr| == 4 && forall c :: 0 <= c < 4 ==> 0 <= q.ctr[c] < CounterSlots.SlotCount
    requires |record| >= 12 * MetricAggregate.MpRead(ctx.screen.mpCountCompute)
    ensures var mp := MetricAggregate.MpRead(ctx.screen.mpCountCompute);
      var cfg := PmQueryConfig(q.qtype.n);
      var value := MetricAggregate.Aggregate(cfg, MetricAggregate.Samples(record, q.ctr, |cfg.channels|, mp, stale), mp);
      && (r.NotReady? <==> !MetricAggregate.Landed(record, q.sequence, mp) && (!wait || boWaitFails))
      && (r.Value? ==> value == Some(r.v))
      && (r.DivideByZero? <==> !r.NotReady? && value.None?)
      && (r.DivideByZero? ==> cfg.op == OpAvgDivM0)
  {
    var cfg := PmQueryConfig(q.qtype.n);
    var mp := MetricAggregate.MpRead(ctx.screen.mpCountCompute);
    MetricAggregate.DivSumM0DenominatorOne(q.qtype.n, MetricAggregate.Samples(record, q.ctr, |cfg.channels|, mp, stale), mp);
    MetricAggregate.PmResult(cfg, record, q.sequence, q.ctr, ctx.screen.mpCountCompute, stale, wait, boWaitFails)
  }
}
