/** Properties of the query engine: where records live, how the sequence
    number ties the commands to the result, and what the decoded values
    mean. */
module QueryLemmas {
  import opened Words
  import opened Commands
  import opened PmConfig
  import CounterSlots
  import opened Query

  /* ------------------------------------------------------------ storage */

  /** The old sub-allocation is freed immediately exactly when the query
      is READY, and otherwise exactly on the current fence. */
  lemma FreeNowIffReady(q: Query, ctx: Ctx, bo: nat, m: nat)
    requires q.region == Some(Region(bo, Some(m)))
    ensures var c := FreeRegion(q, ctx).1;
      && |c.log| == |ctx.log| + 2 && c.log[..|ctx.log|] == ctx.log && c.log[|ctx.log|] == BoUnref(bo)
      && (c.log[|ctx.log| + 1] == MmFree(m) <==> q.state == Ready)
      && (c.log[|ctx.log| + 1] == MmFreeOnFence(m, ctx.fence) <==> q.state != Ready)
  {
  }

  /** Creation succeeds exactly for a known type whose storage could be
      obtained (a zero-byte query needs none), and yields the layout its
      type asks for. */
  lemma CreateLayout(id: nat, t: QueryType, ctx: Ctx, oracle: AllocOracle)
    ensures var (r, c) := Create(id, t, ctx, oracle);
      && (r.Some? <==> Known(t, ctx.screen) && (Layout(t, ctx.screen).value.0 == 0 || oracle.Maps?))
      && (r.Some? ==>
            && r.value.is64bit == (t in {PrimitivesGenerated, PrimitivesEmitted, SoStatistics, SoOverflowPredicate, PipelineStatistics})
            && (r.value.rotate != 0 <==> IsOcclusion(t)))
  {
  }

  /** A 32-bit, non-rotating query starts with its sequence word cleared at
      the start of its region, so it reads as not landed until the GPU
      writes sequence 1 there. */
  lemma CreateClearsSequenceWord(id: nat, t: QueryType, ctx: Ctx, oracle: AllocOracle)
    requires Known(t, ctx.screen) && !IsOcclusion(t) && oracle.Maps?
    requires t !in {PrimitivesGenerated, PrimitivesEmitted, SoStatistics, SoOverflowPredicate, PipelineStatistics}
    requires Layout(t, ctx.screen).value.0 != 0
    ensures var (r, c) := Create(id, t, ctx, oracle);
      && r.Some? && r.value.offset == oracle.base
      && c.log == ctx.log + [CpuWrite(oracle.base, 0)]
  {
  }

  /** Every region holds what is written to and read from it: each
      16-byte report of begin and end, the nested occlusion begin report
      at 0x10, the four words of reinitialisation and the words decoding
      reads all lie inside the record, which for a rotating query is its
      stride. */
  lemma LayoutHoldsRecord(t: QueryType, s: Screen, index: bv16)
    requires Known(t, s) && !t.PmQuery?
    ensures var (space, rotate, _) := Layout(t, s).value;
      var record := if rotate != 0 then rotate else space;
      && record <= space
      && (forall i :: 0 <= i < |BeginGets(t, index)| ==> BeginGets(t, index)[i].0 + 16 <= record)
      && (forall i :: 0 <= i < |EndGets(t, index)| ==> EndGets(t, index)[i].0 + 16 <= record)
      && 4 * RecordWords(t) <= record
      && (IsOcclusion(t) ==> 0x10 + 16 <= record && 20 + 4 <= record)
  {
  }

  /** A performance query's region holds 12 words per processor, and the
      sequence word begin clears for each processor lies inside it. */
  lemma PmLayoutHoldsRecord(n: nat, s: Screen)
    requires PmSupported(s) && n < PmQueryCount
    ensures var space := Layout(PmQuery(n), s).value.0;
      && space == 4 * 12 * s.mpCount
      && forall i :: 0 <= i < s.mpCount ==> 4 * (10 * i + 10) + 4 <= space
  {
  }

  /** A record slot of a rotating query: a whole stride inside the region,
      or the position one stride before the base that creation leaves. */
  predicate InRegion(q: Query) {
    && q.rotate == RotateStep && q.region.Some?
    && Position(q) % RotateStep == 0
    && (Position(q) + RotateStep <= AllocSpace || Position(q) == TWO_32 - RotateStep)
  }

  /** A created occlusion query sits one stride before its base. */
  lemma CreateRotating(id: nat, t: QueryType, ctx: Ctx, oracle: AllocOracle)
    requires IsOcclusion(t) && oracle.Maps?
    ensures var (r, c) := Create(id, t, ctx, oracle);
      && r.Some? && InRegion(r.value) && Position(r.value) == TWO_32 - RotateStep
      && r.value.base == oracle.base
  {
  }

  /** Advancing the 32-bit offset advances the 32-bit position alike. */
  lemma PositionStep(q: Query, k: nat)
    requires k < TWO_32
    ensures Position(q.(offset := Wrap32(q.offset + k))) == Wrap32(Position(q) + k)
  {
    var o, b := q.offset, q.base;
    if o + k < TWO_32 {
      assert Wrap32(o + k) == o + k;
    } else {
      assert Wrap32(o + k) == o + k - TWO_32;
    }
    if o >= b {
      assert Position(q) == o - b;
    } else {
      assert Position(q) == o - b + TWO_32;
    }
  }

  /** Rotation keeps a rotating query on a whole record inside its region:
      from the position creation leaves it moves to the base of the same
      region, and from any record but the last one stride on. */
  lemma RotateWithin(q: Query, ctx: Ctx, oracle: AllocOracle)
    requires InRegion(q) && Position(q) != AllocSpace - RotateStep
    ensures var (q', c) := Rotate(q, ctx, oracle);
      && InRegion(q') && Position(q') + RotateStep <= AllocSpace
      && (Position(q') == 0 <==> Position(q) == TWO_32 - RotateStep)
      && q'.base == q.base && q'.region == q.region && c == ctx
  {
    PositionStep(q, RotateStep);
    var q1 := q.(offset := Wrap32(q.offset + q.rotate));
    if Position(q) == TWO_32 - RotateStep {
      assert Position(q1) == 0;
    } else {
      assert Position(q1) == Position(q) + RotateStep;
    }
    assert Position(q1) != AllocSpace;
    assert Rotate(q, ctx, oracle) == (q1, ctx);
  }

  /** From the last record, rotation moves to the base of a fresh region. */
  lemma RotateRenews(q: Query, ctx: Ctx, oracle: AllocOracle)
    requires InRegion(q) && Position(q) == AllocSpace - RotateStep && oracle.Maps?
    ensures var (q', c) := Rotate(q, ctx, oracle);
      && InRegion(q') && Position(q') == 0
      && q'.base == oracle.base && q'.offset == oracle.base && q'.region == Some(Region(oracle.bo, oracle.mm))
  {
    PositionStep(q, RotateStep);
  }

  /** Both cases together: rotation never leaves the region. */
  lemma RotateInRegion(q: Query, ctx: Ctx, oracle: AllocOracle)
    requires InRegion(q)
    requires Position(q) == AllocSpace - RotateStep ==> oracle.Maps?
    ensures InRegion(Rotate(q, ctx, oracle).0) && Position(Rotate(q, ctx, oracle).0) + RotateStep <= AllocSpace
  {
    if Position(q) == AllocSpace - RotateStep {
      RotateRenews(q, ctx, oracle);
    } else {
      RotateWithin(q, ctx, oracle);
    }
  }

  /* -------------------------------------------------------- begin / end */

  /** Entries n .. n+3 of a log initialise the record at `offset`: the
      previous sequence number at +0, render condition TRUE at +4, the
      next sequence number at +16 and zero at +20. */
  predicate InitialisesRecord(log: seq<Event>, n: nat, offset: U32, previous: U32, next: U32) {
    && n + 4 <= |log|
    && log[n] == CpuWrite(offset, previous)
    && log[n + 1] == CpuWrite(offset + 4, 1)
    && log[n + 2] == CpuWrite(offset + 16, next)
    && log[n + 3] == CpuWrite(offset + 20, 0)
  }

  lemma InitialisesRecordPrefix(log: seq<Event>, pre: seq<Event>, offset: U32, previous: U32, next: U32)
    requires var w := [CpuWrite(offset, previous), CpuWrite(offset + 4, 1), CpuWrite(offset + 16, next), CpuWrite(offset + 20, 0)];
      |pre| + 4 <= |log| && log[..|pre| + 4] == pre + w
    ensures InitialisesRecord(log, |pre|, offset, previous, next)
  {
    var w := [CpuWrite(offset, previous), CpuWrite(offset + 4, 1), CpuWrite(offset + 16, next), CpuWrite(offset + 20, 0)];
    forall k | 0 <= k < 4
      ensures log[|pre| + k] == w[k]
    {
      assert log[..|pre| + 4][|pre| + k] == (pre + w)[|pre| + k];
    }
  }

  lemma ReinitAppends(q: Query, ctx: Ctx, oracle: AllocOracle)
    requires q.rotate != 0
    ensures var (qr, cr) := Rotate(q, ctx, oracle);
      Reinit(q, ctx, oracle) == (qr, cr.(log := cr.log + [CpuWrite(qr.offset, q.sequence), CpuWrite(qr.offset + 4, 1),
                                                          CpuWrite(qr.offset + 16, Wrap32(q.sequence + 1)), CpuWrite(qr.offset + 20, 0)]))
  {
  }

  /** Begin appends its samples after the reinitialised record, at the
      position reinitialisation chose. */
  lemma BeginAfterReinit(q: Query, ctx: Ctx, oracle: AllocOracle)
    requires CounterSlots.Wf(ctx.pm) && |q.ctr| == 4
    ensures var (q1, c1) := Reinit(q, ctx, oracle);
      var (q', c') := Begin(q, ctx, oracle);
      && q'.offset == q1.offset && q'.base == q1.base && q'.region == q1.region
      && |c'.log| >= |c1.log| && c'.log[..|c1.log|] == c1.log
  {
  }

  /** Begin of a rotating query initialises the record it rotated to:
      right after the commands of the rotation come the writes of the
      previous sequence number at +0, render condition TRUE at +4, the new
      sequence number at +16 and zero at +20. */
  lemma BeginInitialisesRecord(q: Query, ctx: Ctx, oracle: AllocOracle)
    requires CounterSlots.Wf(ctx.pm) && |q.ctr| == 4 && q.rotate != 0
    ensures var (q', c) := Begin(q, ctx, oracle);
      && q'.offset == Rotate(q, ctx, oracle).0.offset
      && InitialisesRecord(c.log, |Rotate(q, ctx, oracle).1.log|, q'.offset, q.sequence, q'.sequence)
  {
    ReinitAppends(q, ctx, oracle);
    BeginAfterReinit(q, ctx, oracle);
    var (q1, c1) := Reinit(q, ctx, oracle);
    var c3 := Begin(q, ctx, oracle).1;
    InitialisesRecordPrefix(c3.log, c1.log[..|c1.log| - 4], q1.offset, q.sequence, Wrap32(q.sequence + 1));
  }

  /** The record a rotating query begins on cannot read as landed before
      the GPU writes it: its sequence word holds the previous sequence
      number, which differs from the new one held by its comparison word. */
  lemma BeginRotatingRecord(q: Query, ctx: Ctx, oracle: AllocOracle)
    requires CounterSlots.Wf(ctx.pm) && |q.ctr| == 4 && q.rotate != 0
    ensures var (q', c) := Begin(q, ctx, oracle);
      && CpuWrite(q'.offset, q.sequence) in c.log
      && CpuWrite(q'.offset + 16, q'.sequence) in c.log
      && q'.sequence != q.sequence
  {
    BeginInitialisesRecord(q, ctx, oracle);
  }

  /** Begin keeps a rotating query on a record inside its region. */
  lemma BeginInRegion(q: Query, ctx: Ctx, oracle: AllocOracle)
    requires CounterSlots.Wf(ctx.pm) && |q.ctr| == 4 && InRegion(q)
    requires Position(q) == AllocSpace - RotateStep ==> oracle.Maps?
    ensures var q' := Begin(q, ctx, oracle).0;
      InRegion(q') && Position(q') + RotateStep <= AllocSpace
  {
    RotateInRegion(q, ctx, oracle);
  }

  /** Occlusion queries nest: the begin samples record how many were
      active and count the query in, and only the outermost begin resets
      and enables sample counting. */
  lemma OcclusionBegin(q: Query, ctx: Ctx)
    requires CounterSlots.Wf(ctx.pm) && |q.ctr| == 4 && IsOcclusion(q.qtype)
    ensures var (q', c') := BeginSample(q, ctx);
      && q'.nesting == ctx.occlusionActive && c'.occlusionActive == ctx.occlusionActive + 1
      && (SampleCountEnable(true) in c'.log[|ctx.log|..] <==> ctx.occlusionActive == 0)
  {
    var n := ctx.occlusionActive;
    var ev := if n != 0 then Gets(q, [(0x10, 0x0100_f002)]) else [CounterResetSampleCount, SampleCountEnable(true)];
    var c' := BeginSample(q, ctx).1;
    assert c'.log == ctx.log + ev;
    assert c'.log[|ctx.log|..] == ev;
  }

  /** The end samples of an occlusion query count it out and, when it was
      the last one, disable sample counting. */
  lemma OcclusionEnd(q: Query, ctx: Ctx)
    requires CounterSlots.Wf(ctx.pm) && IsOcclusion(q.qtype)
    ensures var c' := EndSample(q, ctx);
      && c'.occlusionActive == ctx.occlusionActive - 1
      && (SampleCountEnable(false) in c'.log[|ctx.log|..] <==> ctx.occlusionActive == 1)
  {
    var n := ctx.occlusionActive - 1;
    var gets := Gets(q, EndGets(q.qtype, q.index));
    var ev2 := gets + (if n == 0 then [SampleCountEnable(false)] else []);
    var c' := EndSample(q, ctx);
    assert c'.log == ctx.log + ev2;
    assert c'.log[|ctx.log|..] == ev2;
    assert |gets| == 1 && gets[0].QueryGet?;
    if n == 0 {
      assert ev2[1] == SampleCountEnable(false);
    }
  }

  /** A begin/end pair of an occlusion query leaves the number of active
      occlusion queries as it found it, and the end keeps the sequence
      number the begin took. */
  lemma OcclusionBalanced(q: Query, ctx: Ctx, oracle: AllocOracle)
    requires CounterSlots.Wf(ctx.pm) && |q.ctr| == 4 && IsOcclusion(q.qtype)
    ensures var (q', c') := Begin(q, ctx, oracle);
      && End(q', c', oracle).1.occlusionActive == ctx.occlusionActive
      && End(q', c', oracle).0.sequence == Wrap32(q.sequence + 1)
  {
  }

  /** Every query type the driver creates, other than the performance
      queries, samples a counter at the start of its record at end. */
  lemma EndGetsAtRecordStart(t: QueryType, index: bv16)
    requires !t.PmQuery? && !t.Unknown?
    ensures |EndGets(t, index)| > 0 && EndGets(t, index)[0].0 == 0
  {
  }

  /** The first command the end samples append is the write of that
      counter at the start of the record. */
  lemma EndSampleFirst(q: Query, ctx: Ctx)
    requires CounterSlots.Wf(ctx.pm) && !q.qtype.PmQuery? && !q.qtype.Unknown?
    ensures var c := EndSample(q, ctx);
      |c.log| > |ctx.log| && c.log[|ctx.log|] == QueryGet(q.offset, q.sequence, EndGets(q.qtype, q.index)[0].1)
  {
    var gets := EndGets(q.qtype, q.index);
    EndGetsAtRecordStart(q.qtype, q.index);
    var ev := Gets(q, gets);
    assert ev[0] == QueryGet(q.offset, q.sequence, gets[0].1);
    var c := EndSample(q, ctx);
    if IsOcclusion(q.qtype) {
      var more := if ctx.occlusionActive - 1 == 0 then [SampleCountEnable(false)] else [];
      assert c.log == ctx.log + ev + more;
    } else {
      assert c.log == ctx.log + ev;
    }
  }

  /** The first counter every non-performance query samples at end is
      written at the start of its current record with its current
      sequence number: the word that decides whether a 32-bit query has
      landed. */
  lemma EndWritesLandingWord(q: Query, ctx: Ctx, oracle: AllocOracle)
    requires CounterSlots.Wf(ctx.pm) && !q.qtype.PmQuery? && !q.qtype.Unknown?
    ensures var (q', c') := End(q, ctx, oracle);
      QueryGet(q'.offset, q'.sequence, EndGets(q.qtype, q.index)[0].1) in c'.log
  {
    var (q1, c1) := Unbegun(q, ctx, oracle);
    var q2 := q1.(state := Ended);
    EndSampleFirst(q2, c1);
    var c := EndSample(q2, c1);
    assert c.log[|c1.log|] in c.log;
  }

  /** The counters begin and end sample for the differencing types are the
      same, begin's a fixed span after end's. */
  lemma BeginEndSameCounters(t: QueryType, index: bv16)
    requires t in {PrimitivesGenerated, PrimitivesEmitted, SoStatistics, PipelineStatistics}
    ensures var span := if t == PipelineStatistics then 0xc0 else if t == SoStatistics then 0x20 else 0x10;
      && |BeginGets(t, index)| == |EndGets(t, index)| > 0
      && forall i :: 0 <= i < |EndGets(t, index)| ==>
           BeginGets(t, index)[i] == (EndGets(t, index)[i].0 + span, EndGets(t, index)[i].1)
  {
  }

  /* ------------------------------------------------------------- decode */

  /** Each pipeline statistic is the end sample of its counter minus the
      begin sample of the same counter, modulo 2^64. */
  lemma PipelineDecode(index: bv16, record: seq<U32>)
    requires |record| >= RecordWords(PipelineStatistics)
    ensures var v := Decode(PipelineStatistics, record).value;
      && v.Counts? && |v.vs| == 10
      && forall i :: 0 <= i < 10 ==>
           v.vs[i] == Sub64(D64(record, EndGets(PipelineStatistics, index)[i].0 / 8),
                            D64(record, BeginGets(PipelineStatistics, index)[i].0 / 8))
  {
    var vs := PipelineCounts(record);
    forall i | 0 <= i < 10
      ensures vs[i] == Sub64(D64(record, EndGets(PipelineStatistics, index)[i].0 / 8),
                             D64(record, BeginGets(PipelineStatistics, index)[i].0 / 8))
    {
      assert EndGets(PipelineStatistics, index)[i].0 / 8 == 2 * i;
      assert BeginGets(PipelineStatistics, index)[i].0 / 8 == 24 + 2 * i;
    }
  }

  /** Primitive and stream-output counts are end minus begin samples of the
      same counter(s); elapsed time is end minus begin timestamp (the
      timestamp is the second 64-bit word a counter write stores). */
  lemma CountsDecode(t: QueryType, index: bv16, record: seq<U32>)
    requires t in {PrimitivesGenerated, PrimitivesEmitted, SoStatistics} && |record| >= RecordWords(t)
    ensures var v := Decode(t, record).value;
      var e, b := EndGets(t, index), BeginGets(t, index);
      && (t != SoStatistics ==> v == Count(Sub64(D64(record, e[0].0 / 8), D64(record, b[0].0 / 8))))
      && (t == SoStatistics ==> v == Counts([Sub64(D64(record, e[0].0 / 8), D64(record, b[0].0 / 8)),
                                             Sub64(D64(record, e[1].0 / 8), D64(record, b[1].0 / 8))]))
  {
  }

  lemma ElapsedDecode(index: bv16, record: seq<U32>)
    requires |record| >= RecordWords(TimeElapsed)
    ensures var e, b := EndGets(TimeElapsed, index), BeginGets(TimeElapsed, index);
      Decode(TimeElapsed, record).value == Count(Sub64(D64(record, e[0].0 / 8 + 1), D64(record, b[0].0 / 8 + 1)))
  {
  }

  /** The occlusion counter is the difference of the two sample words
      modulo 2^32, and the occlusion predicate holds exactly when that
      count is nonzero. */
  lemma OcclusionDecode(record: seq<U32>)
    requires |record| >= 6
    ensures var n := Decode(OcclusionCounter, record).value.v;
      && (n + record[5]) % TWO_32 == record[1]
      && Decode(OcclusionPredicate, record) == Some(Flag(n != 0))
  {
  }

  /** The stream-output overflow predicate holds exactly when the
      generated-primitives difference of the same record is nonzero. */
  lemma OverflowAgreesWithCount(record: seq<U32>)
    requires |record| >= 6
    ensures Decode(SoOverflowPredicate, record).value.b <==> Decode(PrimitivesGenerated, record).value.v != 0
  {
  }

  /** A disjoint-timestamp query reports a disjoint interval exactly when
      the elapsed time over the same record is nonzero, at a 1 GHz
      frequency. */
  lemma DisjointAgreesWithElapsed(record: seq<U32>)
    requires |record| >= 8
    ensures var d := Decode(TimestampDisjoint, record).value;
      d.frequency == 1_000_000_000 && (d.disjoint <==> Decode(TimeElapsed, record).value.v != 0)
  {
  }

  /** The 64-bit words of a record are the little-endian pairs of its
      32-bit words. */
  lemma D64Halves(record: seq<U32>, i: nat)
    requires 2 * i + 1 < |record|
    ensures D64(record, i) % TWO_32 == record[2 * i] && D64(record, i) / TWO_32 == record[2 * i + 1]
  {
  }

  /* ------------------------------------------------------------- result */

  /** A result is delivered exactly when the query is READY, has landed,
      or the caller waits and the wait succeeds; the query is READY
      afterwards in exactly those cases, FLUSHED after a failed
      non-blocking call, and unchanged after a failed wait. */
  lemma ResultReadiness(q: Query, ctx: Ctx, wait: bool, signalled: bool, boWaitFails: bool, record: seq<U32>)
    requires !q.qtype.PmQuery? && !q.qtype.Unknown? && |record| >= RecordWords(q.qtype)
    ensures var (v, q', c') := Result(q, ctx, wait, signalled, boWaitFails, record);
      var done := q.state == Ready || Landed(q, signalled, record);
      && (v.Some? <==> done || (wait && !boWaitFails))
      && (v.Some? ==> v == Decode(q.qtype, record))
      && q'.state == (if done || (wait && !boWaitFails) then Ready else if !wait then Flushed else q.state)
  {
  }

  /** A non-blocking call on an unfinished query submits the buffered
      commands only the first time: once FLUSHED, it adds nothing. */
  lemma KickOnce(q: Query, ctx: Ctx, signalled: bool, record: seq<U32>)
    requires !q.qtype.PmQuery? && |record| >= RecordWords(q.qtype)
    requires q.state != Ready && !Landed(q, signalled, record)
    ensures var (v, q', c') := Result(q, ctx, false, signalled, false, record);
      && v.None? && q'.state == Flushed
      && c'.log == ctx.log + (if q.state == Flushed then [] else [Kick])
      && var (v2, q2, c2) := Result(q', c', false, signalled, false, record);
         v2.None? && q2 == q' && c2 == c'
  {
  }

  /* ------------------------------------------------- performance queries */

  /** Begin of a performance query whose channels fit gives each channel a
      slot of its domain that was free and is now the query's. */
  lemma PmBeginSlots(q: Query, ctx: Ctx, n: nat)
    requires n < PmQueryCount && CounterSlots.Wf(ctx.pm) && |q.ctr| == 4
    requires CounterSlots.Fits(ctx.pm, PmQueryConfig(n).channels)
    ensures var (q', c') := PmBegin(q, ctx, n);
      var chs := PmQueryConfig(n).channels;
      forall j :: 0 <= j < |chs| ==>
        && 4 * chs[j].domain <= q'.ctr[j] < 4 * chs[j].domain + 4
        && c'.pm.owner[q'.ctr[j]] == Some(q.id) && ctx.pm.owner[q'.ctr[j]].None?
  {
    CounterSlots.BeginSlots(ctx.pm, q.id, q.ctr, PmQueryConfig(n));
  }

  /** End of a performance query frees exactly the slots it owned and
      launches the readback with the query's sequence number. */
  lemma PmEndReleases(q: Query, ctx: Ctx)
    requires CounterSlots.Wf(ctx.pm)
    ensures var c' := PmEnd(q, ctx);
      && (forall x :: 0 <= x < CounterSlots.SlotCount ==>
            c'.pm.owner[x] == if ctx.pm.owner[x] == Some(q.id) then None else ctx.pm.owner[x])
      && c'.log[|c'.log| - 1] == PmReadback(q.sequence)
  {
    CounterSlots.EndSound(ctx.pm, q.id);
  }
}
