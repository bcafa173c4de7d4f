/** Conditional rendering on a query: the comparison the GPU applies to the
    query's record, and whether the command stream first waits for the
    query to land. */
module RenderCondition {
  import opened Words
  import opened Commands
  import CounterSlots
  import opened Query

  /** The render-condition modes of the state tracker. */
  datatype Mode = Wait | NoWait | ByRegionWait | ByRegionNoWait

  /** The driver never negates a render condition. */
  const Negated: bool := false

  /** Whether the caller asked to wait for the query. */
  predicate Waits(mode: Mode) {
    mode != NoWait && mode != ByRegionNoWait
  }

  /** Where the GPU waits for a query's sequence number: the record start,
      or for the stream-output overflow predicate the word its end writes
      0x20 bytes further on. */
  function FifoWait(q: Query): (e: Event)
    ensures e.FifoWait? && e.sequence == q.sequence
  {
    var at := if q.qtype == SoOverflowPredicate then q.offset + 0x20 else q.offset;
    Event.FifoWait(at, q.sequence)
  }

  /** The comparison for a query and whether to wait, before the switch on
      the query type has a say. `undefined` stands for the comparison the
      driver leaves unset for a query type that is not a predicate. */
  function Comparison(q: Query, wait: bool, undefined: CondMode): (res: (CondMode, bool))
    ensures q.qtype == SoOverflowPredicate ==> res == (CondNotEqual, true)
    ensures IsOcclusion(q.qtype) ==> res.1 == wait
    ensures !IsOcclusion(q.qtype) && q.qtype != SoOverflowPredicate ==> res == (undefined, wait)
  {
    match q.qtype
      case SoOverflowPredicate => (if Negated then CondEqual else CondNotEqual, true)
      case OcclusionCounter => (OcclusionComparison(q.nesting, wait), wait)
      case OcclusionPredicate => (OcclusionComparison(q.nesting, wait), wait)
      case _ => (undefined, wait)
  }

  /** An occlusion query that was begun inside another compares its two
      sample words when waiting and renders unconditionally otherwise; an
      outermost one renders if its sample count is nonzero. */
  function OcclusionComparison(nesting: int, wait: bool): (c: CondMode)
    ensures c == CondResNonZero <==> nesting == 0
    ensures c == CondAlways <==> nesting != 0 && !wait
  {
    if !Negated then
      if nesting != 0 then (if wait then CondNotEqual else CondAlways) else CondResNonZero
    else if wait then CondEqual else CondAlways
  }

  /** Set the render condition: the query and mode are stored as given;
      no query renders unconditionally; otherwise the GPU waits for the
      query when asked (always for the overflow predicate) and then
      compares at the query's current record. */
  function RenderCondition(pq: Option<Query>, mode: Mode, undefined: CondMode)
    : (res: (Option<Query>, Mode, seq<Event>))
    ensures res.0 == pq && res.1 == mode
    ensures pq.None? ==> res.2 == [CondModeAlways]
    ensures pq.Some? ==> |res.2| >= 1 && res.2[|res.2| - 1].CondAddress? && res.2[|res.2| - 1].at == pq.value.offset
  {
    match pq
      case None => (pq, mode, [CondModeAlways])
      case Some(q) =>
        var (cond, wait) := Comparison(q, Waits(mode), undefined);
        (pq, mode, (if wait then [FifoWait(q)] else []) + [CondAddress(q.offset, cond)])
  }

  /** The GPU waits exactly when there is a query and either the caller
      asked to wait or the query is the overflow predicate. */
  lemma WaitsIff(pq: Option<Query>, mode: Mode, undefined: CondMode)
    ensures var ev := RenderCondition(pq, mode, undefined).2;
      (exists e :: e in ev && e.FifoWait?) <==> pq.Some? && (Waits(mode) || pq.value.qtype == SoOverflowPredicate)
  {
    var ev := RenderCondition(pq, mode, undefined).2;
    if pq.Some? {
      var (cond, wait) := Comparison(pq.value, Waits(mode), undefined);
      if wait {
        assert ev[0].FifoWait?;
      } else {
        assert ev == [CondAddress(pq.value.offset, cond)];
      }
    }
  }

  /** A predicate query never makes the GPU skip rendering unconditionally
      and never compares for equality: negation is off. */
  lemma PredicatesNeverNegated(q: Query, mode: Mode, undefined: CondMode)
    requires IsOcclusion(q.qtype) || q.qtype == SoOverflowPredicate
    ensures var ev := RenderCondition(Some(q), mode, undefined).2;
      forall e :: e in ev && e.CondAddress? ==> e.cond != CondNever && e.cond != CondEqual
  {
    var (cond, wait) := Comparison(q, Waits(mode), undefined);
    var ev := RenderCondition(Some(q), mode, undefined).2;
    assert ev == (if wait then [FifoWait(q)] else []) + [CondAddress(q.offset, cond)];
  }

  /** The word the GPU waits on is one the query's end samples write with
      the same sequence number, so the wait ends once the query has
      landed. */
  lemma WaitMatchesEnd(q: Query, ctx: Ctx, mode: Mode, undefined: CondMode)
    requires CounterSlots.Wf(ctx.pm) && (IsOcclusion(q.qtype) || q.qtype == SoOverflowPredicate)
    ensures var w := FifoWait(q);
      exists g :: QueryGet(w.at, w.sequence, g) in EndSample(q, ctx).log
  {
    var w := FifoWait(q);
    var gets := EndGets(q.qtype, q.index);
    var ev := Gets(q, gets);
    var c := EndSample(q, ctx);
    var k := if q.qtype == SoOverflowPredicate then 1 else 0;
    assert ev[k] == QueryGet(w.at, w.sequence, gets[k].1);
    if IsOcclusion(q.qtype) {
      var more := if ctx.occlusionActive - 1 == 0 then [SampleCountEnable(false)] else [];
      assert c.log == ctx.log + ev + more;
    } else {
      assert c.log == ctx.log + ev;
    }
    assert c.log[|ctx.log| + k] == ev[k];
  }
}
