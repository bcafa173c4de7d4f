/** The list of driver-specific queries a screen offers: the performance
    counters on Kepler with a recent enough kernel interface, nothing
    otherwise (driver statistics are compiled out). */
module DriverQueryInfo {
  import opened Words
  import opened PmConfig
  import opened Query

  /** Number of driver statistics queries (compiled out). */
  const DrvStatCount: nat := 0
  /** The query type reported for an identifier that names no query. */
  const NoQueryType: nat := 0xdead_d01d

  datatype Info = Info(name: string, queryType: QueryType, maxValue: U64, usesByteUnits: bool)

  /** The number of driver-specific queries the screen offers. */
  function QueryCount(s: Screen): (count: nat)
    ensures count == (if PmSupported(s) then PmQueryCount else 0)
  {
    DrvStatCount + (if s.kepler && s.drmVersion >= PmDrmVersion then PmQueryCount else 0)
  }

  /** Describe query `id`; without an info record only the count is
      returned. A listed query reports its name and type, a maximum of
      2^64-1 for the raw counters and 100 from the occupancy metric on;
      an unlisted one reports a sentinel and 0. */
  function GetDriverQueryInfo(s: Screen, id: nat, wantInfo: bool): (res: (nat, Option<Info>))
    ensures !wantInfo ==> res == (QueryCount(s), None)
    ensures wantInfo ==> res.1.Some? && (res.0 == 1 <==> id < QueryCount(s)) && (res.0 == 0 <==> id >= QueryCount(s))
  {
    var count := QueryCount(s);
    if !wantInfo then (count, None)
    else if id < count then
      (1, Some(Info(PmQueryName(id - DrvStatCount), PmQuery(id - DrvStatCount),
                    if id < MetricMpOccupancy then TWO_64 - 1 else 100, false)))
    else (0, Some(Info("this_is_not_the_query_you_are_looking_for", Unknown(NoQueryType), 0, false)))
  }

  /** Every query the screen lists is one query creation accepts, and every
      performance query creation accepts is listed. */
  lemma ListedIffCreatable(s: Screen, id: nat)
    ensures var r := GetDriverQueryInfo(s, id, true);
      r.0 == 1 <==> Known(PmQuery(id), s)
    ensures var r := GetDriverQueryInfo(s, id, true);
      r.0 == 1 ==> r.1.value.queryType == PmQuery(id) && Known(r.1.value.queryType, s)
  {
  }

  /** An identifier the screen does not list is answered with a type that
      query creation rejects. */
  lemma UnlistedNotCreatable(s: Screen, id: nat)
    requires id >= QueryCount(s)
    ensures var r := GetDriverQueryInfo(s, id, true);
      r.0 == 0 && r.1.value.maxValue == 0 && !Known(r.1.value.queryType, s)
  {
  }

  /** The raw counters and the instruction-rate metrics range over the full
      64 bits; the three percentage metrics up to 100. */
  lemma MaxValues(s: Screen, id: nat)
    requires id < QueryCount(s)
    ensures var i := GetDriverQueryInfo(s, id, true).1.value;
      && (id < 35 ==> i.maxValue == TWO_64 - 1)
      && (35 <= id ==> i.maxValue == 100 && PmQueryName(id)[..7] == "metric-")
  {
    if id == 35 {
      assert PmQueryName(id) == "metric-achieved_occupancy";
    } else if id == 36 {
      assert PmQueryName(id) == "metric-sm_efficiency";
    } else if id == 37 {
      assert PmQueryName(id) == "metric-inst_replay_overhead";
    }
  }
}
