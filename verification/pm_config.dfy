/** The static configuration of the multiprocessor performance-counter
    queries: for each of the 38 queries, the counter channels it programs,
    the reduction that turns the per-processor samples into one value, and
    its normalisation fraction. Queries 0..31 read one raw counter, 32..37
    are metrics computed from two. */
module PmConfig {
  import opened Words
  import opened Commands

  /** Number of performance-counter queries (entries of the name table). */
  const PmQueryCount: nat := 38
  /** Index of the first metric reported as a percentage (achieved occupancy). */
  const MetricMpOccupancy: nat := 35

  /** The reductions of the metric aggregator. */
  datatype Op = OpSum | OpOr | OpAnd | OpRelSumMM | OpDivSumM0 | OpAvgDivMM | OpAvgDivM0

  /** One counter channel: signal domain (0 = A, 1 = B), signal group,
      16-bit function mask, function mode and source selection. */
  datatype Channel = Channel(func: nat, mode: FuncMode, domain: nat, group: SigGroup, srcSel: U32)

  datatype Config = Config(channels: seq<Channel>, op: Op, normNum: U8, normDen: U8)

  /** A configuration the table can hold: one to four channels, each in
      domain 0 or 1, a nonzero denominator, and two channels for the
      two-counter reductions. */
  predicate ValidConfig(cfg: Config) {
    && 1 <= |cfg.channels| <= 4
    && (forall i :: 0 <= i < |cfg.channels| ==> cfg.channels[i].domain < 2)
    && cfg.normDen != 0
    && (cfg.op in {OpRelSumMM, OpDivSumM0, OpAvgDivMM, OpAvgDivM0} ==> |cfg.channels| == 2)
  }

  function ChA(func: nat, mode: FuncMode, g: SigGroup, s: U32): Channel { Channel(func, mode, 0, g, s) }
  function ChB(func: nat, mode: FuncMode, g: SigGroup, s: U32): Channel { Channel(func, mode, 1, g, s) }
  function Single(ch: Channel, num: U8, den: U8): Config { Config([ch], OpSum, num, den) }

  /** The configuration table, in performance query order. */
  const PmQueryTable: seq<Config> := [
    Single(ChA(0x0001, ModeB6, SigUser, 0), 1, 1),
    Single(ChA(0x0001, ModeB6, SigUser, 4), 1, 1),
    Single(ChA(0x0001, ModeB6, SigUser, 8), 1, 1),
    Single(ChA(0x0001, ModeB6, SigUser, 12), 1, 1),
    Single(ChA(0x0001, ModeB6, SigUser, 16), 1, 1),
    Single(ChA(0x0001, ModeB6, SigUser, 20), 1, 1),
    Single(ChA(0x0001, ModeB6, SigUser, 24), 1, 1),
    Single(ChA(0x0001, ModeB6, SigUser, 28), 1, 1),
    Single(ChA(0x0001, ModeB6, SigLaunch, 0x00000004), 1, 1),
    Single(ChA(0x003f, ModeB6, SigLaunch, 0x398a4188), 1, 1),
    Single(ChB(0x0001, ModeB6, SigWarp, 0x0000001c), 1, 1),
    Single(ChA(0x0001, ModeB6, SigIssue, 0x00000004), 1, 1),
    Single(ChA(0x0001, ModeB6, SigIssue, 0x00000008), 1, 1),
    Single(ChA(0x0003, ModeB6, SigExec, 0x00000398), 1, 1),
    Single(ChA(0x0001, ModeB6, SigLdst, 0x00000008), 1, 1),
    Single(ChA(0x0001, ModeB6, SigLdst, 0x0000000c), 1, 1),
    Single(ChA(0x0001, ModeB6, SigLdst, 0x00000000), 1, 1),
    Single(ChA(0x0001, ModeB6, SigLdst, 0x00000004), 1, 1),
    Single(ChB(0x0001, ModeB6, SigL1, 0x00000000), 1, 1),
    Single(ChB(0x0001, ModeB6, SigL1, 0x00000004), 1, 1),
    Single(ChB(0x0001, ModeB6, SigL1, 0x00000008), 1, 1),
    Single(ChB(0x0001, ModeB6, SigL1, 0x0000000c), 1, 1),
    Single(ChA(0x0001, ModeB6, SigLdst, 0x00000010), 1, 1),
    Single(ChA(0x0001, ModeB6, SigLdst, 0x00000014), 1, 1),
    Single(ChB(0x0001, ModeB6, SigL1, 0x00000010), 1, 1),
    Single(ChB(0x0001, ModeB6, SigL1, 0x00000014), 1, 1),
    Single(ChB(0x0001, ModeB6, SigMem, 0x00000000), 1, 1),
    Single(ChB(0x0001, ModeB6, SigMem, 0x00000004), 1, 1),
    Single(ChA(0x0001, ModeB6, SigBranch, 0x0000000c), 1, 1),
    Single(ChA(0x0001, ModeB6, SigBranch, 0x00000010), 1, 1),
    Single(ChB(0x003f, ModeB6, SigWarp, 0x31483104), 2, 1),
    Single(ChB(0x0001, ModeB6, SigWarp, 0x00000000), 1, 1),
    Config([ChA(0x3, ModeB6, SigExec, 0x398), ChB(0xffff, ModeLogop, SigWarp, 0x0)], OpDivSumM0, 40, 1),
    Config([ChA(0x3, ModeB6, SigExec, 0x398), ChB(0x1, ModeB6, SigWarp, 0x0)], OpAvgDivMM, 40, 1),
    Config([ChA(0x3, ModeB6, SigExec, 0x398), ChA(0xe, ModeLogop, SigExec, 0x398)], OpAvgDivMM, 40, 1),
    Config([ChB(0x3f, ModeB6, SigWarp, 0x31483104), ChB(0x01, ModeB6, SigWarp, 0x0)], OpAvgDivMM, 200, 64),
    Config([ChB(0x01, ModeB6, SigWarp, 0x0), ChB(0xffff, ModeLogop, SigWarp, 0x0)], OpAvgDivM0, 100, 1),
    Config([ChA(0x3, ModeB6, SigIssue, 0x104), ChA(0x3, ModeB6, SigExec, 0x398)], OpRelSumMM, 100, 1)
  ]

  /** The configuration of performance query n. */
  function PmQueryConfig(n: nat): (cfg: Config)
    requires n < PmQueryCount
    ensures ValidConfig(cfg)
    ensures n < 32 <==> (|cfg.channels| == 1 && cfg.op == OpSum)
  {
    if n < 32 then RawEntriesValid(n, n / 8 * 8); PmQueryTable[n]
    else MetricEntriesValid(n); PmQueryTable[n]
  }

  /** Entries lo .. lo+7 of the table (lo = 0, 8, 16 or 24): one raw
      counter each, summed. */
  lemma RawEntriesValid(n: nat, lo: nat)
    requires lo == 0 || lo == 8 || lo == 16 || lo == 24
    requires lo <= n < lo + 8
    ensures ValidConfig(PmQueryTable[n]) && |PmQueryTable[n].channels| == 1 && PmQueryTable[n].op == OpSum
  {
  }

  /** The metric entries 32 .. 37: two counters and a reduction other than
      a plain sum. */
  lemma MetricEntriesValid(n: nat)
    requires 32 <= n < PmQueryCount
    ensures ValidConfig(PmQueryTable[n]) && |PmQueryTable[n].channels| == 2 && PmQueryTable[n].op != OpSum
  {
  }

  /** The query names, in query-number order. */
  function PmQueryName(n: nat): string
    requires n < PmQueryCount
  {
    [ "prof_trigger_00", "prof_trigger_01", "prof_trigger_02", "prof_trigger_03",
      "prof_trigger_04", "prof_trigger_05", "prof_trigger_06", "prof_trigger_07",
      "warps_launched", "threads_launched", "sm_cta_launched",
      "inst_issued1", "inst_issued2", "inst_executed",
      "local_load", "local_store", "shared_load", "shared_store",
      "l1_local_load_hit", "l1_local_load_miss", "l1_local_store_hit", "l1_local_store_miss",
      "gld_request", "gst_request", "l1_global_load_hit", "l1_global_load_miss",
      "uncached_global_load_transaction", "global_store_transaction",
      "branch", "divergent_branch", "active_warps", "active_cycles",
      "metric-ipc", "metric-ipac", "metric-ipec", "metric-achieved_occupancy",
      "metric-sm_efficiency", "metric-inst_replay_overhead" ][n]
  }

  /** How many of the channels live in domain `d`. */
  function Need(channels: seq<Channel>, d: nat): (k: nat)
    ensures k <= |channels|
  {
    if |channels| == 0 then 0
    else (if channels[0].domain == d then 1 else 0) + Need(channels[1..], d)
  }

  /** Counting the channels from position i on, one step at a time. */
  lemma NeedStep(channels: seq<Channel>, i: nat, d: nat)
    requires i < |channels|
    ensures Need(channels[i..], d) == (if channels[i].domain == d then 1 else 0) + Need(channels[i + 1..], d)
  {
    assert channels[i..][1..] == channels[i + 1..];
  }
}
