/** The multiprocessor counter-slot multiplexer: eight hardware counter
    slots split into two signal domains of four (domain d owns slots
    4d .. 4d+3). A performance query's begin assigns each of its channels
    the lowest free slot of the channel's domain, or refuses the whole
    query when a domain would exceed four active channels; its end releases
    every slot the query owns. Owners are query identities. */
module CounterSlots {
  import opened Words
  import opened Commands
  import opened PmConfig

  const SlotCount: nat := 8
  const SlotsPerDomain: nat := 4

  /** `owner[c]` is the query using slot c; `active[d]` is the number of
      channels active in domain d; `enabled` records that counting was
      switched on once for the screen. */
  datatype SlotTable = SlotTable(owner: seq<Option<nat>>, active: seq<U32>, enabled: bool)

  const Initial: SlotTable := SlotTable(seq(8, _ => None), [0, 0], false)

  function Bit(o: Option<nat>): nat { if o.Some? then 1 else 0 }

  /** Number of occupied slots in domain d. */
  function Occupied(owner: seq<Option<nat>>, d: nat): (k: nat)
    requires |owner| == SlotCount && d < 2
    ensures k <= SlotsPerDomain
    ensures k == SlotsPerDomain <==> forall s :: 4 * d <= s < 4 * d + 4 ==> owner[s].Some?
  {
    Bit(owner[4 * d]) + Bit(owner[4 * d + 1]) + Bit(owner[4 * d + 2]) + Bit(owner[4 * d + 3])
  }

  /** The slot table is well formed when the per-domain counters agree
      with the slots actually occupied. */
  predicate Wf(t: SlotTable) {
    && |t.owner| == SlotCount
    && |t.active| == 2
    && t.active[0] == Occupied(t.owner, 0)
    && t.active[1] == Occupied(t.owner, 1)
  }

  lemma InitialWf()
    ensures Wf(Initial)
  {
  }

  /** The first free slot at or after c below hi, or hi when there is none
      (the value the search loop leaves behind). */
  function FreeFrom(owner: seq<Option<nat>>, c: nat, hi: nat): (r: nat)
    requires hi <= |owner| && c <= hi
    ensures c <= r <= hi
    ensures r < hi ==> owner[r].None?
    ensures forall s :: c <= s < r ==> owner[s].Some?
    decreases hi - c
  {
    if c == hi then hi
    else if owner[c].None? then c
    else FreeFrom(owner, c + 1, hi)
  }

  /** The lowest free slot of domain d, or 4d+4 when the domain is full. */
  function FirstFree(owner: seq<Option<nat>>, d: nat): (c: nat)
    requires |owner| == SlotCount && d < 2
    ensures 4 * d <= c <= 4 * d + 4
    ensures c < 4 * d + 4 <==> Occupied(owner, d) < SlotsPerDomain
  {
    FreeFrom(owner, 4 * d, 4 * d + 4)
  }

  /** The multiplexer mask written when a domain goes from idle to active:
      bit 22, the enable bit of the other domain's position (bit 15 for
      domain 0, bit 7 for domain 1), and this domain's bit when the other
      domain is already counting. */
  function MultiplexMask(d: nat, otherActive: bool): U32
    requires d < 2
  {
    var own := if d == 0 then 0x8000 else 0x80;
    var other := if d == 0 then 0x80 else 0x8000;
    0x40_0000 + own + (if otherActive then other else 0)
  }

  /** The commands programming slot c for a channel. */
  function ConfigureSlot(ch: Channel, c: nat): seq<Event>
  {
    [ PmSigSel(ch.domain, c % 4, ch.group),
      PmSrcSel(c, Wrap32(ch.srcSel + 0x2108421 * (c % 4))),
      PmFunc(c, ch.func, ch.mode),
      PmReset(c) ]
  }

  /** The multiplexer command for a channel of domain d, when d is idle. */
  function Wake(t: SlotTable, d: nat): seq<Event>
    requires |t.active| == 2 && d < 2
  {
    if t.active[d] == 0 then [PmMultiplex(MultiplexMask(d, t.active[1 - d] != 0))] else []
  }

  /** One channel (number i, domain d) given a slot: the domain's counter
      goes up, and the lowest free slot c of the domain, if any, becomes q's
      and is recorded as the channel's slot. */
  function Step(t: SlotTable, q: nat, ctr: seq<int>, d: nat, i: nat): (res: (SlotTable, seq<int>, nat))
    requires |t.owner| == SlotCount && |t.active| == 2 && d < 2
    requires |ctr| == 4 && i < 4
    ensures |res.0.owner| == SlotCount && |res.0.active| == 2 && |res.1| == 4
  {
    var t1 := t.(active := t.active[d := Inc32(t.active[d])]);
    var c := FirstFree(t1.owner, d);
    if c < 4 * d + 4 then (t1.(owner := t1.owner[c := Some(q)]), ctr[i := c], c)
    else (t1, ctr, c)
  }

  /** Channels i.. of a query being given slots, one after another. */
  function Assign(t: SlotTable, q: nat, ctr: seq<int>, chs: seq<Channel>, i: nat)
    : (res: (SlotTable, seq<int>, seq<Event>))
    requires |t.owner| == SlotCount && |t.active| == 2
    requires |ctr| == 4 && i <= |chs| <= 4
    requires forall j :: 0 <= j < |chs| ==> chs[j].domain < 2
    ensures |res.0.owner| == SlotCount && |res.0.active| == 2 && |res.1| == 4
    ensures res.0.enabled == t.enabled
    decreases |chs| - i
  {
    if i == |chs| then (t, ctr, [])
    else
      var s := Step(t, q, ctr, chs[i].domain, i);
      var rest := Assign(s.0, q, s.1, chs, i + 1);
      (rest.0, rest.1, Wake(t, chs[i].domain) + ConfigureSlot(chs[i], s.2) + rest.2)
  }

  /** Whether a query with these channels fits beside the active ones. */
  predicate Fits(t: SlotTable, chs: seq<Channel>)
    requires |t.active| == 2
  {
    t.active[0] + Need(chs, 0) <= 4 && t.active[1] + Need(chs, 1) <= 4
  }

  /** The command switching counting on, issued the first time only. */
  function EnableOnce(t: SlotTable): (ev: seq<Event>)
    ensures ev == [] || ev == [PmCountersEnable]
  {
    if !t.enabled then [PmCountersEnable] else []
  }

  /** Begin of a performance query `q` whose slot indices are `ctr`:
      refuse (changing nothing) when either domain lacks room, otherwise
      switch counting on once and assign every channel. */
  function Begin(t: SlotTable, q: nat, ctr: seq<int>, cfg: Config): (res: (SlotTable, seq<int>, seq<Event>))
    requires Wf(t) && ValidConfig(cfg) && |ctr| == 4
    ensures !Fits(t, cfg.channels) ==> res == (t, ctr, [])
    ensures Fits(t, cfg.channels) ==>
      && res.0.enabled
      && |res.2| >= |EnableOnce(t)| && res.2[..|EnableOnce(t)|] == EnableOnce(t)
      && (forall e :: e in res.2[|EnableOnce(t)|..] ==> !e.PmCountersEnable?)
  {
    if !Fits(t, cfg.channels) then (t, ctr, [])
    else
      var r := Assign(t.(enabled := true), q, ctr, cfg.channels, 0);
      AssignNoEnable(t.(enabled := true), q, ctr, cfg.channels, 0);
      (r.0, r.1, EnableOnce(t) + r.2)
  }

  /** Assigning slots never switches counting on. */
  lemma {:induction false} AssignNoEnable(t: SlotTable, q: nat, ctr: seq<int>, chs: seq<Channel>, i: nat)
    requires |t.owner| == SlotCount && |t.active| == 2
    requires |ctr| == 4 && i <= |chs| <= 4
    requires forall j :: 0 <= j < |chs| ==> chs[j].domain < 2
    ensures forall e :: e in Assign(t, q, ctr, chs, i).2 ==> !e.PmCountersEnable?
    decreases |chs| - i
  {
    if i < |chs| {
      var s := Step(t, q, ctr, chs[i].domain, i);
      AssignNoEnable(s.0, q, s.1, chs, i + 1);
      var rest := Assign(s.0, q, s.1, chs, i + 1).2;
      var ev := Wake(t, chs[i].domain) + ConfigureSlot(chs[i], s.2);
      assert forall e :: e in ev ==> !e.PmCountersEnable?;
      assert Assign(t, q, ctr, chs, i).2 == ev + rest;
    }
  }

  /** Slots c.. released for query q, one at a time as the source's loop does. */
  function Release(t: SlotTable, q: nat, c: nat): (t': SlotTable)
    requires |t.owner| == SlotCount && |t.active| == 2 && c <= SlotCount
    ensures |t'.owner| == SlotCount && |t'.active| == 2 && t'.enabled == t.enabled
    decreases SlotCount - c
  {
    if c == SlotCount then t
    else if t.owner[c] == Some(q) then
      var d := c / 4;
      Release(t.(active := t.active[d := Dec32(t.active[d])], owner := t.owner[c := None]), q, c + 1)
    else Release(t, q, c + 1)
  }

  /** Counting switched off on every occupied slot before the readback. */
  function DisableAll(owner: seq<Option<nat>>, c: nat): (ev: seq<Event>)
    requires c <= |owner|
    ensures forall e :: e in ev ==> e.PmFuncOff? && c <= e.slot < |owner| && owner[e.slot].Some?
    ensures forall x :: c <= x < |owner| && owner[x].Some? ==> PmFuncOff(x) in ev
    decreases |owner| - c
  {
    if c == |owner| then []
    else (if owner[c].Some? then [PmFuncOff(c)] else []) + DisableAll(owner, c + 1)
  }

  /** End of performance query q: disable counting, release q's slots. */
  function End(t: SlotTable, q: nat): (res: (SlotTable, seq<Event>))
    requires Wf(t)
    ensures |res.0.owner| == SlotCount
  {
    (Release(t, q, 0), DisableAll(t.owner, 0))
  }

  /** Taking a free slot raises its domain's occupancy by one and leaves
      the other domain's alone. */
  lemma OccupiedTake(owner: seq<Option<nat>>, c: nat, q: nat)
    requires |owner| == SlotCount && c < SlotCount && owner[c].None?
    ensures Occupied(owner[c := Some(q)], c / 4) == Occupied(owner, c / 4) + 1
    ensures Occupied(owner[c := Some(q)], 1 - c / 4) == Occupied(owner, 1 - c / 4)
  {
  }

  /** A step in a domain with room takes the lowest free slot of that
      domain and keeps the table well formed. */
  lemma StepSound(t: SlotTable, q: nat, ctr: seq<int>, d: nat, i: nat)
    requires Wf(t) && d < 2 && t.active[d] < 4 && |ctr| == 4 && i < 4
    ensures var s := Step(t, q, ctr, d, i);
      && Wf(s.0)
      && 4 * d <= s.2 < 4 * d + 4
      && t.owner[s.2].None?
      && s.0.owner == t.owner[s.2 := Some(q)]
      && s.1 == ctr[i := s.2]
      && s.0.active[d] == t.active[d] + 1
      && s.0.active[1 - d] == t.active[1 - d]
      && s.0.enabled == t.enabled
      && (forall x :: 4 * d <= x < s.2 ==> t.owner[x].Some?)
  {
    var c := FirstFree(t.owner, d);
    assert c / 4 == d;
    OccupiedTake(t.owner, c, q);
  }

  /** Assigning channels i.. of a query that fits keeps the table well
      formed and raises each domain's count by the channels it needs. */
  lemma {:induction false} AssignCounts(t: SlotTable, q: nat, ctr: seq<int>, chs: seq<Channel>, i: nat)
    requires Wf(t) && |ctr| == 4 && i <= |chs| <= 4
    requires forall j :: 0 <= j < |chs| ==> chs[j].domain < 2
    requires t.active[0] + Need(chs[i..], 0) <= 4 && t.active[1] + Need(chs[i..], 1) <= 4
    ensures var r := Assign(t, q, ctr, chs, i);
      && Wf(r.0)
      && r.0.active[0] == t.active[0] + Need(chs[i..], 0)
      && r.0.active[1] == t.active[1] + Need(chs[i..], 1)
    decreases |chs| - i
  {
    if i == |chs| {
      assert chs[i..] == [];
    } else {
      NeedStep(chs, i, 0);
      NeedStep(chs, i, 1);
      StepSound(t, q, ctr, chs[i].domain, i);
      var s := Step(t, q, ctr, chs[i].domain, i);
      AssignCounts(s.0, q, s.1, chs, i + 1);
    }
  }

  /** Assigning channels i.. changes no entry of `ctr` outside i..|chs|. */
  lemma {:induction false} AssignCtrFrame(t: SlotTable, q: nat, ctr: seq<int>, chs: seq<Channel>, i: nat)
    requires |t.owner| == SlotCount && |t.active| == 2
    requires |ctr| == 4 && i <= |chs| <= 4
    requires forall j :: 0 <= j < |chs| ==> chs[j].domain < 2
    ensures forall j :: 0 <= j < 4 && !(i <= j < |chs|) ==> Assign(t, q, ctr, chs, i).1[j] == ctr[j]
    decreases |chs| - i
  {
    if i < |chs| {
      var s := Step(t, q, ctr, chs[i].domain, i);
      AssignCtrFrame(s.0, q, s.1, chs, i + 1);
    }
  }

  /** Slots already occupied keep their owner, and a slot whose owner
      changes is the slot of one of the channels from i on. */
  lemma {:induction false} AssignKeeps(t: SlotTable, q: nat, ctr: seq<int>, chs: seq<Channel>, i: nat)
    requires Wf(t) && |ctr| == 4 && i <= |chs| <= 4
    requires forall j :: 0 <= j < |chs| ==> chs[j].domain < 2
    requires t.active[0] + Need(chs[i..], 0) <= 4 && t.active[1] + Need(chs[i..], 1) <= 4
    ensures var r := Assign(t, q, ctr, chs, i);
      && (forall x :: 0 <= x < SlotCount && t.owner[x].Some? ==> r.0.owner[x] == t.owner[x])
      && (forall x :: 0 <= x < SlotCount && r.0.owner[x] != t.owner[x] ==>
            exists j :: i <= j < |chs| && r.1[j] == x)
    decreases |chs| - i
  {
    if i < |chs| {
      NeedStep(chs, i, 0);
      NeedStep(chs, i, 1);
      StepSound(t, q, ctr, chs[i].domain, i);
      var s := Step(t, q, ctr, chs[i].domain, i);
      AssignKeeps(s.0, q, s.1, chs, i + 1);
      AssignCtrFrame(s.0, q, s.1, chs, i + 1);
      var r := Assign(s.0, q, s.1, chs, i + 1);
      assert r.1[i] == s.2;
      forall x | 0 <= x < SlotCount && r.0.owner[x] != t.owner[x]
        ensures exists j :: i <= j < |chs| && r.1[j] == x
      {
        if x != s.2 {
          assert r.0.owner[x] != s.0.owner[x];
        }
      }
    }
  }

  /** Every channel from i on gets a slot of its own domain. */
  lemma {:induction false} AssignInDomain(t: SlotTable, q: nat, ctr: seq<int>, chs: seq<Channel>, i: nat)
    requires Wf(t) && |ctr| == 4 && i <= |chs| <= 4
    requires forall j :: 0 <= j < |chs| ==> chs[j].domain < 2
    requires t.active[0] + Need(chs[i..], 0) <= 4 && t.active[1] + Need(chs[i..], 1) <= 4
    ensures var r := Assign(t, q, ctr, chs, i);
      forall j :: i <= j < |chs| ==> 4 * chs[j].domain <= r.1[j] < 4 * chs[j].domain + 4
    decreases |chs| - i
  {
    if i < |chs| {
      NeedStep(chs, i, 0);
      NeedStep(chs, i, 1);
      StepSound(t, q, ctr, chs[i].domain, i);
      var s := Step(t, q, ctr, chs[i].domain, i);
      AssignInDomain(s.0, q, s.1, chs, i + 1);
      AssignCtrFrame(s.0, q, s.1, chs, i + 1);
      var r := Assign(s.0, q, s.1, chs, i + 1);
      assert Assign(t, q, ctr, chs, i).1 == r.1;
      assert r.1[i] == s.2;
    }
  }

  /** Every channel from i on gets a slot that was free before and
      belongs to q afterwards. */
  lemma {:induction false} AssignOwned(t: SlotTable, q: nat, ctr: seq<int>, chs: seq<Channel>, i: nat)
    requires Wf(t) && |ctr| == 4 && i <= |chs| <= 4
    requires forall j :: 0 <= j < |chs| ==> chs[j].domain < 2
    requires t.active[0] + Need(chs[i..], 0) <= 4 && t.active[1] + Need(chs[i..], 1) <= 4
    ensures var r := Assign(t, q, ctr, chs, i);
      && (forall j :: i <= j < |chs| ==> 0 <= r.1[j] < SlotCount)
      && (forall j :: i <= j < |chs| ==> r.0.owner[r.1[j]] == Some(q) && t.owner[r.1[j]].None?)
    decreases |chs| - i
  {
    if i < |chs| {
      NeedStep(chs, i, 0);
      NeedStep(chs, i, 1);
      StepSound(t, q, ctr, chs[i].domain, i);
      var s := Step(t, q, ctr, chs[i].domain, i);
      AssignOwned(s.0, q, s.1, chs, i + 1);
      AssignKeeps(s.0, q, s.1, chs, i + 1);
      AssignCtrFrame(s.0, q, s.1, chs, i + 1);
      var r := Assign(s.0, q, s.1, chs, i + 1);
      assert Assign(t, q, ctr, chs, i).0 == r.0 && Assign(t, q, ctr, chs, i).1 == r.1;
      assert r.1[i] == s.2;
      assert r.0.owner[s.2] == Some(q);
      forall j | i < j < |chs|
        ensures t.owner[r.1[j]].None?
      {
        assert s.0.owner[r.1[j]].None?;
      }
    }
  }

  /** No two channels from i on share a slot. */
  lemma {:induction false} AssignDistinct(t: SlotTable, q: nat, ctr: seq<int>, chs: seq<Channel>, i: nat)
    requires Wf(t) && |ctr| == 4 && i <= |chs| <= 4
    requires forall j :: 0 <= j < |chs| ==> chs[j].domain < 2
    requires t.active[0] + Need(chs[i..], 0) <= 4 && t.active[1] + Need(chs[i..], 1) <= 4
    ensures var r := Assign(t, q, ctr, chs, i);
      forall j, k :: i <= j < k < |chs| ==> r.1[j] != r.1[k]
    decreases |chs| - i
  {
    if i < |chs| {
      NeedStep(chs, i, 0);
      NeedStep(chs, i, 1);
      StepSound(t, q, ctr, chs[i].domain, i);
      var s := Step(t, q, ctr, chs[i].domain, i);
      AssignDistinct(s.0, q, s.1, chs, i + 1);
      AssignOwned(s.0, q, s.1, chs, i + 1);
      AssignCtrFrame(s.0, q, s.1, chs, i + 1);
      assert var r := Assign(s.0, q, s.1, chs, i + 1);
        forall k :: i < k < |chs| ==> 0 <= r.1[k] < SlotCount && s.0.owner[r.1[k]].None?;
      var r := Assign(s.0, q, s.1, chs, i + 1);
      TakenSlotDistinct(r.1, s.0.owner, s.2, i, |chs|);
      assert Assign(t, q, ctr, chs, i).1 == r.1;
      assert r.1[i] == s.2;
    }
  }

  /** A slot already taken is none of the slots later channels find free. */
  lemma TakenSlotDistinct(slots: seq<int>, owner: seq<Option<nat>>, c: nat, i: nat, n: nat)
    requires |slots| == 4 && i < n <= 4 && |owner| == SlotCount && c < SlotCount && owner[c].Some?
    requires forall k :: i < k < n ==> 0 <= slots[k] < SlotCount && owner[slots[k]].None?
    ensures forall k :: i < k < n ==> slots[k] != c
  {
  }

  /** A slot taken after one more step was taken before it or is that
      step's slot. */
  lemma WidenTaken(slots: seq<int>, owner: seq<Option<nat>>, c: nat, q: nat, i: nat, j: nat, x: nat)
    requires |slots| == 4 && i < j <= 4 && |owner| == SlotCount && x < SlotCount && c < SlotCount && slots[i] == c
    requires owner[c := Some(q)][x].Some? || exists k :: i + 1 <= k < j && slots[k] == x
    ensures owner[x].Some? || exists k :: i <= k < j && slots[k] == x
  {
    if x == c {
      assert slots[i] == x;
    }
  }

  /** Each channel from i on gets, in order, the lowest slot of its domain
      free at its turn: every lower slot of the domain was occupied before
      the assignment or taken by an earlier channel of the query. */
  lemma {:induction false} AssignLowest(t: SlotTable, q: nat, ctr: seq<int>, chs: seq<Channel>, i: nat)
    requires Wf(t) && |ctr| == 4 && i <= |chs| <= 4
    requires forall j :: 0 <= j < |chs| ==> chs[j].domain < 2
    requires t.active[0] + Need(chs[i..], 0) <= 4 && t.active[1] + Need(chs[i..], 1) <= 4
    ensures var r := Assign(t, q, ctr, chs, i);
      forall j, x :: i <= j < |chs| && 4 * chs[j].domain <= x < r.1[j] && x < SlotCount ==>
        t.owner[x].Some? || exists k :: i <= k < j && r.1[k] == x
    decreases |chs| - i
  {
    if i < |chs| {
      NeedStep(chs, i, 0);
      NeedStep(chs, i, 1);
      StepSound(t, q, ctr, chs[i].domain, i);
      var s := Step(t, q, ctr, chs[i].domain, i);
      AssignLowest(s.0, q, s.1, chs, i + 1);
      AssignCtrFrame(s.0, q, s.1, chs, i + 1);
      var r := Assign(s.0, q, s.1, chs, i + 1);
      assert Assign(t, q, ctr, chs, i).1 == r.1;
      assert r.1[i] == s.2;
      forall j, x | i <= j < |chs| && 4 * chs[j].domain <= x < r.1[j] && x < SlotCount
        ensures t.owner[x].Some? || exists k :: i <= k < j && r.1[k] == x
      {
        if j == i {
          assert t.owner[x].Some?;
        } else {
          WidenTaken(r.1, t.owner, s.2, q, i, j, x);
        }
      }
    }
  }

  /** A query that fits is given its slots by assigning every channel in
      the table with counting switched on. */
  lemma BeginAssigns(t: SlotTable, q: nat, ctr: seq<int>, cfg: Config)
    requires Wf(t) && ValidConfig(cfg) && |ctr| == 4 && Fits(t, cfg.channels)
    ensures var r := Assign(t.(enabled := true), q, ctr, cfg.channels, 0);
      Begin(t, q, ctr, cfg).0 == r.0 && Begin(t, q, ctr, cfg).1 == r.1
    ensures cfg.channels[0..] == cfg.channels
    ensures Wf(t.(enabled := true))
  {
  }

  /** Begin of a query that fits keeps the table well formed, switches
      counting on, and raises each domain's count by the channels the query
      needs there. */
  lemma BeginCounts(t: SlotTable, q: nat, ctr: seq<int>, cfg: Config)
    requires Wf(t) && ValidConfig(cfg) && |ctr| == 4 && Fits(t, cfg.channels)
    ensures var r := Begin(t, q, ctr, cfg);
      && Wf(r.0)
      && r.0.enabled
      && r.0.active[0] == t.active[0] + Need(cfg.channels, 0)
      && r.0.active[1] == t.active[1] + Need(cfg.channels, 1)
  {
    BeginAssigns(t, q, ctr, cfg);
    AssignCounts(t.(enabled := true), q, ctr, cfg.channels, 0);
  }

  /** Begin of a query that fits gives each channel a slot of its own
      domain that was free and now belongs to q, no two channels the same. */
  lemma BeginSlots(t: SlotTable, q: nat, ctr: seq<int>, cfg: Config)
    requires Wf(t) && ValidConfig(cfg) && |ctr| == 4 && Fits(t, cfg.channels)
    ensures var r := Begin(t, q, ctr, cfg);
      var chs := cfg.channels;
      && (forall j :: 0 <= j < |chs| ==> 4 * chs[j].domain <= r.1[j] < 4 * chs[j].domain + 4)
      && (forall j :: 0 <= j < |chs| ==> r.0.owner[r.1[j]] == Some(q) && t.owner[r.1[j]].None?)
      && (forall j, k :: 0 <= j < k < |chs| ==> r.1[j] != r.1[k])
  {
    BeginAssigns(t, q, ctr, cfg);
    var t1 := t.(enabled := true);
    AssignInDomain(t1, q, ctr, cfg.channels, 0);
    AssignOwned(t1, q, ctr, cfg.channels, 0);
    AssignDistinct(t1, q, ctr, cfg.channels, 0);
  }

  /** The channels take their slots in order: each gets the lowest slot of
      its domain free at its turn, every lower slot of the domain having
      been occupied before begin or taken by an earlier channel. */
  lemma BeginLowest(t: SlotTable, q: nat, ctr: seq<int>, cfg: Config)
    requires Wf(t) && ValidConfig(cfg) && |ctr| == 4 && Fits(t, cfg.channels)
    ensures var r := Begin(t, q, ctr, cfg);
      var chs := cfg.channels;
      forall j, x :: 0 <= j < |chs| && 4 * chs[j].domain <= x < r.1[j] && x < SlotCount ==>
        t.owner[x].Some? || exists k :: 0 <= k < j && r.1[k] == x
  {
    BeginAssigns(t, q, ctr, cfg);
    AssignLowest(t.(enabled := true), q, ctr, cfg.channels, 0);
  }

  /** Of two channels in one domain, the earlier gets the lower slot. */
  lemma BeginOrdered(t: SlotTable, q: nat, ctr: seq<int>, cfg: Config)
    requires Wf(t) && ValidConfig(cfg) && |ctr| == 4 && Fits(t, cfg.channels)
    ensures var r := Begin(t, q, ctr, cfg);
      var chs := cfg.channels;
      forall j, k :: 0 <= j < k < |chs| && chs[j].domain == chs[k].domain ==> r.1[j] < r.1[k]
  {
    BeginLowest(t, q, ctr, cfg);
    BeginSlots(t, q, ctr, cfg);
    var slots := Begin(t, q, ctr, cfg).1;
    var chs := cfg.channels;
    forall j, k | 0 <= j < k < |chs| && chs[j].domain == chs[k].domain
      ensures slots[j] < slots[k]
    {
      var x := slots[k];
      assert t.owner[x].None? && 4 * chs[j].domain <= x < SlotCount;
      assert forall k' :: 0 <= k' < j ==> slots[k'] != x;
      assert x != slots[j];
    }
  }

  /** Begin disturbs no slot another query holds, and no slot index beyond
      the query's channels. */
  lemma BeginFrame(t: SlotTable, q: nat, ctr: seq<int>, cfg: Config)
    requires Wf(t) && ValidConfig(cfg) && |ctr| == 4 && Fits(t, cfg.channels)
    ensures var r := Begin(t, q, ctr, cfg);
      && (forall x :: 0 <= x < SlotCount && t.owner[x].Some? ==> r.0.owner[x] == t.owner[x])
      && (forall j :: |cfg.channels| <= j < 4 ==> r.1[j] == ctr[j])
  {
    BeginAssigns(t, q, ctr, cfg);
    AssignKeeps(t.(enabled := true), q, ctr, cfg.channels, 0);
    AssignCtrFrame(t.(enabled := true), q, ctr, cfg.channels, 0);
  }

  /** Begin changes the slot table exactly when the query fits. */
  lemma BeginRefusesIffFull(t: SlotTable, q: nat, ctr: seq<int>, cfg: Config)
    requires Wf(t) && ValidConfig(cfg) && |ctr| == 4
    ensures Begin(t, q, ctr, cfg).0 == t <==> !Fits(t, cfg.channels)
  {
    if Fits(t, cfg.channels) {
      BeginCounts(t, q, ctr, cfg);
      var chs := cfg.channels;
      assert chs[0].domain == 0 ==> Need(chs, 0) >= 1;
      assert chs[0].domain == 1 ==> Need(chs, 1) >= 1;
    }
  }

  /** Releasing a slot lowers its domain's occupancy by one and leaves the
      other domain's alone. */
  lemma OccupiedGive(owner: seq<Option<nat>>, c: nat)
    requires |owner| == SlotCount && c < SlotCount && owner[c].Some?
    ensures Occupied(owner[c := None], c / 4) + 1 == Occupied(owner, c / 4)
    ensures Occupied(owner[c := None], 1 - c / 4) == Occupied(owner, 1 - c / 4)
  {
  }

  /** Releasing from slot c on keeps the table well formed. */
  lemma {:induction false} ReleaseWf(t: SlotTable, q: nat, c: nat)
    requires Wf(t) && c <= SlotCount
    ensures Wf(Release(t, q, c))
    decreases SlotCount - c
  {
    if c < SlotCount {
      if t.owner[c] == Some(q) {
        var d := c / 4;
        OccupiedGive(t.owner, c);
        var t1 := t.(active := t.active[d := Dec32(t.active[d])], owner := t.owner[c := None]);
        assert Wf(t1);
        assert Release(t, q, c) == Release(t1, q, c + 1);
        ReleaseWf(t1, q, c + 1);
      } else {
        assert Release(t, q, c) == Release(t, q, c + 1);
        ReleaseWf(t, q, c + 1);
      }
    }
  }

  /** Releasing from slot c on frees exactly the slots of q at or after c
      and leaves every other slot alone. */
  lemma {:induction false} ReleaseOwners(t: SlotTable, q: nat, c: nat)
    requires |t.owner| == SlotCount && |t.active| == 2 && c <= SlotCount
    ensures var t' := Release(t, q, c);
      && (forall x :: 0 <= x < c ==> t'.owner[x] == t.owner[x])
      && (forall x :: c <= x < SlotCount ==> t'.owner[x] == if t.owner[x] == Some(q) then None else t.owner[x])
    decreases SlotCount - c
  {
    if c < SlotCount {
      if t.owner[c] == Some(q) {
        var d := c / 4;
        var t1 := t.(active := t.active[d := Dec32(t.active[d])], owner := t.owner[c := None]);
        assert Release(t, q, c) == Release(t1, q, c + 1);
        ReleaseOwners(t1, q, c + 1);
      } else {
        assert Release(t, q, c) == Release(t, q, c + 1);
        ReleaseOwners(t, q, c + 1);
      }
    }
  }

  /** End keeps the table well formed, frees exactly the slots q owned,
      leaves every other owner unchanged, and switches counting off on
      every slot that was occupied. */
  lemma EndSound(t: SlotTable, q: nat)
    requires Wf(t)
    ensures var r := End(t, q);
      && Wf(r.0)
      && r.0.enabled == t.enabled
      && (forall x :: 0 <= x < SlotCount ==> r.0.owner[x] == if t.owner[x] == Some(q) then None else t.owner[x])
      && (forall x :: 0 <= x < SlotCount ==> (PmFuncOff(x) in r.1 <==> t.owner[x].Some?))
  {
    ReleaseWf(t, q, 0);
    ReleaseOwners(t, q, 0);
  }
}
