/** The two classifications of main.rs that compare a validator with a rounded cluster average: block
    producers by skip rate, voters by vote credits. */
module BlockProducers {
  import opened Arithmetic
  import opened Collections
  import opened StakeTypes

  /** An entry of the leader schedule; the identity is `None` if its text is not a public key. */
  datatype Leader = Leader(identity: Option<Pubkey>, relativeSlots: seq<nat>)

  datatype Error = InvalidIdentity | DivisionByZero

  datatype Production = Production(blocks: nat, slots: nat)

  datatype Classification = Classification(
    quality: set<Pubkey>, poor: set<Pubkey>, clusterSkipRate: nat, tooManyPoor: bool)

  // ---------- What was produced ----------

  function Confirmed(firstSlot: nat, confirmed: set<nat>, relativeSlots: seq<nat>): nat {
    if relativeSlots == [] then 0
    else Confirmed(firstSlot, confirmed, relativeSlots[..|relativeSlots| - 1])
         + (if firstSlot + relativeSlots[|relativeSlots| - 1] in confirmed then 1 else 0)
  }

  lemma {:induction false} ConfirmedAtMostSlots(firstSlot: nat, confirmed: set<nat>, relativeSlots: seq<nat>)
    ensures Confirmed(firstSlot, confirmed, relativeSlots) <= |relativeSlots|
  {
    if relativeSlots != [] {
      ConfirmedAtMostSlots(firstSlot, confirmed, relativeSlots[..|relativeSlots| - 1]);
    }
  }

  /** The leader slots in which a block was confirmed, by their places in the entry. */
  ghost function ConfirmedPlaces(firstSlot: nat, confirmed: set<nat>, relativeSlots: seq<nat>): set<nat> {
    set k: nat | k < |relativeSlots| && firstSlot + relativeSlots[k] in confirmed
  }

  lemma {:induction false} ConfirmedAreCounted(firstSlot: nat, confirmed: set<nat>, relativeSlots: seq<nat>)
    ensures Confirmed(firstSlot, confirmed, relativeSlots) == |ConfirmedPlaces(firstSlot, confirmed, relativeSlots)|
  {
    if relativeSlots != [] {
      var n := |relativeSlots| - 1;
      ConfirmedAreCounted(firstSlot, confirmed, relativeSlots[..n]);
      var places := ConfirmedPlaces(firstSlot, confirmed, relativeSlots[..n]);
      assert ConfirmedPlaces(firstSlot, confirmed, relativeSlots)
          == places + if firstSlot + relativeSlots[n] in confirmed then {n} else {};
      assert n !in places;
    }
  }

  function BlocksIn(firstSlot: nat, confirmed: set<nat>): Leader -> nat {
    (l: Leader) => Confirmed(firstSlot, confirmed, l.relativeSlots)
  }

  function SlotsIn(l: Leader): nat { |l.relativeSlots| }

  function ProductionOf(v: Pubkey, firstSlot: nat, confirmed: set<nat>, schedule: seq<Leader>): Production {
    if schedule == [] then Production(0, 0)
    else
      var n := |schedule| - 1;
      var rest := ProductionOf(v, firstSlot, confirmed, schedule[..n]);
      if schedule[n].identity != Some(v) then rest
      else Production(rest.blocks + Confirmed(firstSlot, confirmed, schedule[n].relativeSlots),
                      rest.slots + |schedule[n].relativeSlots|)
  }

  /** Every entry that leads slots has a readable identity. */
  ghost predicate Readable(schedule: seq<Leader>) {
    forall l :: l in schedule && l.relativeSlots != [] ==> l.identity.Some?
  }

  function BlocksAt(m: map<Pubkey, Production>): Pubkey -> nat {
    (v: Pubkey) => if v in m then m[v].blocks else 0
  }

  function SlotsAt(m: map<Pubkey, Production>): Pubkey -> nat {
    (v: Pubkey) => if v in m then m[v].slots else 0
  }

  /** The table holds exactly the validators that led slots. */
  ghost predicate PerValidator(
    m: map<Pubkey, Production>, firstSlot: nat, confirmed: set<nat>, schedule: seq<Leader>)
  {
    forall v :: var p := ProductionOf(v, firstSlot, confirmed, schedule);
      && p.blocks <= p.slots
      && (v in m <==> p.slots > 0)
      && (v in m ==> m[v] == p)
  }

  /** The table adds up to the totals. */
  ghost predicate AddsUp(m: map<Pubkey, Production>, totalBlocks: nat, totalSlots: nat) {
    SumSet(m.Keys, BlocksAt(m)) == totalBlocks && SumSet(m.Keys, SlotsAt(m)) == totalSlots
  }

  /** The table with one more entry of the schedule. */
  function Tally(m: map<Pubkey, Production>, v: Pubkey, p: Production): map<Pubkey, Production> {
    m[v := Production(BlocksAt(m)(v) + p.blocks, SlotsAt(m)(v) + p.slots)]
  }

  lemma AddToTable(m: map<Pubkey, Production>, v: Pubkey, p: Production)
    ensures AddsUp(Tally(m, v, p), SumSet(m.Keys, BlocksAt(m)) + p.blocks, SumSet(m.Keys, SlotsAt(m)) + p.slots)
  {
    var m' := Tally(m, v, p);
    var others := m.Keys - {v};
    assert m'.Keys - {v} == others;
    SumSetWithout(m'.Keys, v, BlocksAt(m'));
    SumSetWithout(m'.Keys, v, SlotsAt(m'));
    SumSetSame(others, BlocksAt(m), BlocksAt(m'));
    SumSetSame(others, SlotsAt(m), SlotsAt(m'));
    if v in m {
      SumSetWithout(m.Keys, v, BlocksAt(m));
      SumSetWithout(m.Keys, v, SlotsAt(m));
    } else {
      assert others == m.Keys;
    }
  }

  lemma PerValidatorOneMore(
    m: map<Pubkey, Production>, firstSlot: nat, confirmed: set<nat>, schedule: seq<Leader>, l: Leader)
    requires PerValidator(m, firstSlot, confirmed, schedule)
    requires l.relativeSlots != [] ==> l.identity.Some?
    ensures var p := Production(Confirmed(firstSlot, confirmed, l.relativeSlots), |l.relativeSlots|);
            var m' := if l.relativeSlots == [] then m else Tally(m, l.identity.value, p);
            PerValidator(m', firstSlot, confirmed, schedule + [l])
  {
    var p := Production(Confirmed(firstSlot, confirmed, l.relativeSlots), |l.relativeSlots|);
    var m' := if l.relativeSlots == [] then m else Tally(m, l.identity.value, p);
    ConfirmedAtMostSlots(firstSlot, confirmed, l.relativeSlots);
    forall v: Pubkey
      ensures ProductionOf(v, firstSlot, confirmed, schedule + [l]) ==
              var rest := ProductionOf(v, firstSlot, confirmed, schedule);
              if l.identity == Some(v) then Production(rest.blocks + p.blocks, rest.slots + p.slots) else rest
    {
      assert (schedule + [l])[..|schedule|] == schedule;
    }
  }

  /** The table and the totals after the given part of the schedule. */
  ghost predicate Tallied(
    m: map<Pubkey, Production>, totalBlocks: nat, totalSlots: nat,
    firstSlot: nat, confirmed: set<nat>, schedule: seq<Leader>)
  {
    && PerValidator(m, firstSlot, confirmed, schedule)
    && AddsUp(m, totalBlocks, totalSlots)
    && totalBlocks == SumBy(schedule, BlocksIn(firstSlot, confirmed))
    && totalSlots == SumBy(schedule, SlotsIn)
  }

  lemma TallyStep(
    m: map<Pubkey, Production>, totalBlocks: nat, totalSlots: nat,
    firstSlot: nat, confirmed: set<nat>, schedule: seq<Leader>, l: Leader)
    requires Tallied(m, totalBlocks, totalSlots, firstSlot, confirmed, schedule)
    requires l.relativeSlots != [] ==> l.identity.Some?
    ensures var p := Production(Confirmed(firstSlot, confirmed, l.relativeSlots), |l.relativeSlots|);
            var m' := if l.relativeSlots == [] then m else Tally(m, l.identity.value, p);
            Tallied(m', totalBlocks + p.blocks, totalSlots + p.slots, firstSlot, confirmed, schedule + [l])
  {
    var p := Production(Confirmed(firstSlot, confirmed, l.relativeSlots), |l.relativeSlots|);
    var m' := if l.relativeSlots == [] then m else Tally(m, l.identity.value, p);
    assert PerValidator(m', firstSlot, confirmed, schedule + [l]) by {
      PerValidatorOneMore(m, firstSlot, confirmed, schedule, l);
    }
    assert AddsUp(m', totalBlocks + p.blocks, totalSlots + p.slots) by {
      ConfirmedAtMostSlots(firstSlot, confirmed, l.relativeSlots);
      if l.relativeSlots != [] {
        AddToTable(m, l.identity.value, p);
      }
    }
    TotalsStep(firstSlot, confirmed, schedule, l);
  }

  lemma TotalsStep(firstSlot: nat, confirmed: set<nat>, schedule: seq<Leader>, l: Leader)
    ensures SumBy(schedule + [l], BlocksIn(firstSlot, confirmed)) ==
            SumBy(schedule, BlocksIn(firstSlot, confirmed)) + Confirmed(firstSlot, confirmed, l.relativeSlots)
    ensures SumBy(schedule + [l], SlotsIn) == SumBy(schedule, SlotsIn) + |l.relativeSlots|
  {
    SumByAppend(schedule, [l], BlocksIn(firstSlot, confirmed));
    SumOfOne([l], BlocksIn(firstSlot, confirmed));
    SumByAppend(schedule, [l], SlotsIn);
    SumOfOne([l], SlotsIn);
  }

  method CountConfirmed(firstSlot: nat, confirmed: set<nat>, relativeSlots: seq<nat>)
    returns (validatorBlocks: nat, validatorSlots: nat)
    ensures validatorBlocks == Confirmed(firstSlot, confirmed, relativeSlots) && validatorSlots == |relativeSlots|
  {
    validatorBlocks, validatorSlots := 0, 0;
    for k := 0 to |relativeSlots|
      invariant validatorSlots == k
      invariant validatorBlocks == Confirmed(firstSlot, confirmed, relativeSlots[..k])
    {
      assert relativeSlots[..k + 1][..k] == relativeSlots[..k];
      validatorSlots := validatorSlots + 1;
      if firstSlot + relativeSlots[k] in confirmed {
        validatorBlocks := validatorBlocks + 1;
      }
    }
    assert relativeSlots[..|relativeSlots|] == relativeSlots;
  }

  method TallyBlocks(firstSlot: nat, confirmed: set<nat>, schedule: seq<Leader>)
    returns (readable: bool, table: map<Pubkey, Production>, totalBlocks: nat, totalSlots: nat)
    ensures readable <==> Readable(schedule)
    ensures readable ==> Tallied(table, totalBlocks, totalSlots, firstSlot, confirmed, schedule)
  {
    readable, table, totalBlocks, totalSlots := true, map[], 0, 0;
    for i := 0 to |schedule|
      invariant Readable(schedule[..i])
      invariant Tallied(table, totalBlocks, totalSlots, firstSlot, confirmed, schedule[..i])
    {
      var leader := schedule[i];
      var validatorBlocks, validatorSlots := CountConfirmed(firstSlot, confirmed, leader.relativeSlots);
      assert schedule[..i + 1] == schedule[..i] + [leader];
      if validatorSlots > 0 && leader.identity == None {
        assert leader in schedule;
        readable := false;
        return;
      }
      TallyStep(table, totalBlocks, totalSlots, firstSlot, confirmed, schedule[..i], leader);
      totalBlocks := totalBlocks + validatorBlocks;
      totalSlots := totalSlots + validatorSlots;
      if validatorSlots > 0 {
        table := Tally(table, leader.identity.value, Production(validatorBlocks, validatorSlots));
      }
    }
    assert schedule[..|schedule|] == schedule;
  }

  // ---------- Skip rates ----------

  /** In whole percent; rounding down the production rate rounds up the skip rate. */
  function SkipRate(blocks: nat, slots: nat): nat
    requires blocks <= slots && slots > 0
  {
    assert blocks * 100 / slots <= 100 by { QuotientAtLeast(blocks * 100, slots, 101); }
    100 - blocks * 100 / slots
  }

  /** If the whole reaches the rate `q`, then some part does (the mediant inequality). */
  lemma {:induction false} SomePartReaches(m: map<Pubkey, Production>, keys: set<Pubkey>, q: nat) returns (v: Pubkey)
    requires keys != {} && keys <= m.Keys
    requires SumSet(keys, BlocksAt(m)) * 100 >= q * SumSet(keys, SlotsAt(m))
    ensures v in keys && m[v].blocks * 100 >= q * m[v].slots
  {
    v :| v in keys;
    if m[v].blocks * 100 < q * m[v].slots {
      SumSetWithout(keys, v, BlocksAt(m));
      SumSetWithout(keys, v, SlotsAt(m));
      RestReaches(m[v].blocks, m[v].slots, SumSet(keys - {v}, BlocksAt(m)), SumSet(keys - {v}, SlotsAt(m)), q);
      v := SomePartReaches(m, keys - {v}, q);
    }
  }

  lemma RestReaches(blocks: nat, slots: nat, restBlocks: nat, restSlots: nat, q: nat)
    requires (blocks + restBlocks) * 100 >= q * (slots + restSlots)
    requires blocks * 100 < q * slots
    ensures restBlocks > 0 && restBlocks * 100 >= q * restSlots
  {
    assert q * (slots + restSlots) == q * slots + q * restSlots;
  }

  /** Whether the skip rate of the validator is too far above that of the cluster. */
  predicate IsPoor(p: Production, clusterSkipRate: nat, grace: nat)
    requires p.blocks <= p.slots && p.slots > 0
  {
    var rate := SkipRate(p.blocks, p.slots);
    (if rate >= grace then rate - grace else 0) > clusterSkipRate
  }

  lemma ScheduleProduction(firstSlot: nat, confirmed: set<nat>, schedule: seq<Leader>)
    ensures SumBy(schedule, BlocksIn(firstSlot, confirmed)) <= SumBy(schedule, SlotsIn)
  {
    forall l | l in schedule
      ensures BlocksIn(firstSlot, confirmed)(l) <= SlotsIn(l)
    {
      ConfirmedAtMostSlots(firstSlot, confirmed, l.relativeSlots);
    }
    SumByBound(schedule, BlocksIn(firstSlot, confirmed), SlotsIn);
  }

  /** What is compared: the skip rate is rounded up, by less than a percent, and a validator is poor exactly
      if it produced less than what is left of a hundred percent after the skip rate of the cluster and
      the grace. */
  lemma PoorIff(p: Production, blocks: nat, slots: nat, grace: nat)
    requires p.blocks <= p.slots && p.slots > 0 && blocks <= slots && slots > 0
    ensures var rate := SkipRate(blocks, slots);
            && (100 - rate) * slots <= blocks * 100 < (100 - rate + 1) * slots
            && (IsPoor(p, rate, grace) <==> p.blocks * 100 < (100 - rate - grace) * p.slots)
  {
    var rate, left := SkipRate(blocks, slots), 100 - SkipRate(blocks, slots) - grace;
    QuotientAtLeast(blocks * 100, slots, 100 - rate);
    QuotientAtLeast(blocks * 100, slots, 100 - rate + 1);
    if left >= 0 {
      QuotientAtLeast(p.blocks * 100, p.slots, left);
    } else {
      NegativeProduct(left, p.slots);
    }
  }

  lemma NegativeProduct(a: int, b: nat)
    requires a < 0
    ensures a * b <= 0
  {
  }

  /** Rounding does not push everybody below the average: some validator is no worse than the cluster. */
  lemma SomeoneIsNotPoor(m: map<Pubkey, Production>, blocks: nat, slots: nat, grace: nat) returns (v: Pubkey)
    requires AddsUp(m, blocks, slots) && blocks <= slots && slots > 0
    requires forall v :: v in m ==> m[v].blocks <= m[v].slots && m[v].slots > 0
    ensures v in m && !IsPoor(m[v], SkipRate(blocks, slots), grace)
  {
    var q := blocks * 100 / slots;
    QuotientAtLeast(blocks * 100, slots, q);
    v := SomePartReaches(m, m.Keys, q);
    QuotientAtLeast(m[v].blocks * 100, m[v].slots, q);
  }

  /** The validator is judged if it led slots, and then by its own skip rate. */
  ghost predicate Judged(v: Pubkey, p: Production, c: Classification, grace: nat) {
    && p.blocks <= p.slots
    && (v in c.quality + c.poor <==> p.slots > 0)
    && (p.slots > 0 ==> (v in c.poor <==> IsPoor(p, c.clusterSkipRate, grace)))
  }

  lemma AllJudged(
    table: map<Pubkey, Production>, firstSlot: nat, confirmed: set<nat>, schedule: seq<Leader>, c: Classification,
    grace: nat)
    requires PerValidator(table, firstSlot, confirmed, schedule)
    requires c.quality + c.poor == table.Keys
    requires forall v :: v in table ==> (v in c.poor <==> IsPoor(table[v], c.clusterSkipRate, grace))
    ensures forall v :: Judged(v, ProductionOf(v, firstSlot, confirmed, schedule), c, grace)
  {
    forall v: Pubkey
      ensures Judged(v, ProductionOf(v, firstSlot, confirmed, schedule), c, grace)
    {
      var p := ProductionOf(v, firstSlot, confirmed, schedule);
      assert v in table ==> table[v] == p;
    }
  }

  lemma QualityExists(
    table: map<Pubkey, Production>, blocks: nat, slots: nat, grace: nat, quality: set<Pubkey>, poor: set<Pubkey>)
    requires AddsUp(table, blocks, slots) && blocks <= slots && slots > 0
    requires forall v :: v in table ==> table[v].blocks <= table[v].slots && table[v].slots > 0
    requires quality + poor == table.Keys
    requires forall v :: v in table ==> (v in poor <==> IsPoor(table[v], SkipRate(blocks, slots), grace))
    ensures quality != {}
  {
    var good := SomeoneIsNotPoor(table, blocks, slots, grace);
    assert good in quality;
  }

  predicate TooMany(part: nat, whole: nat, maxPercentage: nat)
    requires whole > 0
  {
    part * 100 / whole > maxPercentage
  }

  /** There are too many if they reach the next whole percent above the maximum. */
  lemma TooManyIff(part: nat, whole: nat, maxPercentage: nat)
    requires whole > 0
    ensures TooMany(part, whole, maxPercentage) <==> part * 100 >= (maxPercentage + 1) * whole
  {
    QuotientAtLeast(part * 100, whole, maxPercentage + 1);
  }

  /** The quality and poor producers partition the validators with slots, each judged by its own skip
      rate against that of the cluster, and there are quality producers. */
  ghost predicate Sound(
    c: Classification, firstSlot: nat, confirmed: set<nat>, schedule: seq<Leader>, grace: nat, maxPoorPercentage: nat)
  {
    var blocks, slots := SumBy(schedule, BlocksIn(firstSlot, confirmed)), SumBy(schedule, SlotsIn);
    && blocks <= slots && slots > 0 && c.clusterSkipRate == SkipRate(blocks, slots)
    && c.quality !! c.poor && c.quality != {}
    && (forall v :: Judged(v, ProductionOf(v, firstSlot, confirmed, schedule), c, grace))
    && c.tooManyPoor == TooMany(|c.poor|, |c.quality| + |c.poor|, maxPoorPercentage)
  }

  method SplitByRate(table: map<Pubkey, Production>, clusterSkipRate: nat, grace: nat)
    returns (quality: set<Pubkey>, poor: set<Pubkey>)
    requires forall v :: v in table ==> table[v].blocks <= table[v].slots && table[v].slots > 0
    ensures quality + poor == table.Keys && quality !! poor
    ensures forall v :: v in table ==> (v in poor <==> IsPoor(table[v], clusterSkipRate, grace))
  {
    quality, poor := {}, {};
    var rest := table.Keys;
    while rest != {}
      invariant rest <= table.Keys && quality + poor == table.Keys - rest && quality !! poor
      invariant forall v :: v in quality + poor ==> (v in poor <==> IsPoor(table[v], clusterSkipRate, grace))
      decreases rest
    {
      var v :| v in rest;
      rest := rest - {v};
      if IsPoor(table[v], clusterSkipRate, grace) {
        poor := poor + {v};
      } else {
        quality := quality + {v};
      }
    }
  }

  /** Every validator of the table against the cluster average. */
  method JudgeTable(table: map<Pubkey, Production>, blocks: nat, slots: nat, grace: nat, maxPoorPercentage: nat)
    returns (c: Classification)
    requires AddsUp(table, blocks, slots) && blocks <= slots && slots > 0
    requires forall v :: v in table ==> table[v].blocks <= table[v].slots && table[v].slots > 0
    ensures c.clusterSkipRate == SkipRate(blocks, slots)
    ensures c.quality + c.poor == table.Keys && c.quality !! c.poor && c.quality != {}
    ensures forall v :: v in table ==> (v in c.poor <==> IsPoor(table[v], c.clusterSkipRate, grace))
    ensures c.tooManyPoor == TooMany(|c.poor|, |c.quality| + |c.poor|, maxPoorPercentage)
  {
    var clusterSkipRate := SkipRate(blocks, slots);
    var quality, poor := SplitByRate(table, clusterSkipRate, grace);
    QualityExists(table, blocks, slots, grace, quality, poor);
    c := Classification(quality, poor, clusterSkipRate, TooMany(|poor|, |quality| + |poor|, maxPoorPercentage));
  }

  /** Producers whose skip rate exceeds that of the cluster by more than the grace are poor, the
      others are of good quality; with leader slots at all, there are always some of the latter. */
  method ClassifyProducers(
    firstSlot: nat, confirmed: set<nat>, schedule: seq<Leader>, grace: nat, maxPoorPercentage: nat)
    returns (r: Result<Classification, Error>)
    ensures r == Err(InvalidIdentity) <==> !Readable(schedule)
    ensures r == Err(DivisionByZero) <==> Readable(schedule) && SumBy(schedule, SlotsIn) == 0
    ensures r.Ok? ==> Sound(r.value, firstSlot, confirmed, schedule, grace, maxPoorPercentage)
  {
    var readable, table, totalBlocks, totalSlots := TallyBlocks(firstSlot, confirmed, schedule);
    if !readable {
      return Err(InvalidIdentity);
    }
    if totalSlots == 0 {
      return Err(DivisionByZero);
    }
    ScheduleProduction(firstSlot, confirmed, schedule);
    assert forall v :: v in table ==> table[v].blocks <= table[v].slots && table[v].slots > 0;
    var c := JudgeTable(table, totalBlocks, totalSlots, grace, maxPoorPercentage);
    AllJudged(table, firstSlot, confirmed, schedule, c, grace);
    r := Ok(c);
  }
}
