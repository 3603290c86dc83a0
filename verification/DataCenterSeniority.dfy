/** The data-center residency of `classify`: for each data center a counter that rises with every
    Bonus epoch spent there and falls with every other epoch, and is dropped at zero. */
module DataCenterSeniority {

  datatype DataCenter = DataCenter(id: nat)

  type Residency = map<DataCenter, nat>

  /** What one classified epoch saw of the validator. */
  datatype Observation = Observation(current: DataCenter, bonus: bool)

  const USIZE_MAX: nat := 0xFFFF_FFFF_FFFF_FFFF

  /** The counter of one data center after the epoch; both directions saturate. */
  function Adjusted(seniority: nat, dataCenter: DataCenter, o: Observation): nat {
    if dataCenter == o.current && o.bonus then
      if seniority < USIZE_MAX then seniority + 1 else seniority
    else
      if seniority > 0 then seniority - 1 else 0
  }

  function Update(previous: Residency, o: Observation): Residency {
    var entries := if o.current in previous then previous else previous[o.current := 0];
    map dataCenter | dataCenter in entries && Adjusted(entries[dataCenter], dataCenter, o) > 0 ::
      Adjusted(entries[dataCenter], dataCenter, o)
  }

  /** Stored by the last epoch of a run of classified epochs in which the validator appears; the
      first of them starts without history. */
  function AfterRun(run: seq<Observation>): Residency {
    if run == [] then map[] else Update(AfterRun(run[..|run| - 1]), run[|run| - 1])
  }

  function Seniority(r: Residency, dataCenter: DataCenter): nat {
    if dataCenter in r then r[dataCenter] else 0
  }

  /** +1 for each Bonus epoch in the data center, -1 for each other epoch, from epoch `from` on. */
  function Score(run: seq<Observation>, from: nat, dataCenter: DataCenter): int
    requires from <= |run|
    decreases |run| - from
  {
    if from == |run| then 0
    else (if run[from].current == dataCenter && run[from].bonus then 1 else -1) + Score(run, from + 1, dataCenter)
  }

  lemma {:induction false} ScoreOneMore(run: seq<Observation>, o: Observation, from: nat, dataCenter: DataCenter)
    requires from <= |run|
    ensures Score(run + [o], from, dataCenter) ==
            Score(run, from, dataCenter) + (if o.current == dataCenter && o.bonus then 1 else -1)
    decreases |run| - from
  {
    if from < |run| {
      ScoreOneMore(run, o, from + 1, dataCenter);
    } else {
      assert Score(run + [o], from + 1, dataCenter) == 0;
    }
  }

  /** The stored seniority is the best score over all endings of the run, of which the empty one
      scores 0: no ending scores higher, and one scores exactly that. */
  lemma {:induction false} SeniorityIsBestEnding(run: seq<Observation>, dataCenter: DataCenter) returns (best: nat)
    requires |run| <= USIZE_MAX
    ensures best <= |run| && Seniority(AfterRun(run), dataCenter) == Score(run, best, dataCenter) <= |run|
    ensures forall from :: 0 <= from <= |run| ==> Score(run, from, dataCenter) <= Seniority(AfterRun(run), dataCenter)
  {
    if run == [] {
      best := 0;
    } else {
      var n := |run| - 1;
      var earlier, o := run[..n], run[n];
      assert run == earlier + [o];
      best := SeniorityIsBestEnding(earlier, dataCenter);
      forall from | 0 <= from <= n
        ensures Score(run, from, dataCenter) ==
                Score(earlier, from, dataCenter) + (if o.current == dataCenter && o.bonus then 1 else -1)
      {
        ScoreOneMore(earlier, o, from, dataCenter);
      }
      if Score(run, best, dataCenter) < 0 {
        best := |run|;
      }
    }
  }

  /** Only positive counters are stored. */
  lemma {:induction false} StoredArePositive(run: seq<Observation>, dataCenter: DataCenter)
    requires dataCenter in AfterRun(run)
    ensures AfterRun(run)[dataCenter] > 0
  {
    var previous, o := AfterRun(run[..|run| - 1]), run[|run| - 1];
    assert AfterRun(run) == Update(previous, o);
  }
}
