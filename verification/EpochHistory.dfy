/** The stored history of epoch classifications (db.rs) and the walk over it for the markdown report. */
module EpochHistory {
  import opened Collections

  /** The file of one epoch. Classification is paused in epochs with unusual observations. */
  datatype File<C> = Unreadable | Paused | Classified(content: C)

  type Db<C> = map<nat, File<C>>

  datatype Error = CannotRead(epoch: nat)

  datatype Entry<C> = Entry(epoch: nat, content: C)

  /** No stored epoch in the range is of interest: all of them are paused. */
  ghost predicate NothingBetween<C>(db: Db<C>, low: nat, high: nat) {
    forall e :: low <= e < high && e in db ==> db[e].Paused?
  }

  method Load<C>(db: Db<C>, epoch: nat) returns (r: Result<File<C>, Error>)
    ensures r == if epoch !in db || db[epoch].Unreadable? then Err(CannotRead(epoch)) else Ok(db[epoch])
  {
    if epoch !in db || db[epoch].Unreadable? {
      return Err(CannotRead(epoch));
    }
    r := Ok(db[epoch]);
  }

  /** Searches downwards. It finds the greatest smaller epoch that has classifications, or none if
      there is none, unless an unreadable file is in the way. */
  method LoadPrevious<C>(db: Db<C>, epoch: nat) returns (r: Result<Option<Entry<C>>, Error>)
    ensures match r
            case Ok(None) => NothingBetween(db, 0, epoch)
            case Ok(Some(entry)) =>
              && entry.epoch < epoch && entry.epoch in db
              && db[entry.epoch] == Classified(entry.content)
              && NothingBetween(db, entry.epoch + 1, epoch)
            case Err(CannotRead(e)) => e < epoch && e in db && db[e].Unreadable? && NothingBetween(db, e + 1, epoch)
  {
    var previousEpoch: nat := epoch;
    while true
      invariant previousEpoch <= epoch && NothingBetween(db, previousEpoch, epoch)
      decreases previousEpoch
    {
      if previousEpoch == 0 {
        return Ok(None);
      }
      previousEpoch := previousEpoch - 1;
      if previousEpoch in db {
        var loaded := Load(db, previousEpoch);
        if loaded.Err? {
          return Err(loaded.error);
        }
        if loaded.value.Classified? {
          return Ok(Some(Entry(previousEpoch, loaded.value.content)));
        }
      }
    }
  }

  /** The latest epoch that has classifications. */
  method LoadLatest<C>(db: Db<C>) returns (r: Result<Option<Entry<C>>, Error>)
    ensures match r
            case Ok(None) => forall e :: e in db ==> db[e].Paused?
            case Ok(Some(entry)) =>
              && entry.epoch in db && db[entry.epoch] == Classified(entry.content)
              && forall e :: e in db && e > entry.epoch ==> db[e].Paused?
            case Err(CannotRead(e)) =>
              && e in db && db[e].Unreadable?
              && forall e' :: e' in db && e' > e ==> db[e'].Paused?
  {
    var epochs: seq<nat> := [];
    var rest := db.Keys;
    while rest != {}
      invariant rest <= db.Keys && forall e :: e in epochs <==> e in db.Keys - rest
      decreases rest
    {
      var e :| e in rest;
      rest := rest - {e};
      epochs := epochs + [e];
    }
    SortByKeyProperties(epochs, Epoch);
    ghost var unsorted := epochs;
    epochs := SortByKey(epochs, Epoch);
    SameElements(unsorted, epochs);
    if epochs == [] {
      return Ok(None);
    }
    var latest := epochs[|epochs| - 1];
    forall e | e in db
      ensures e < latest + 1
    {
      assert e in unsorted;
      var k :| 0 <= k < |epochs| && epochs[k] == e;
      assert Epoch(epochs[k]) <= Epoch(latest);
    }
    r := LoadPrevious(db, latest + 1);
  }

  function Epoch(e: nat): int { e }

  /** The report of an epoch: the epoch itself and then its whole history. Every earlier epoch that has
      classifications is visited exactly once, the later ones first; the only obstacle is a file
      that cannot be read. */
  method WalkHistory<C>(db: Db<C>, epoch: nat) returns (r: Result<seq<Entry<File<C>>>, Error>)
    ensures r.Err? <==> epoch !in db || exists e :: 0 <= e <= epoch && e in db && db[e].Unreadable?
    ensures r.Ok? ==>
              && IsDescent(db, epoch, r.value)
              && forall e :: 0 <= e < epoch && e in db && db[e].Classified? ==>
                   exists i :: 0 < i < |r.value| && r.value[i].epoch == e
  {
    var first := Load(db, epoch);
    if first.Err? {
      return Err(first.error);
    }
    var list := [Entry(epoch, first.value)];
    var previous := LoadPrevious(db, epoch);
    while previous.Ok? && previous.value.Some?
      invariant IsDescent(db, epoch, list)
      invariant Covered(db, list, list[|list| - 1].epoch, epoch)
      invariant match previous
                case Ok(None) => NothingBetween(db, 0, list[|list| - 1].epoch)
                case Ok(Some(entry)) =>
                  && entry.epoch < list[|list| - 1].epoch && entry.epoch in db
                  && db[entry.epoch] == Classified(entry.content)
                  && NothingBetween(db, entry.epoch + 1, list[|list| - 1].epoch)
                case Err(CannotRead(e)) => e < epoch && e in db && db[e].Unreadable?
      decreases list[|list| - 1].epoch
    {
      var entry := previous.value.value;
      ghost var before := list;
      list := list + [Entry(entry.epoch, db[entry.epoch])];
      DescentStep(db, before, entry.epoch, epoch);
      CoveredStep(db, before, entry.epoch, epoch);
      previous := LoadPrevious(db, entry.epoch);
    }
    if previous.Err? {
      return Err(previous.error);
    }
    r := Ok(list);
  }

  /** Starts with the epoch itself and goes on, strictly downwards, with classified epochs only. */
  ghost predicate IsDescent<C>(db: Db<C>, epoch: nat, list: seq<Entry<File<C>>>) {
    && epoch in db && list != [] && list[0] == Entry(epoch, db[epoch])
    && (forall i, j :: 0 <= i < j < |list| ==> list[j].epoch < list[i].epoch)
    && (forall i :: 0 < i < |list| ==>
          list[i].epoch in db && list[i].content == db[list[i].epoch] && list[i].content.Classified?)
  }

  /** The files from `low` up to `epoch` are all readable, and the classified ones are on the list. */
  ghost predicate Covered<C>(db: Db<C>, list: seq<Entry<File<C>>>, low: nat, epoch: nat) {
    forall e :: low <= e < epoch && e in db ==>
      && !db[e].Unreadable?
      && (db[e].Classified? ==> exists i :: 0 < i < |list| && list[i].epoch == e)
  }

  lemma DescentStep<C>(db: Db<C>, list: seq<Entry<File<C>>>, e: nat, epoch: nat)
    requires IsDescent(db, epoch, list)
    requires e < list[|list| - 1].epoch && e in db && db[e].Classified?
    ensures IsDescent(db, epoch, list + [Entry(e, db[e])])
  {
    var n := |list|;
    forall i | 0 <= i < n
      ensures e < list[i].epoch
    {
      assert i < n - 1 ==> list[n - 1].epoch < list[i].epoch;
    }
  }

  lemma CoveredStep<C>(db: Db<C>, list: seq<Entry<File<C>>>, e: nat, epoch: nat)
    requires list != [] && e < list[|list| - 1].epoch <= epoch && e in db && db[e].Classified?
    requires Covered(db, list, list[|list| - 1].epoch, epoch)
    requires NothingBetween(db, e + 1, list[|list| - 1].epoch)
    ensures Covered(db, list + [Entry(e, db[e])], e, epoch)
  {
    var longer := list + [Entry(e, db[e])];
    forall x | e <= x < epoch && x in db
      ensures !db[x].Unreadable? && (db[x].Classified? ==> exists i :: 0 < i < |longer| && longer[i].epoch == x)
    {
      if x == e {
        assert longer[|list|].epoch == e;
      } else if x >= list[|list| - 1].epoch && db[x].Classified? {
        var i :| 0 < i < |list| && list[i].epoch == x;
        assert longer[i].epoch == x;
      }
    }
  }

  // ---------- Streaks ----------

  /** For how many epochs, newest first, the newest state has lasted. */
  function Streak<S(==)>(states: seq<S>): nat {
    if |states| <= 1 || states[1] != states[0] then 1 else 1 + Streak(states[1..])
  }

  lemma {:induction false} StreakIsLongestRepetition<S>(states: seq<S>)
    requires states != []
    ensures 1 <= Streak(states) <= |states|
    ensures forall i :: 0 <= i < Streak(states) ==> states[i] == states[0]
    ensures Streak(states) < |states| ==> states[Streak(states)] != states[0]
  {
    if |states| > 1 && states[1] == states[0] {
      var rest := states[1..];
      StreakIsLongestRepetition(rest);
      forall i | 1 <= i < |states|
        ensures states[i] == rest[i - 1]
      {
      }
    }
  }

  /** An absent or empty history counts as one epoch. */
  method StakeStateStreak<S(==)>(stakeStates: Option<seq<S>>) returns (streak: nat)
    ensures streak == Streak(if stakeStates.Some? then stakeStates.value else [])
  {
    streak := 1;
    if stakeStates.Some? {
      var states := stakeStates.value;
      while streak < |states| && states[0] == states[streak]
        invariant states != [] ==> streak <= |states| && states[streak - 1] == states[0]
        invariant streak >= 1 && (states == [] ==> streak == 1)
        invariant states != [] ==> Streak(states) == streak - 1 + Streak(states[streak - 1..])
      {
        assert states[streak - 1..][1..] == states[streak..];
        streak := streak + 1;
      }
    }
  }

  /** The states of a run of epochs, newest first, as each classification puts its own in front. */
  function History<S>(run: seq<S>): seq<S> {
    if run == [] then [] else [run[|run| - 1]] + History(run[..|run| - 1])
  }

  /** Over any run the streak grows by one when the state repeats, and otherwise starts again at 1. */
  lemma StreakOverRun<S>(run: seq<S>, next: S)
    ensures Streak(History(run + [next])) ==
            if run != [] && run[|run| - 1] == next then Streak(History(run)) + 1 else 1
  {
    assert (run + [next])[..|run|] == run;
    assert History(run + [next])[1..] == History(run);
  }
}
