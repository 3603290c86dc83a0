/** The on-chain record list: removing a record replaces it with the last one and shortens the list.
    A client that took a snapshot of the list goes on using the snapshot's indices; what keeps them
    right is that it works from the end of the list to its start. */
module SwapRemoveList {
  import opened Collections

  function SwapRemove<T>(s: seq<T>, i: nat): (r: seq<T>)
    requires i < |s|
    ensures |r| == |s| - 1
    ensures forall j :: 0 <= j < |r| ==> r[j] == s[if j == i then |s| - 1 else j]
  {
    if i == |s| - 1 then s[..i] else s[..|s| - 1][i := s[|s| - 1]]
  }

  class RecordList<T(0)> {
    const data: array<T>
    var count: nat
    ghost var records: seq<T>

    ghost predicate Valid()
      reads this, data
    {
      count <= data.Length && records == data[..count]
    }

    constructor (capacity: nat)
      ensures Valid() && fresh(data) && data.Length == capacity && records == []
    {
      data := new T[capacity];
      count := 0;
      records := [];
    }

    method Get(index: nat) returns (r: Option<T>)
      requires Valid()
      ensures r == if index < |records| then Some(records[index]) else None
    {
      r := if index < count then Some(data[index]) else None;
    }

    method Push(record: T) returns (ok: bool)
      requires Valid()
      modifies this, data
      ensures Valid() && ok == (|old(records)| < data.Length)
      ensures records == if ok then old(records) + [record] else old(records)
    {
      ok := count < data.Length;
      if ok {
        data[count] := record;
        count := count + 1;
        records := records + [record];
      }
    }

    method Set(index: nat, record: T) returns (ok: bool)
      requires Valid()
      modifies this, data
      ensures Valid() && ok == (index < |old(records)|)
      ensures records == if ok then old(records)[index := record] else old(records)
    {
      ok := index < count;
      if ok {
        data[index] := record;
        records := records[index := record];
      }
    }

    /** The last record moves into the gap. */
    method Remove(index: nat) returns (ok: bool)
      requires Valid()
      modifies this, data
      ensures Valid() && ok == (index < |old(records)|)
      ensures records == if ok then SwapRemove(old(records), index) else old(records)
    {
      if index >= count {
        return false;
      }
      count := count - 1;
      if index != count {
        data[index] := data[count];
      }
      records := SwapRemove(records, index);
      ok := true;
    }
  }

  // ---------- Transactions against a list ----------

  /** Whether the indices of a transaction named the records meant, whether it changed the list, and
      what the client was told, which need not be the same. */
  datatype Attempt = Attempt(hit: bool, landed: bool, ok: bool)

  ghost predicate AllHit(log: seq<Attempt>) {
    forall i :: 0 <= i < |log| ==> log[i].hit
  }

  ghost predicate AllLanded(log: seq<Attempt>) {
    forall i :: 0 <= i < |log| ==> log[i].landed
  }

  ghost predicate AllOk(log: seq<Attempt>) {
    forall i :: 0 <= i < |log| ==> log[i].ok
  }

  lemma LogOneMore(log: seq<Attempt>, a: Attempt)
    ensures AllHit(log + [a]) <==> AllHit(log) && a.hit
    ensures AllLanded(log + [a]) <==> AllLanded(log) && a.landed
    ensures AllOk(log + [a]) <==> AllOk(log) && a.ok
  {
    var longer := log + [a];
    assert longer[|log|] == a;
    assert forall i :: 0 <= i < |log| ==> longer[i] == log[i];
  }

  // ---------- Working downwards ----------

  /** The records from index `k` on, in no particular order. */
  function From<T>(s: seq<T>, k: nat): multiset<T>
    requires k <= |s|
    decreases |s| - k
  {
    if k == |s| then multiset{} else multiset{s[k]} + From(s, k + 1)
  }

  /** Those of them that have not been removed. */
  function Survivors<T>(s: seq<T>, k: nat, removed: set<nat>): multiset<T>
    requires k <= |s|
    decreases |s| - k
  {
    if k == |s| then multiset{}
    else if k in removed then Survivors(s, k + 1, removed)
    else multiset{s[k]} + Survivors(s, k + 1, removed)
  }

  /** The list in a run that has worked its way down to index `k`. `current` is the snapshot with the
      updates made so far; below `k` the list still is what the snapshot says, and from `k` on it
      holds exactly the records that were not removed. */
  ghost predicate DownTo<T>(list: seq<T>, current: seq<T>, k: nat, removed: set<nat>) {
    && k <= |list| && k <= |current|
    && (forall i :: 0 <= i < k ==> list[i] == current[i])
    && From(list, k) == Survivors(current, k, removed)
    && (forall i :: i in removed ==> k <= i < |current|)
  }

  lemma {:induction false} FromIsMultiset<T>(s: seq<T>, k: nat)
    requires k <= |s|
    ensures From(s, k) == multiset(s[k..])
    decreases |s| - k
  {
    if k < |s| {
      FromIsMultiset(s, k + 1);
      assert s[k..] == [s[k]] + s[k + 1..];
    }
  }

  lemma DownFromEnd<T>(s: seq<T>)
    ensures DownTo(s, s, |s|, {})
  {
  }

  lemma DownToStart<T>(list: seq<T>, current: seq<T>, removed: set<nat>)
    requires DownTo(list, current, 0, removed)
    ensures multiset(list) == Survivors(current, 0, removed)
  {
    FromIsMultiset(list, 0);
    assert list[0..] == list;
  }

  /** Passing over the record below. */
  lemma PassOver<T>(list: seq<T>, current: seq<T>, k: nat, removed: set<nat>)
    requires DownTo(list, current, k, removed) && k > 0
    ensures DownTo(list, current, k - 1, removed)
  {
  }

  lemma {:induction false} PassOverTo<T>(list: seq<T>, current: seq<T>, k: nat, j: nat, removed: set<nat>)
    requires DownTo(list, current, k, removed) && j <= k
    ensures DownTo(list, current, j, removed)
    decreases k
  {
    if j < k {
      PassOver(list, current, k, removed);
      PassOverTo(list, current, k - 1, j, removed);
    }
  }

  /** Updating a record of the part still to come. */
  lemma UpdateBelow<T>(list: seq<T>, current: seq<T>, k: nat, removed: set<nat>, i: nat, record: T)
    requires DownTo(list, current, k, removed) && i < k
    ensures DownTo(list[i := record], current[i := record], k, removed)
  {
    SameFrom(list, list[i := record], k);
    SameSurvivors(current, current[i := record], k, removed);
  }

  lemma {:induction false} SameFrom<T>(s: seq<T>, t: seq<T>, k: nat)
    requires k <= |s| == |t| && forall j :: k <= j < |s| ==> s[j] == t[j]
    ensures From(s, k) == From(t, k)
    decreases |s| - k
  {
    if k < |s| {
      SameFrom(s, t, k + 1);
    }
  }

  lemma {:induction false} SameSurvivors<T>(s: seq<T>, t: seq<T>, k: nat, removed: set<nat>)
    requires k <= |s| == |t| && forall j :: k <= j < |s| ==> s[j] == t[j]
    ensures Survivors(s, k, removed) == Survivors(t, k, removed)
    decreases |s| - k
  {
    if k < |s| {
      SameSurvivors(s, t, k + 1, removed);
    }
  }

  lemma {:induction false} OtherSurvivors<T>(s: seq<T>, k: nat, removed: set<nat>, i: nat)
    requires i < k <= |s|
    ensures Survivors(s, k, removed + {i}) == Survivors(s, k, removed)
    decreases |s| - k
  {
    if k < |s| {
      OtherSurvivors(s, k + 1, removed, i);
    }
  }

  lemma {:induction false} FromWithoutLast<T>(s: seq<T>, k: nat)
    requires k < |s|
    ensures From(s, k) == From(s[..|s| - 1], k) + multiset{s[|s| - 1]}
    decreases |s| - k
  {
    if k < |s| - 1 {
      FromWithoutLast(s, k + 1);
    }
  }

  /** Behind the removed record nothing is lost. */
  lemma SwapRemoveFrom<T>(s: seq<T>, k: nat)
    requires k < |s|
    ensures From(SwapRemove(s, k), k) == From(s, k + 1)
  {
    if k < |s| - 1 {
      SameFrom(SwapRemove(s, k), s[..|s| - 1], k + 1);
      FromWithoutLast(s, k + 1);
    }
  }

  lemma DropBelow<T>(list': seq<T>, list: seq<T>, current: seq<T>, k: nat, removed: set<nat>)
    requires DownTo(list, current, k, removed) && 0 < k <= |list'| + 1
    requires forall i :: 0 <= i < k - 1 ==> list'[i] == list[i]
    requires From(list', k - 1) == From(list, k)
    ensures DownTo(list', current, k - 1, removed + {k - 1})
  {
    OtherSurvivors(current, k, removed, k - 1);
    assert Survivors(current, k - 1, removed + {k - 1}) == Survivors(current, k, removed);
  }

  /** Removing the record below. */
  lemma RemoveBelow<T>(list: seq<T>, current: seq<T>, k: nat, removed: set<nat>)
    requires DownTo(list, current, k, removed) && k > 0
    ensures k - 1 < |list|
    ensures DownTo(SwapRemove(list, k - 1), current, k - 1, removed + {k - 1})
  {
    SwapRemoveFrom(list, k - 1);
    DropBelow(SwapRemove(list, k - 1), list, current, k, removed);
  }
}
