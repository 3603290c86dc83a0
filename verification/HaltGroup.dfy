/** The can-halt-the-network group of `classify`: the validators, taken by descending stake, that
    together hold more than a third of the stake. */
module HaltGroup {
  import opened Collections
  import opened StakeTypes

  function ActiveStake(info: VoteAccountInfo): nat { info.activeStake }

  function Descending(info: VoteAccountInfo): int { 0 - info.activeStake }

  function TotalStake(infos: seq<VoteAccountInfo>): nat {
    SumBy(infos, ActiveStake)
  }

  /** Sorted by descending stake; validators with the same stake keep their order. */
  function Ranking(infos: seq<VoteAccountInfo>): seq<VoteAccountInfo> {
    SortByKey(infos, Descending)
  }

  function Limit(totalActiveStake: nat): nat {
    totalActiveStake / 100 * 33
  }

  /** The limit is 33 percent, rounded down by less than 33. */
  lemma LimitIsPercentage(totalActiveStake: nat)
    ensures Limit(totalActiveStake) * 100 <= totalActiveStake * 33 < (Limit(totalActiveStake) + 33) * 100
  {
    assert totalActiveStake == totalActiveStake / 100 * 100 + totalActiveStake % 100;
  }

  /** The accumulation loop. The list may leave out vote accounts that are counted in
      `totalActiveStake`, so the limit need not be reached. */
  method FindHaltGroup(infos: seq<VoteAccountInfo>, totalActiveStake: nat)
    returns (count: nat, lastStake: nat, accumulated: nat)
    ensures count <= |infos| && |Ranking(infos)| == |infos|
    ensures accumulated == TotalStake(Ranking(infos)[..count])
    ensures TotalStake(infos) > Limit(totalActiveStake) ==>
              count > 0 && accumulated > Limit(totalActiveStake)
              && TotalStake(Ranking(infos)[..count - 1]) <= Limit(totalActiveStake)
    ensures TotalStake(infos) <= Limit(totalActiveStake) ==> count == |infos|
    ensures lastStake == if count == 0 then Limit(totalActiveStake) else Ranking(infos)[count - 1].activeStake
  {
    SortByKeyProperties(infos, Descending);
    var ranking := SortByKey(infos, Descending);
    var limit := totalActiveStake / 100 * 33;
    accumulated, count, lastStake := 0, 0, limit;
    while count < |ranking|
      invariant count <= |ranking|
      invariant accumulated == TotalStake(ranking[..count]) <= limit
      invariant lastStake == if count == 0 then limit else ranking[count - 1].activeStake
    {
      assert ranking[..count + 1][..count] == ranking[..count];
      lastStake := ranking[count].activeStake;
      accumulated := accumulated + ranking[count].activeStake;
      count := count + 1;
      if accumulated > limit {
        break;
      }
    }
    assert ranking[..|ranking|] == ranking;
    SumByPermutation(ranking, infos, ActiveStake);
    PrefixAtMostWhole(ranking, count);
  }

  lemma PrefixAtMostWhole(s: seq<VoteAccountInfo>, n: nat)
    requires n <= |s|
    ensures TotalStake(s[..n]) <= TotalStake(s)
  {
    assert s == s[..n] + s[n..];
    SumByAppend(s[..n], s[n..], ActiveStake);
  }

  /** In a descending list no team of `k` validators holds more than the first `k`. */
  lemma {:induction false} FirstAreHeaviest(s: seq<VoteAccountInfo>, team: seq<VoteAccountInfo>)
    requires SortedByKey(s, Descending)
    requires multiset(team) <= multiset(s)
    ensures |team| <= |s| && TotalStake(team) <= TotalStake(s[..|team|])
    decreases |s|
  {
    TeamFits(s, team);
    if s == [] {
    } else {
      var rest := s[..|s| - 1];
      if s[|s| - 1] in team {
        var i :| 0 <= i < |team| && team[i] == s[|s| - 1];
        PartWithoutLast(team, i, s);
        FirstAreHeaviest(rest, RemoveAt(team, i));
        LightestJoins(s, team, i);
      } else {
        PartOfRest(team, s);
        FirstAreHeaviest(rest, team);
        assert rest[..|team|] == s[..|team|];
      }
    }
  }

  lemma LightestJoins(s: seq<VoteAccountInfo>, team: seq<VoteAccountInfo>, i: nat)
    requires SortedByKey(s, Descending) && s != []
    requires i < |team| <= |s| && team[i] == s[|s| - 1]
    requires TotalStake(RemoveAt(team, i)) <= TotalStake(s[..|s| - 1][..|team| - 1])
    ensures TotalStake(team) <= TotalStake(s[..|team|])
  {
    var k := |team| - 1;
    SumByRemoveAt(team, i, ActiveStake);
    assert s[..|s| - 1][..k] == s[..k] && s[..k + 1][..k] == s[..k];
    assert Descending(s[k]) <= Descending(s[|s| - 1]);
  }

  lemma TeamFits(s: seq<VoteAccountInfo>, team: seq<VoteAccountInfo>)
    requires multiset(team) <= multiset(s)
    ensures |team| <= |s|
  {
    assert |multiset(team)| + |multiset(s) - multiset(team)| == |multiset(s)|;
  }

  /** The group is as small as possible: when it was found, no smaller team drawn from the list holds
      more than the limit. */
  lemma NoSmallerTeam(infos: seq<VoteAccountInfo>, limit: nat, count: nat, team: seq<VoteAccountInfo>)
    requires 0 < count <= |infos| == |Ranking(infos)|
    requires TotalStake(Ranking(infos)[..count - 1]) <= limit
    requires multiset(team) <= multiset(infos) && |team| < count
    ensures TotalStake(team) <= limit
  {
    var ranking := Ranking(infos);
    SortByKeyProperties(infos, Descending);
    FirstAreHeaviest(ranking, team);
    assert ranking[..count - 1][..|team|] == ranking[..|team|];
    PrefixAtMostWhole(ranking[..count - 1], |team|);
  }

  /** `can_halt_the_network_group`, as set for each validator from the last stake of the group. */
  predicate Flagged(info: VoteAccountInfo, lastStake: nat) {
    info.activeStake >= lastStake
  }

  /** Every member of the group is flagged, and whoever is not has strictly less stake than each
      member. */
  lemma UnflaggedAreLighter(infos: seq<VoteAccountInfo>, count: nat, info: VoteAccountInfo, i: nat)
    requires 0 < count <= |infos| == |Ranking(infos)|
    requires i < count && info in infos
    ensures Flagged(Ranking(infos)[i], Ranking(infos)[count - 1].activeStake)
    ensures !Flagged(info, Ranking(infos)[count - 1].activeStake) ==> info.activeStake < Ranking(infos)[i].activeStake
  {
    SortByKeyProperties(infos, Descending);
    assert Descending(Ranking(infos)[i]) <= Descending(Ranking(infos)[count - 1]);
  }

  /** Flagging goes by stake: exactly the members are flagged if and only if nobody outside the group
      has as much stake as its lightest member. */
  lemma FlaggedIffMember(infos: seq<VoteAccountInfo>, count: nat)
    requires 0 < count <= |infos| == |Ranking(infos)|
    ensures (forall i ::
              0 <= i < |infos| ==> (Flagged(Ranking(infos)[i], Ranking(infos)[count - 1].activeStake) <==> i < count))
            <==> (count == |infos| || Ranking(infos)[count].activeStake < Ranking(infos)[count - 1].activeStake)
  {
    var ranking := Ranking(infos);
    SortByKeyProperties(infos, Descending);
    forall i | 0 <= i < |infos|
      ensures i < count ==> Flagged(ranking[i], ranking[count - 1].activeStake)
      ensures count < i ==> ranking[i].activeStake <= ranking[count].activeStake
    {
      if i < count {
        assert Descending(ranking[i]) <= Descending(ranking[count - 1]);
      } else if count < i {
        assert Descending(ranking[count]) <= Descending(ranking[i]);
      }
    }
  }

  /** A tie at the border of the group: of two validators with the same stake the first one is the
      group, and the other one is flagged as well. */
  lemma TieAtTheBorder(a: VoteAccountInfo, b: VoteAccountInfo)
    requires a.activeStake == b.activeStake > 0
    ensures Ranking([a, b]) == [a, b]
    ensures TotalStake([a]) > Limit(TotalStake([a, b]))
    ensures Flagged(Ranking([a, b])[1], Ranking([a, b])[0].activeStake)
  {
    SortOfSorted([a, b], Descending);
    SumOfOne([a], ActiveStake);
    SumOfOne([b], ActiveStake);
    SumByAppend([a], [b], ActiveStake);
    assert [a] + [b] == [a, b];
    var total := TotalStake([a, b]);
    assert total / 100 * 100 <= total;
  }
}
