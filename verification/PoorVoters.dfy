/** `classify_poor_voters` of main.rs: validators whose vote credits are too far below the average. */
module PoorVoters {
  import opened Arithmetic
  import opened Collections
  import opened StakeTypes

  datatype Error = DivisionByZero

  datatype Classification = Classification(
    poor: set<Pubkey>, poorPercentage: nat, minimum: nat, average: nat, tooManyPoor: bool)

  function Credits(info: VoteAccountInfo): nat { info.epochCredits }

  function AverageCredits(infos: seq<VoteAccountInfo>): nat
    requires infos != []
  {
    SumBy(infos, Credits) / |infos|
  }

  /** `percentage` is validated by the command line to be at most 100. */
  function MinimumCredits(average: nat, percentage: nat): nat
    requires percentage <= 100
  {
    average * (100 - percentage) / 100
  }

  function Poor(infos: seq<VoteAccountInfo>, minimum: nat): set<Pubkey> {
    set info | info in infos && info.epochCredits < minimum :: info.identity
  }

  function ClassifyPoorVoters(infos: seq<VoteAccountInfo>, percentage: nat, maxPoorPercentage: nat)
    : Result<Classification, Error>
    requires percentage <= 100
  {
    if infos == [] then Err(DivisionByZero)
    else
      var average := AverageCredits(infos);
      var minimum := MinimumCredits(average, percentage);
      var poor := Poor(infos, minimum);
      Ok(Classification(poor, |poor| * 100 / |infos|, minimum, average, |poor| > |infos| * maxPoorPercentage / 100))
  }

  lemma {:induction false} SomeoneReaches(infos: seq<VoteAccountInfo>, credits: nat) returns (info: VoteAccountInfo)
    requires infos != [] && SumBy(infos, Credits) >= credits * |infos|
    ensures info in infos && info.epochCredits >= credits
  {
    var n := |infos| - 1;
    info := infos[n];
    if info.epochCredits < credits {
      assert credits * |infos| == credits * n + credits;
      info := SomeoneReaches(infos[..n], credits);
    }
  }

  /** What the numbers mean: the average and the smallest number of credits are rounded down, by less than
      one; a voter is poor exactly if even one credit more would not be too many for that part of the
      average; and there are too many poor voters exactly if they are more than that part of all. */
  lemma PoorVotersIff(infos: seq<VoteAccountInfo>, percentage: nat, maxPoorPercentage: nat)
    requires infos != [] && percentage <= 100
    ensures ClassifyPoorVoters(infos, percentage, maxPoorPercentage).Ok?
    ensures var c := ClassifyPoorVoters(infos, percentage, maxPoorPercentage).value;
            && c.average * |infos| <= SumBy(infos, Credits) < (c.average + 1) * |infos|
            && c.minimum * 100 <= c.average * (100 - percentage) < (c.minimum + 1) * 100
            && (forall k :: k in c.poor <==>
                 exists info :: info in infos && info.identity == k
                   && (info.epochCredits + 1) * 100 <= c.average * (100 - percentage))
            && (c.tooManyPoor <==> |c.poor| * 100 > |infos| * maxPoorPercentage)
            && c.poorPercentage * |infos| <= |c.poor| * 100 < (c.poorPercentage + 1) * |infos|
  {
    var c := ClassifyPoorVoters(infos, percentage, maxPoorPercentage).value;
    QuotientBounds(SumBy(infos, Credits), |infos|);
    QuotientBounds(c.average * (100 - percentage), 100);
    QuotientBounds(|infos| * maxPoorPercentage, 100);
    QuotientBounds(|c.poor| * 100, |infos|);
    forall info | info in infos
      ensures info.epochCredits < c.minimum <==> (info.epochCredits + 1) * 100 <= c.average * (100 - percentage)
    {
      QuotientAtLeast(c.average * (100 - percentage), 100, info.epochCredits + 1);
    }
  }

  lemma QuotientBounds(a: nat, d: nat)
    requires d > 0
    ensures a / d * d <= a < (a / d + 1) * d
  {
    DivideAndMultiply(a, d);
    assert d * (a / d) == a / d * d && (a / d + 1) * d == a / d * d + d;
  }

  /** However the credits are spread and rounded, not everybody is a poor voter, so a non-empty list
      never leaves the cluster without a voter to keep. */
  lemma SomeoneIsKept(
    infos: seq<VoteAccountInfo>, percentage: nat, maxPoorPercentage: nat)
    returns (info: VoteAccountInfo)
    requires infos != [] && percentage <= 100
    requires forall i, j :: 0 <= i < j < |infos| ==> infos[i].identity != infos[j].identity
    ensures ClassifyPoorVoters(infos, percentage, maxPoorPercentage).Ok?
    ensures info in infos && info.identity !in ClassifyPoorVoters(infos, percentage, maxPoorPercentage).value.poor
  {
    var average := AverageCredits(infos);
    QuotientAtLeast(SumBy(infos, Credits), |infos|, average);
    info := SomeoneReaches(infos, average);
    MinimumAtMostAverage(average, percentage);
    var k :| 0 <= k < |infos| && infos[k] == info;
  }

  lemma MinimumAtMostAverage(average: nat, percentage: nat)
    requires percentage <= 100
    ensures MinimumCredits(average, percentage) <= average
  {
    MulMonotone(100 - percentage, 100, average);
    assert average * (100 - percentage) <= average * 100;
    QuotientAtLeast(average * (100 - percentage), 100, average + 1);
  }
}
