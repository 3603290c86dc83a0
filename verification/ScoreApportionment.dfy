/** The last step of the score post-processing (process_scores.rs): validators are ranked by score, and
    a stake target and the percentages are apportioned to them by score, each share rounded down. */
module ScoreApportionment {
  import opened Arithmetic
  import opened Collections
  import opened Shares
  import opened StakeTypes

  const U32_LIMIT: nat := 0x1_0000_0000

  type u32 = n: nat | n < U32_LIMIT

  /** One hundred percent with six decimals. */
  const PCT_UNITS: nat := 100_000_000

  /** `shouldHave` in lamports, `pct` in units of a millionth of a percent. */
  datatype ValidatorScore = ValidatorScore(voteAddress: Pubkey, score: u32, shouldHave: nat, rank: nat, pct: nat)

  datatype ScoreError = DivisionByZero | ShareOverflow

  function ScoreOf(): ValidatorScore -> nat {
    (v: ValidatorScore) => v.score
  }

  function ByScore(): ValidatorScore -> int {
    (v: ValidatorScore) => 0 - v.score
  }

  /** The share of a score in `whole`, if all scores make `total`. */
  function ShareOf(whole: nat, total: nat): ValidatorScore -> nat
    requires total > 0
  {
    (v: ValidatorScore) => MulDiv(v.score, whole, total)
  }

  lemma {:induction false} TotalFits(s: seq<ValidatorScore>)
    requires |s| < U32_LIMIT
    ensures SumBy(s, ScoreOf()) <= |s| * (U32_LIMIT - 1)
  {
    if s != [] {
      TotalFits(s[..|s| - 1]);
    }
  }

  lemma ScoreWithinTotal(s: seq<ValidatorScore>, i: nat)
    requires i < |s|
    ensures s[i].score <= SumBy(s, ScoreOf())
  {
    SumByRemoveAt(s, i, ScoreOf());
  }

  /** A share is at most the whole. */
  lemma ShareWithinWhole(v: ValidatorScore, whole: u64, total: u64)
    requires 0 < total && v.score <= total
    ensures ShareOf(whole, total)(v) <= whole
    ensures Proportional(v.score, whole, total) == Ok(ShareOf(whole, total)(v))
  {
    MulMonotone(v.score, total, whole);
    assert whole * total == total * whole;
    ProportionalOfPart(v.score, whole, total, whole);
  }

  /** Sorts in place, highest score first; equal scores keep their order. */
  method SortByScore(a: array<ValidatorScore>)
    modifies a
    ensures a[..] == SortByKey(old(a[..]), ByScore())
  {
    var sorted := SortByKey(a[..], ByScore());
    SortByKeyProperties(a[..], ByScore());
    for i := 0 to a.Length
      invariant a[..i] == sorted[..i]
    {
      a[i] := sorted[i];
    }
    assert a[..] == a[..a.Length] && sorted == sorted[..a.Length];
  }

  /** What an entry becomes at position `i`. */
  function Apportioned(v: ValidatorScore, i: nat, target: nat, total: nat): ValidatorScore
    requires total > 0
  {
    v.(shouldHave := ShareOf(target, total)(v), rank := i + 1, pct := ShareOf(PCT_UNITS, total)(v))
  }

  method TotalScore(a: array<ValidatorScore>) returns (total: nat)
    ensures total == SumBy(a[..], ScoreOf())
  {
    total := 0;
    for i := 0 to a.Length
      invariant total == SumBy(a[..i], ScoreOf())
    {
      assert a[..i + 1][..i] == a[..i];
      total := total + a[i].score;
    }
    assert a[..a.Length] == a[..];
  }

  /** Without any score, the percentage of the first entry divides by zero. */
  method AssignShares(a: array<ValidatorScore>, total: u64, target: u64) returns (r: Result<nat, ScoreError>)
    requires forall i :: 0 <= i < a.Length ==> a[i].score <= total
    modifies a
    ensures r == if total == 0 && a.Length > 0 then Err(DivisionByZero) else Ok(total)
    ensures r.Ok? ==> forall i :: 0 <= i < a.Length ==> total > 0 && a[i] == Apportioned(old(a[i]), i, target, total)
  {
    var rank: nat := 1;
    for i := 0 to a.Length
      invariant rank == i + 1 && (i > 0 ==> total > 0)
      invariant forall j :: 0 <= j < i ==> a[j] == Apportioned(old(a[j]), j, target, total)
      invariant forall j :: i <= j < a.Length ==> a[j] == old(a[j])
    {
      if total == 0 {
        return Err(DivisionByZero);
      }
      ShareWithinWhole(a[i], target, total);
      var share := Proportional(a[i].score, target, total);
      if share.Err? {
        return Err(ShareOverflow);
      }
      a[i] := a[i].(shouldHave := share.value, rank := rank, pct := MulDiv(a[i].score, PCT_UNITS, total));
      rank := rank + 1;
    }
    r := Ok(total);
  }

  method Apportion(a: array<ValidatorScore>, target: u64) returns (r: Result<nat, ScoreError>)
    requires a.Length < U32_LIMIT - 1
    modifies a
    ensures var s, total := SortByKey(old(a[..]), ByScore()), SumBy(old(a[..]), ScoreOf());
            && r == (if total == 0 && a.Length > 0 then Err(DivisionByZero) else Ok(total))
            && |s| == a.Length
            && (r.Ok? ==> forall i :: 0 <= i < a.Length ==> total > 0 && a[i] == Apportioned(s[i], i, target, total))
    ensures r.Ok? && a.Length > 0 ==> IsApportioned(old(a[..]), a[..], target)
  {
    ghost var before := a[..];
    var total := TotalScore(a);
    TotalFits(before);
    ScoresAfterSort(before);
    SortByScore(a);
    ghost var s := a[..];
    assert forall i :: 0 <= i < a.Length ==> a[i] == s[i];
    r := AssignShares(a, total, target);
  }

  lemma ScoresAfterSort(before: seq<ValidatorScore>)
    ensures var s := SortByKey(before, ByScore());
            |s| == |before| && forall i :: 0 <= i < |s| ==> s[i].score <= SumBy(before, ScoreOf())
  {
    var s := SortByKey(before, ByScore());
    SortByKeyProperties(before, ByScore());
    SumByPermutation(s, before, ScoreOf());
    forall i | 0 <= i < |s|
      ensures s[i].score <= SumBy(before, ScoreOf())
    {
      ScoreWithinTotal(s, i);
    }
  }

  // ---------- What the shares make together ----------

  /** A sum of shares, each rounded down, is at most the exact share of the sum, and less than one per
      entry below it. */
  lemma SumOfShares(s: seq<ValidatorScore>, whole: nat, total: nat)
    requires total > 0
    ensures var shares, scores := SumBy(s, ShareOf(whole, total)), SumBy(s, ScoreOf());
            && shares * total <= scores * whole
            && (s != [] ==> scores * whole < (shares + |s|) * total)
  {
    forall v | v in s
      ensures var share := ShareOf(whole, total)(v);
              share * total <= ScoreOf()(v) * whole < (share + 1) * total
    {
      OneShare(v, whole, total);
    }
    SumOfParts(s, ScoreOf(), ShareOf(whole, total), whole, total);
  }

  lemma OneShare(v: ValidatorScore, whole: nat, total: nat)
    requires total > 0
    ensures var q := ShareOf(whole, total)(v);
            q * total <= v.score * whole < (q + 1) * total
  {
    var product := v.score * whole;
    DivideAndMultiply(product, total);
    var q := product / total;
    assert total * q == q * total && (q + 1) * total == q * total + total;
  }

  lemma WholeIsShared(s: seq<ValidatorScore>, whole: nat)
    requires SumBy(s, ScoreOf()) > 0
    ensures var shares := SumBy(s, ShareOf(whole, SumBy(s, ScoreOf())));
            whole - |s| < shares <= whole
  {
    var total := SumBy(s, ScoreOf());
    var shares := SumBy(s, ShareOf(whole, total));
    SumOfShares(s, whole, total);
    if shares > whole {
      LargerProduct(total, whole, shares);
    }
    if shares + |s| <= whole {
      MulMonotone(shares + |s|, whole, total);
    }
  }

  /** The part of the whole that its score is of all scores, rounded down. */
  predicate IsPart(part: nat, score: nat, total: nat, whole: nat) {
    part * total <= score * whole < (part + 1) * total
  }

  /** Each validator of the list is there with its own score, and gets the part of the target, and of a
      hundred percent, that its score is of all scores. */
  lemma EachGetsItsPart(before: seq<ValidatorScore>, after: seq<ValidatorScore>, target: nat)
    requires IsApportioned(before, after, target)
    ensures multiset(Scores(after)) == multiset(Scores(before))
    ensures var total := SumBy(before, ScoreOf());
            forall i :: 0 <= i < |after| ==>
              && IsPart(after[i].shouldHave, after[i].score, total, target)
              && IsPart(after[i].pct, after[i].score, total, 100_000_000)
  {
    var s, total := SortByKey(before, ByScore()), SumBy(before, ScoreOf());
    SortByKeyProperties(before, ByScore());
    SameScores(before, s);
    ScoresStay(s, after);
    forall i | 0 <= i < |after|
      ensures IsPart(after[i].shouldHave, after[i].score, total, target)
      ensures IsPart(after[i].pct, after[i].score, total, PCT_UNITS)
    {
      OneShare(s[i], target, total);
      OneShare(s[i], PCT_UNITS, total);
    }
  }

  /** What `Apportion` makes of a list with any scores at all. */
  ghost predicate IsApportioned(before: seq<ValidatorScore>, after: seq<ValidatorScore>, target: nat) {
    var s, total := SortByKey(before, ByScore()), SumBy(before, ScoreOf());
    && total > 0 && |s| == |after|
    && forall i :: 0 <= i < |after| ==> after[i] == Apportioned(s[i], i, target, total)
  }

  lemma {:induction false} ScoresStay(s: seq<ValidatorScore>, t: seq<ValidatorScore>)
    requires |s| == |t|
    requires forall i :: 0 <= i < |s| ==> s[i].voteAddress == t[i].voteAddress && s[i].score == t[i].score
    ensures Scores(s) == Scores(t)
  {
    if s != [] {
      ScoresStay(s[..|s| - 1], t[..|t| - 1]);
    }
  }

  /** All of the target but less than one lamport for each validator is apportioned, and all but as
      many units of the hundred percent; ranks run from one, by falling score, and who ranks higher gets
      no less. */
  lemma ApportionmentIsFair(before: seq<ValidatorScore>, after: seq<ValidatorScore>, target: nat)
    requires IsApportioned(before, after, target)
    ensures target - |after| < SumBy(after, (v: ValidatorScore) => v.shouldHave) <= target
    ensures PCT_UNITS - |after| < SumBy(after, (v: ValidatorScore) => v.pct) <= PCT_UNITS
    ensures forall i :: 0 <= i < |after| ==> after[i].rank == i + 1
    ensures forall i, j :: 0 <= i < j < |after| ==>
              after[i].score >= after[j].score && after[i].shouldHave >= after[j].shouldHave
                && after[i].pct >= after[j].pct
    ensures |after| == |before|
  {
    var s, total := SortByKey(before, ByScore()), SumBy(before, ScoreOf());
    SortByKeyProperties(before, ByScore());
    SumByPermutation(s, before, ScoreOf());
    WholeIsShared(s, target);
    WholeIsShared(s, PCT_UNITS);
    SameSums(s, after, ShareOf(target, total), (v: ValidatorScore) => v.shouldHave);
    SameSums(s, after, ShareOf(PCT_UNITS, total), (v: ValidatorScore) => v.pct);
    forall i, j | 0 <= i < j < |after|
      ensures after[i].score >= after[j].score && after[i].shouldHave >= after[j].shouldHave
              && after[i].pct >= after[j].pct
    {
      assert ByScore()(s[i]) <= ByScore()(s[j]);
      ShareMonotone(s[j], s[i], target, total);
      ShareMonotone(s[j], s[i], PCT_UNITS, total);
    }
  }

  /** Whose score is what. */
  function Scores(s: seq<ValidatorScore>): (r: seq<(Pubkey, nat)>)
    ensures |r| == |s|
  {
    if s == [] then [] else Scores(s[..|s| - 1]) + [(s[|s| - 1].voteAddress, s[|s| - 1].score)]
  }

  lemma {:induction false} SameScores(s: seq<ValidatorScore>, t: seq<ValidatorScore>)
    requires multiset(s) == multiset(t)
    ensures multiset(Scores(s)) == multiset(Scores(t))
  {
    forall x: (Pubkey, nat)
      ensures multiset(Scores(s))[x] == multiset(Scores(t))[x]
    {
      CountScores(s, x);
      CountScores(t, x);
      SumByPermutation(s, t, Having(x));
    }
  }

  function Having(x: (Pubkey, nat)): ValidatorScore -> nat {
    (v: ValidatorScore) => if (v.voteAddress, v.score) == x then 1 else 0
  }

  lemma {:induction false} CountScores(s: seq<ValidatorScore>, x: (Pubkey, nat))
    ensures multiset(Scores(s))[x] == SumBy(s, Having(x))
  {
    if s != [] {
      CountScores(s[..|s| - 1], x);
    }
  }

  lemma {:induction false} SameSums(
    s: seq<ValidatorScore>, t: seq<ValidatorScore>, f: ValidatorScore -> nat, g: ValidatorScore -> nat)
    requires |s| == |t| && forall i :: 0 <= i < |s| ==> f(s[i]) == g(t[i])
    ensures SumBy(s, f) == SumBy(t, g)
  {
    if s != [] {
      SameSums(s[..|s| - 1], t[..|t| - 1], f, g);
    }
  }

  lemma ShareMonotone(v: ValidatorScore, w: ValidatorScore, whole: nat, total: nat)
    requires total > 0 && v.score <= w.score
    ensures ShareOf(whole, total)(v) <= ShareOf(whole, total)(w)
  {
    MulMonotone(v.score, w.score, whole);
    QuotientMonotone(v.score * whole, w.score * whole, total);
  }
}
