/** The derived figures of app/page.tsx: `safeWilks`, `computeStats` and the
    "current tier" test of the rank roadmap. */
module Stats {
  import opened Common
  import opened JsMath
  import Wilks
  import opened Storage

  const DefaultProfile := UserProfile("竹内 大地", 78.0, 100.0, 130.0, 160.0, 4)

  /** `safeWilks`: 0 wherever the score function would refuse its input, the score
      otherwise. The range guard is the corrected formula range, see
      Wilks.CalculateWilksScore. */
  function SafeWilks(bodyweightKg: real, totalKg: real): (w: real)
    ensures w >= 0.0
    ensures Wilks.CalculateWilksScore(bodyweightKg, totalKg).Err? <==>
      bodyweightKg < Wilks.MinBodyweightKg || bodyweightKg > Wilks.MaxBodyweightKg || totalKg <= 0.0
    ensures Wilks.CalculateWilksScore(bodyweightKg, totalKg).Err? ==> w == 0.0
    ensures Wilks.CalculateWilksScore(bodyweightKg, totalKg).Ok? ==>
      w == Wilks.CalculateWilksScore(bodyweightKg, totalKg).value
  {
    if bodyweightKg < Wilks.MinBodyweightKg || bodyweightKg > Wilks.MaxBodyweightKg || totalKg <= 0.0 then 0.0
    else Wilks.CalculateWilksScore(bodyweightKg, totalKg).value
  }

  /** `safeWilks` as written: the 40..635 kg guard, so bodyweights past the men's
      formula range reach the as-written scorer; up to 201.9 kg it agrees with
      SafeWilks. */
  function SafeWilksAsWritten(bodyweightKg: real, totalKg: real): (w: Wilks.JsNumber)
    ensures bodyweightKg < Wilks.MinBodyweightKg || bodyweightKg > Wilks.AsWrittenMaxBodyweightKg || totalKg <= 0.0 ==>
      w == Wilks.Finite(0.0)
    ensures Wilks.MinBodyweightKg <= bodyweightKg <= Wilks.AsWrittenMaxBodyweightKg && totalKg > 0.0 ==>
      Wilks.CalculateWilksScoreAsWritten(bodyweightKg, totalKg) == Ok(w)
    ensures bodyweightKg <= Wilks.MaxBodyweightKg ==> w == Wilks.Finite(SafeWilks(bodyweightKg, totalKg))
  {
    assert bodyweightKg <= Wilks.MaxBodyweightKg && Wilks.CalculateWilksScoreAsWritten(bodyweightKg, totalKg).Ok? ==>
      Wilks.CalculateWilksScoreAsWritten(bodyweightKg, totalKg).value
        == Wilks.Finite(Wilks.CalculateWilksScore(bodyweightKg, totalKg).value) by {
      if bodyweightKg <= Wilks.MaxBodyweightKg {
        Wilks.CorrectedAgreesWithinRange(bodyweightKg, totalKg);
      }
    }
    if bodyweightKg < Wilks.MinBodyweightKg || bodyweightKg > Wilks.AsWrittenMaxBodyweightKg || totalKg <= 0.0 then
      Wilks.Finite(0.0)
    else
      Wilks.CalculateWilksScoreAsWritten(bodyweightKg, totalKg).value
  }

  /** With the source's guard a 300 kg lifter with a 300 kg total gets a negative
      score; the rank progress then reports Bronze I, yet no roadmap row is current. */
  lemma AsWrittenStatsOutsideEveryTier()
    ensures SafeWilksAsWritten(300.0, 300.0).Finite?
    ensures SafeWilksAsWritten(300.0, 300.0).value < 0.0
    ensures Wilks.GetRankProgress(SafeWilksAsWritten(300.0, 300.0).value).currentRank == Wilks.RankTable[0]
    ensures forall i :: 0 <= i < |Wilks.RankTable| ==>
      !IsCurrent(Wilks.RankTable[i], SafeWilksAsWritten(300.0, 300.0).value)
  {
    Wilks.AsWrittenScoreNegative();
    var w := SafeWilksAsWritten(300.0, 300.0).value;
    Wilks.RankTableWellFormed();
    Wilks.RankTableShape();
    Wilks.RankIndexOfNoneReached(Wilks.RankTable, w);
    ExactlyOneCurrent(w);
  }

  /** `{ wilks, total, ...getRankProgress(wilks) }`. */
  datatype Stats = Stats(
    wilks: real, total: real,
    currentRank: Wilks.RankInfo, nextRank: Option<Wilks.RankInfo>,
    progressPercent: real, pointsToNext: real)

  /** `computeStats`: the big-three total, its (never failing) score and the rank
      progress of that score; the current tier's band contains the score. */
  function ComputeStats(p: UserProfile): (st: Stats)
    ensures st.total == p.bench1RM + p.squat1RM + p.deadlift1RM
    ensures st.wilks == SafeWilks(p.bodyweightKg, st.total)
    ensures st.currentRank == Wilks.RankTable[Wilks.RankIndex(st.wilks)]
    ensures IsCurrent(st.currentRank, st.wilks)
    ensures 0.0 <= st.progressPercent <= 100.0 && st.pointsToNext >= 0.0
    ensures var g := Wilks.GetRankProgress(st.wilks);
      st.currentRank == g.currentRank && st.nextRank == g.nextRank &&
      st.progressPercent == g.progressPercent && st.pointsToNext == g.pointsToNext
  {
    var total := p.bench1RM + p.squat1RM + p.deadlift1RM;
    var wilks := SafeWilks(p.bodyweightKg, total);
    var progress := Wilks.GetRankProgress(wilks);
    Wilks.RankTableWellFormed();
    Wilks.RankIndexInBand(Wilks.RankTable, wilks);
    Stats(wilks, total, progress.currentRank, progress.nextRank, progress.progressPercent, progress.pointsToNext)
  }

  /** `isCurrent` in `RankRoadmap`: the score has reached the tier and is below its
      upper bound, if any. */
  predicate IsCurrent(rank: Wilks.RankInfo, score: real) {
    score >= rank.minWilks && (rank.maxWilks.None? || score < rank.maxWilks.value)
  }

  /** In a well-formed table a score from the first lower bound on is current in
      exactly the row the top-down lookup returns. */
  lemma CurrentIsLookup(t: seq<Wilks.RankInfo>, score: real, i: nat)
    requires Wilks.WellFormed(t) && score >= 0.0 && i < |t|
    ensures IsCurrent(t[i], score) <==> i == Wilks.RankIndexIn(t, score)
  {
    var k := Wilks.RankIndexIn(t, score);
    Wilks.RankIndexInBand(t, score);
    assert i + 1 < k ==> t[i + 1].minWilks < t[k].minWilks;
    assert k + 1 < i ==> t[k + 1].minWilks < t[i].minWilks;
  }

  /** For a score of at least 0 exactly one roadmap row is current, the tier
      `getRankByWilks` gives; below 0 none is. */
  lemma ExactlyOneCurrent(score: real)
    ensures score >= 0.0 ==> forall i :: 0 <= i < |Wilks.RankTable| ==>
      (IsCurrent(Wilks.RankTable[i], score) <==> i == Wilks.RankIndex(score))
    ensures score < 0.0 ==> forall i :: 0 <= i < |Wilks.RankTable| ==> !IsCurrent(Wilks.RankTable[i], score)
  {
    Wilks.RankTableWellFormed();
    if score >= 0.0 {
      forall i | 0 <= i < |Wilks.RankTable|
        ensures IsCurrent(Wilks.RankTable[i], score) <==> i == Wilks.RankIndex(score)
      {
        CurrentIsLookup(Wilks.RankTable, score, i);
      }
    }
  }
}
