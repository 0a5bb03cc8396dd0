/** The scoring engine of lib/wilks.ts: the male Wilks score (Wilks, 1998), the Epley
    one-rep-max estimate, the fourteen-tier rank table, the tier lookup and the progress
    towards the next tier. Numbers are exact reals; `Math.round` is modelled by JsMath. */
module Wilks {
  import opened Common
  import opened JsMath

  /** What the source's `throw new Error(...)` reports, with the offending input. */
  datatype WilksError =
    | BodyweightOutOfRange(bodyweightKg: real)
    | NonPositiveTotal(totalKg: real)
    | RepsOutOfRange(reps: real)
    | NonPositiveWeight(weightKg: real)

  // ---------------------------------------------------------------------------
  // The Wilks polynomial
  // ---------------------------------------------------------------------------

  const CoefA: real := -216.0475144
  const CoefB: real := 16.2606339
  const CoefC: real := -0.002388645
  const CoefD: real := -0.00113732
  const CoefE: real := 0.00000701863
  const CoefF: real := -0.00000001291

  const MinBodyweightKg: real := 40.0
  /** The upper bound the source checks against. */
  const AsWrittenMaxBodyweightKg: real := 635.0
  /** The end of the men's formula range: the polynomial peaks near 202 kg and
      falls to zero near 283 kg. */
  const MaxBodyweightKg: real := 201.9

  /** The denominator `a + b*bw + c*bw^2 + d*bw^3 + e*bw^4 + f*bw^5`. */
  function Denominator(bw: real): real {
    CoefA + CoefB * bw + CoefC * (bw * bw) + CoefD * (bw * bw * bw)
    + CoefE * (bw * bw * bw * bw) + CoefF * (bw * bw * bw * bw * bw)
  }

  /** The unrounded score `total * (500 / P(bw))`. */
  function ExactScore(bw: real, totalKg: real): real
    requires Denominator(bw) != 0.0
  {
    totalKg * (500.0 / Denominator(bw))
  }

  // A quintic `q0 + q1 t + ... + q5 t^5`, used for the Taylor expansion of the
  // denominator around a point.
  function Quintic(q0: real, q1: real, q2: real, q3: real, q4: real, q5: real, t: real): real {
    q0 + q1 * t + q2 * (t * t) + q3 * (t * t * t) + q4 * (t * t * t * t) + q5 * (t * t * t * t * t)
  }

  function NegativePart(q: real, p: real): real {
    if q < 0.0 then q * p else 0.0
  }

  lemma MulMonotone(a: real, b: real, c: real, d: real)
    requires 0.0 <= a <= b && 0.0 <= c <= d
    ensures 0.0 <= a * c <= b * d
  {
    assert a * c <= b * c;
    assert b * c <= b * d;
  }

  lemma TermLowerBound(q: real, p: real, pmax: real)
    requires 0.0 <= p <= pmax
    ensures q * p >= NegativePart(q, pmax)
  {
    if q < 0.0 {
      MulMonotone(p, pmax, -q, -q);
    } else {
      MulMonotone(0.0, p, 0.0, q);
    }
  }

  lemma PowersBounded(t: real, h: real)
    requires 0.0 <= t <= h
    ensures 0.0 <= t * t <= h * h
    ensures 0.0 <= t * t * t <= h * h * h
    ensures 0.0 <= t * t * t * t <= h * h * h * h
    ensures 0.0 <= t * t * t * t * t <= h * h * h * h * h
  {
    MulMonotone(t, h, t, h);
    MulMonotone(t * t, h * h, t, h);
    MulMonotone(t * t * t, h * h * h, t, h);
    MulMonotone(t * t * t * t, h * h * h * h, t, h);
  }

  lemma SumLowerBound(q0: real, x1: real, x2: real, x3: real, x4: real, x5: real,
                      n1: real, n2: real, n3: real, n4: real, n5: real)
    requires x1 >= n1 && x2 >= n2 && x3 >= n3 && x4 >= n4 && x5 >= n5
    ensures q0 + x1 + x2 + x3 + x4 + x5 >= q0 + n1 + n2 + n3 + n4 + n5
  {
  }

  /** On `0 <= t <= h` a quintic is at least its constant term plus the negative
      terms taken at `t = h`. */
  lemma QuinticLowerBound(q0: real, q1: real, q2: real, q3: real, q4: real, q5: real, t: real, h: real)
    requires 0.0 <= t <= h
    ensures Quintic(q0, q1, q2, q3, q4, q5, t) >=
      q0 + NegativePart(q1, h) + NegativePart(q2, h * h) + NegativePart(q3, h * h * h)
         + NegativePart(q4, h * h * h * h) + NegativePart(q5, h * h * h * h * h)
  {
    PowersBounded(t, h);
    TermLowerBound(q1, t, h);
    TermLowerBound(q2, t * t, h * h);
    TermLowerBound(q3, t * t * t, h * h * h);
    TermLowerBound(q4, t * t * t * t, h * h * h * h);
    TermLowerBound(q5, t * t * t * t * t, h * h * h * h * h);
    SumLowerBound(q0, q1 * t, q2 * (t * t), q3 * (t * t * t), q4 * (t * t * t * t), q5 * (t * t * t * t * t),
      NegativePart(q1, h), NegativePart(q2, h * h), NegativePart(q3, h * h * h),
      NegativePart(q4, h * h * h * h), NegativePart(q5, h * h * h * h * h));
  }

  /** The Wilks denominator is positive over the men's formula range, so every
      score computed there is finite and has the sign of the total. The proof
      expands the polynomial around 40, 81, 122 and 163 kg (exact Taylor
      coefficients) and bounds each piece of width 41 kg from below. */
  lemma DenominatorPositive(bw: real)
    requires MinBodyweightKg <= bw <= MaxBodyweightKg
    ensures Denominator(bw) > 0.0
  {
    if bw <= 81.0 {
      assert Denominator(bw) == Quintic(374.4132384, 12.24192758, -0.079750597, -0.0002208992,
        0.00000443663, -0.00000001291, bw - 40.0);
      QuinticLowerBound(374.4132384, 12.24192758, -0.079750597, -0.0002208992,
        0.00000443663, -0.00000001291, bw - 40.0, 41.0);
    } else if bw <= 122.0 {
      assert Denominator(bw) == Quintic(738.08807433032, 5.62908899277, -0.07107104952, 0.00028969102,
        0.00000179008, -0.00000001291, bw - 81.0);
      QuinticLowerBound(738.08807433032, 5.62908899277, -0.07107104952, 0.00028969102,
        0.00000179008, -0.00000001291, bw - 81.0, 41.0);
    } else if bw <= 163.0 {
      assert Denominator(bw) == Quintic(872.93871827616, 1.57326828816, -0.02628200828, 0.00036624704,
        -0.00000085647, -0.00000001291, bw - 122.0);
      QuinticLowerBound(872.93871827616, 1.57326828816, -0.02628200828, 0.00036624704,
        -0.00000085647, -0.00000001291, bw - 122.0, 41.0);
    } else {
      assert Denominator(bw) == Quintic(914.5888913373, 0.84660948389, 0.00123032012, 0.00000876886,
        -0.00000350302, -0.00000001291, bw - 163.0);
      QuinticLowerBound(914.5888913373, 0.84660948389, 0.00123032012, 0.00000876886,
        -0.00000350302, -0.00000001291, bw - 163.0, 41.0);
    }
  }

  // ---------------------------------------------------------------------------
  // calculateWilksScore
  // ---------------------------------------------------------------------------

  /** A JavaScript number as the as-written scorer can produce it: `500 / 0` is an
      infinity, not an exception. */
  datatype JsNumber = Finite(value: real) | NonFinite

  /** `calculateWilksScore` as written: it accepts bodyweights up to 635 kg, where the
      denominator is negative, zero or positive. */
  function CalculateWilksScoreAsWritten(bodyweightKg: real, totalKg: real): (r: Result<JsNumber, WilksError>)
    ensures r.Ok? <==> MinBodyweightKg <= bodyweightKg <= AsWrittenMaxBodyweightKg && totalKg > 0.0
    ensures r == Err(BodyweightOutOfRange(bodyweightKg))
        <==> bodyweightKg < MinBodyweightKg || bodyweightKg > AsWrittenMaxBodyweightKg
    ensures r == Err(NonPositiveTotal(totalKg))
        <==> MinBodyweightKg <= bodyweightKg <= AsWrittenMaxBodyweightKg && totalKg <= 0.0
    ensures r.Ok? && r.value.NonFinite? ==> Denominator(bodyweightKg) == 0.0
    ensures r.Ok? && r.value.Finite? ==>
      Denominator(bodyweightKg) != 0.0 && IsWhole(r.value.value * 100.0)
      && ExactScore(bodyweightKg, totalKg) - 0.005 < r.value.value <= ExactScore(bodyweightKg, totalKg) + 0.005
  {
    if bodyweightKg < MinBodyweightKg || bodyweightKg > AsWrittenMaxBodyweightKg then
      Err(BodyweightOutOfRange(bodyweightKg))
    else if totalKg <= 0.0 then
      Err(NonPositiveTotal(totalKg))
    else if Denominator(bodyweightKg) == 0.0 then
      Ok(NonFinite)
    else
      Ok(Finite(Round2(ExactScore(bodyweightKg, totalKg))))
  }

  /** A 300 kg lifter with a 300 kg total passes the as-written guard and gets a
      negative score (about -192.09). */
  lemma AsWrittenScoreNegative()
    ensures CalculateWilksScoreAsWritten(300.0, 300.0).Ok?
    ensures CalculateWilksScoreAsWritten(300.0, 300.0).value.Finite?
    ensures CalculateWilksScoreAsWritten(300.0, 300.0).value.value < 0.0
  {
    assert Denominator(300.0) < -780.0;
  }

  /** `calculateWilksScore` with the guard ending where the formula does: it throws
      for a bodyweight outside 40..201.9 kg (checked first) and for a non-positive
      total, and otherwise returns the score rounded to two decimals, which is never
      negative. */
  function CalculateWilksScore(bodyweightKg: real, totalKg: real): (r: Result<real, WilksError>)
    ensures r.Ok? <==> MinBodyweightKg <= bodyweightKg <= MaxBodyweightKg && totalKg > 0.0
    ensures r == Err(BodyweightOutOfRange(bodyweightKg))
        <==> bodyweightKg < MinBodyweightKg || bodyweightKg > MaxBodyweightKg
    ensures r == Err(NonPositiveTotal(totalKg))
        <==> MinBodyweightKg <= bodyweightKg <= MaxBodyweightKg && totalKg <= 0.0
    ensures r.Ok? ==>
      Denominator(bodyweightKg) > 0.0 && r.value >= 0.0 && IsWhole(r.value * 100.0)
      && ExactScore(bodyweightKg, totalKg) - 0.005 < r.value <= ExactScore(bodyweightKg, totalKg) + 0.005
  {
    if bodyweightKg < MinBodyweightKg || bodyweightKg > MaxBodyweightKg then
      Err(BodyweightOutOfRange(bodyweightKg))
    else if totalKg <= 0.0 then
      Err(NonPositiveTotal(totalKg))
    else
      DenominatorPositive(bodyweightKg);
      ExactScorePositive(bodyweightKg, totalKg);
      Ok(Round2(ExactScore(bodyweightKg, totalKg)))
  }

  lemma ExactScorePositive(bw: real, totalKg: real)
    requires Denominator(bw) > 0.0 && totalKg > 0.0
    ensures ExactScore(bw, totalKg) > 0.0
  {
    assert 500.0 / Denominator(bw) > 0.0;
  }

  /** Inside the men's formula range the corrected scorer and the as-written one agree. */
  lemma CorrectedAgreesWithinRange(bodyweightKg: real, totalKg: real)
    requires bodyweightKg <= MaxBodyweightKg
    ensures CalculateWilksScoreAsWritten(bodyweightKg, totalKg) ==
      match CalculateWilksScore(bodyweightKg, totalKg)
      case Ok(s) => Ok(Finite(s))
      case Err(e) => Err(e)
  {
    if MinBodyweightKg <= bodyweightKg && totalKg > 0.0 {
      DenominatorPositive(bodyweightKg);
    }
  }

  /** For a fixed bodyweight a larger total never scores lower. */
  lemma ScoreNonDecreasingInTotal(bodyweightKg: real, total1: real, total2: real)
    requires MinBodyweightKg <= bodyweightKg <= MaxBodyweightKg
    requires 0.0 < total1 <= total2
    ensures CalculateWilksScore(bodyweightKg, total1).Ok?
    ensures CalculateWilksScore(bodyweightKg, total1).value <= CalculateWilksScore(bodyweightKg, total2).value
  {
    DenominatorPositive(bodyweightKg);
    var k := 500.0 / Denominator(bodyweightKg);
    assert k > 0.0;
    MulMonotone(total1, total2, k, k);
    Round2Monotone(ExactScore(bodyweightKg, total1), ExactScore(bodyweightKg, total2));
  }

  // ---------------------------------------------------------------------------
  // estimateOneRepMax (Epley)
  // ---------------------------------------------------------------------------

  /** The Epley estimate `weight * (1 + reps / 30)`, before rounding. */
  function Epley(weightKg: real, reps: real): real {
    weightKg * (1.0 + reps / 30.0)
  }

  /** `estimateOneRepMax`: throws for reps outside (0, 30] (checked first) and for a
      non-positive weight; a single rep returns the weight unchanged; otherwise the
      Epley estimate rounded to one decimal. */
  function EstimateOneRepMax(weightKg: real, reps: real): (r: Result<real, WilksError>)
    ensures r.Ok? <==> 0.0 < reps <= 30.0 && weightKg > 0.0
    ensures r == Err(RepsOutOfRange(reps)) <==> reps <= 0.0 || reps > 30.0
    ensures r == Err(NonPositiveWeight(weightKg)) <==> 0.0 < reps <= 30.0 && weightKg <= 0.0
    ensures r.Ok? && reps == 1.0 ==> r.value == weightKg
    ensures r.Ok? && reps != 1.0 ==>
      IsWhole(r.value * 10.0) && Epley(weightKg, reps) - 0.05 < r.value <= Epley(weightKg, reps) + 0.05
    ensures r.Ok? ==> r.value >= 0.0
  {
    if reps <= 0.0 || reps > 30.0 then
      Err(RepsOutOfRange(reps))
    else if weightKg <= 0.0 then
      Err(NonPositiveWeight(weightKg))
    else if reps == 1.0 then
      Ok(weightKg)
    else
      assert Epley(weightKg, reps) > 0.0 by {
        MulMonotone(0.0, weightKg, 0.0, 1.0 + reps / 30.0);
        assert weightKg * (1.0 + reps / 30.0) >= weightKg;
      }
      Ok(Round1(Epley(weightKg, reps)))
  }

  /** The estimator's documented examples: 100 kg x 5 gives 116.7, 80 kg x 8 gives
      101.3, 120 kg x 1 gives 120, and reps of 0 or 31 or a weight of 0 throw. */
  lemma EpleyExamples()
    ensures EstimateOneRepMax(100.0, 5.0) == Ok(116.7)
    ensures EstimateOneRepMax(80.0, 8.0) == Ok(101.3)
    ensures EstimateOneRepMax(120.0, 1.0) == Ok(120.0)
    ensures EstimateOneRepMax(100.0, 0.0) == Err(RepsOutOfRange(0.0))
    ensures EstimateOneRepMax(100.0, 31.0) == Err(RepsOutOfRange(31.0))
    ensures EstimateOneRepMax(0.0, 5.0) == Err(NonPositiveWeight(0.0))
  {
    RoundUnique(Epley(100.0, 5.0) * 10.0, 1167);
    RoundUnique(Epley(80.0, 8.0) * 10.0, 1013);
  }

  // ---------------------------------------------------------------------------
  // RANK_TABLE
  // ---------------------------------------------------------------------------

  datatype Tier =
    | Bronze1 | Bronze2 | Bronze3
    | Silver1 | Silver2 | Silver3
    | Gold1 | Gold2 | Gold3
    | Platinum1 | Platinum2 | Platinum3
    | GymMaster | Powerlifter

  /** One tier: `[minWilks, maxWilks)`, with `None` for the unbounded top tier, and
      its display data (`label` is a keyword in Dafny, hence `labelEn`). */
  datatype RankInfo = RankInfo(
    tier: Tier, labelEn: string, labelJa: string,
    minWilks: real, maxWilks: Option<real>,
    color: string, glowColor: string, icon: string)

  const RankTable: seq<RankInfo> := [
    RankInfo(Bronze1, "Bronze I", "ブロンズ I", 0.0, Some(80.0), "#cd7f32", "rgba(205,127,50,0.5)", "🥉"),
    RankInfo(Bronze2, "Bronze II", "ブロンズ II", 80.0, Some(120.0), "#cd7f32", "rgba(205,127,50,0.5)", "🥉"),
    RankInfo(Bronze3, "Bronze III", "ブロンズ III", 120.0, Some(160.0), "#b87333", "rgba(184,115,51,0.5)", "🥉"),
    RankInfo(Silver1, "Silver I", "シルバー I", 160.0, Some(200.0), "#c0c0c0", "rgba(192,192,192,0.5)", "🥈"),
    RankInfo(Silver2, "Silver II", "シルバー II", 200.0, Some(230.0), "#c0c0c0", "rgba(192,192,192,0.5)", "🥈"),
    RankInfo(Silver3, "Silver III", "シルバー III", 230.0, Some(260.0), "#a8a9ad", "rgba(168,169,173,0.5)", "🥈"),
    RankInfo(Gold1, "Gold I", "ゴールド I", 260.0, Some(290.0), "#ffd700", "rgba(255,215,0,0.5)", "🥇"),
    RankInfo(Gold2, "Gold II", "ゴールド II", 290.0, Some(320.0), "#ffd700", "rgba(255,215,0,0.5)", "🥇"),
    RankInfo(Gold3, "Gold III", "ゴールド III", 320.0, Some(350.0), "#f0c000", "rgba(240,192,0,0.5)", "🥇"),
    RankInfo(Platinum1, "Platinum I", "プラチナ I", 350.0, Some(380.0), "#e5e4e2", "rgba(229,228,226,0.7)", "💎"),
    RankInfo(Platinum2, "Platinum II", "プラチナ II", 380.0, Some(410.0), "#e5e4e2", "rgba(229,228,226,0.7)", "💎"),
    RankInfo(Platinum3, "Platinum III", "プラチナ III", 410.0, Some(440.0), "#d0d0e8", "rgba(208,208,232,0.7)", "💎"),
    RankInfo(GymMaster, "Gym Master", "ジムの主", 440.0, Some(500.0), "#ff4500", "rgba(255,69,0,0.6)", "👑"),
    RankInfo(Powerlifter, "Powerlifter", "パワーリフター", 500.0, None, "#a855f7", "rgba(168,85,247,0.7)", "⚡")
  ]

  predicate AdjacentIncreasing(t: seq<RankInfo>) {
    forall i :: 0 <= i < |t| - 1 ==> t[i].minWilks < t[i + 1].minWilks
  }

  predicate Increasing(t: seq<RankInfo>) {
    forall i, j :: 0 <= i < j < |t| ==> t[i].minWilks < t[j].minWilks
  }

  /** Every tier but the last ends where the next one starts. */
  predicate Contiguous(t: seq<RankInfo>) {
    forall i :: 0 <= i < |t| - 1 ==> t[i].maxWilks == Some(t[i + 1].minWilks)
  }

  predicate OnlyTopUnbounded(t: seq<RankInfo>) {
    forall i :: 0 <= i < |t| ==> (t[i].maxWilks.None? <==> i == |t| - 1)
  }

  predicate DistinctTiers(t: seq<RankInfo>) {
    forall i, j :: 0 <= i < j < |t| ==> t[i].tier != t[j].tier
  }

  /** A table whose bands `[min, max)` start at 0 and cover `[0, infinity)` without
      gaps or overlaps. */
  predicate WellFormed(t: seq<RankInfo>) {
    |t| > 0 && t[0].minWilks == 0.0 && Increasing(t) && Contiguous(t) && OnlyTopUnbounded(t)
  }

  lemma {:induction false} AdjacentIncreasingIsIncreasing(t: seq<RankInfo>)
    requires AdjacentIncreasing(t)
    ensures Increasing(t)
  {
    if |t| > 1 {
      var u := t[1..];
      assert AdjacentIncreasing(u) by {
        forall i | 0 <= i < |u| - 1 ensures u[i].minWilks < u[i + 1].minWilks {
          assert u[i] == t[i + 1] && u[i + 1] == t[i + 2];
        }
      }
      AdjacentIncreasingIsIncreasing(u);
      forall i, j | 0 <= i < j < |t| ensures t[i].minWilks < t[j].minWilks {
        if i > 0 {
          assert t[i] == u[i - 1] && t[j] == u[j - 1];
        } else if j > 1 {
          assert t[1] == u[0] && t[j] == u[j - 1];
        }
      }
    }
  }

  /** The table has 14 rows, starts at 0 and ends with the unbounded top tier. */
  lemma RankTableShape()
    ensures |RankTable| == 14 && RankTable[0].minWilks == 0.0
    ensures AdjacentIncreasing(RankTable)
    ensures RankTable[|RankTable| - 1].tier == Powerlifter
  {
  }

  /** Every band of the table ends where the next one starts. */
  lemma RankTableContiguous()
    ensures Contiguous(RankTable)
  {
  }

  /** Only the last row of the table has no upper bound. */
  lemma RankTableOnlyTopUnbounded()
    ensures OnlyTopUnbounded(RankTable)
  {
  }

  /** ... so its lower bounds are strictly increasing and it is well formed. */
  lemma RankTableWellFormed()
    ensures |RankTable| == 14 && WellFormed(RankTable)
  {
    RankTableShape();
    RankTableContiguous();
    RankTableOnlyTopUnbounded();
    AdjacentIncreasingIsIncreasing(RankTable);
  }

  function TierOrdinal(tier: Tier): nat {
    match tier
    case Bronze1 => 0 case Bronze2 => 1 case Bronze3 => 2
    case Silver1 => 3 case Silver2 => 4 case Silver3 => 5
    case Gold1 => 6 case Gold2 => 7 case Gold3 => 8
    case Platinum1 => 9 case Platinum2 => 10 case Platinum3 => 11
    case GymMaster => 12 case Powerlifter => 13
  }

  /** Each tier occurs in exactly one row: the one at its ordinal. */
  lemma RankTableDistinctTiers()
    ensures DistinctTiers(RankTable)
  {
    assert forall i :: 0 <= i < |RankTable| ==> TierOrdinal(RankTable[i].tier) == i;
  }

  // ---------------------------------------------------------------------------
  // getRankByWilks
  // ---------------------------------------------------------------------------

  /** The number of rows whose lower bound is at most `s`. */
  function CountAtMost(t: seq<RankInfo>, s: real): (n: nat)
    ensures n <= |t|
  {
    if |t| == 0 then 0
    else CountAtMost(t[..|t| - 1], s) + (if t[|t| - 1].minWilks <= s then 1 else 0)
  }

  /** In a table with increasing lower bounds, the rows reached by `s` form a prefix. */
  lemma {:induction false} CountAtMostIsPrefix(t: seq<RankInfo>, s: real)
    requires Increasing(t)
    ensures forall i :: 0 <= i < |t| ==> (t[i].minWilks <= s <==> i < CountAtMost(t, s))
  {
    if |t| > 0 {
      var u := t[..|t| - 1];
      assert Increasing(u);
      CountAtMostIsPrefix(u, s);
      assert forall i :: 0 <= i < |u| ==> u[i] == t[i];
    }
  }

  /** The reference definition of the current tier: the last row reached by `s`,
      or row 0 when no row is reached. */
  function RankIndexIn(t: seq<RankInfo>, s: real): (i: nat)
    requires |t| > 0
    ensures i < |t|
  {
    var n := CountAtMost(t, s);
    if n == 0 then 0 else n - 1
  }

  function RankIndex(wilksScore: real): (i: nat)
    ensures i < |RankTable|
  {
    RankIndexIn(RankTable, wilksScore)
  }

  /** A row reached by `s` with no higher row reached is the current one. */
  lemma RankIndexOfHighestReached(t: seq<RankInfo>, s: real, i: nat)
    requires Increasing(t) && i < |t|
    requires t[i].minWilks <= s
    requires forall j :: i < j < |t| ==> s < t[j].minWilks
    ensures RankIndexIn(t, s) == i
  {
    CountAtMostIsPrefix(t, s);
    if i + 1 < |t| {
      assert !(t[i + 1].minWilks <= s);
    }
  }

  /** When no row is reached the lookup falls back to row 0. */
  lemma RankIndexOfNoneReached(t: seq<RankInfo>, s: real)
    requires Increasing(t) && |t| > 0
    requires forall j :: 0 <= j < |t| ==> s < t[j].minWilks
    ensures RankIndexIn(t, s) == 0
  {
    CountAtMostIsPrefix(t, s);
    assert !(t[0].minWilks <= s);
  }

  /** The current tier is the highest-index row with `minWilks <= s` (row 0 when
      `s < 0`), and for `s >= 0` its band contains `s`. */
  lemma RankIndexInBand(t: seq<RankInfo>, s: real)
    requires WellFormed(t)
    ensures var i := RankIndexIn(t, s);
      && (s >= 0.0 ==> t[i].minWilks <= s)
      && (s < 0.0 ==> i == 0)
      && (forall j :: i < j < |t| ==> s < t[j].minWilks)
      && (s >= 0.0 ==> t[i].maxWilks.None? || s < t[i].maxWilks.value)
  {
    CountAtMostIsPrefix(t, s);
    var i := RankIndexIn(t, s);
    if s >= 0.0 {
      assert t[0].minWilks <= s;
      if i < |t| - 1 {
        assert !(t[i + 1].minWilks <= s);
      }
    }
  }

  /** A score equal to a row's lower bound lands in that row. */
  lemma RankIndexAtBoundary(t: seq<RankInfo>, k: nat)
    requires WellFormed(t) && k < |t|
    ensures RankIndexIn(t, t[k].minWilks) == k
  {
    RankIndexOfHighestReached(t, t[k].minWilks, k);
  }

  /** `getRankByWilks`: scans the table from the top row down and returns the first
      row whose lower bound the score reaches, or row 0. */
  method GetRankByWilks(wilksScore: real) returns (rank: RankInfo)
    ensures rank == RankTable[RankIndex(wilksScore)]
    ensures wilksScore < 0.0 ==> rank == RankTable[0]
    ensures wilksScore >= 0.0 ==>
      rank.minWilks <= wilksScore && (rank.maxWilks.None? || wilksScore < rank.maxWilks.value)
  {
    RankTableWellFormed();
    RankIndexInBand(RankTable, wilksScore);
    var i := |RankTable| - 1;
    while i >= 0
      invariant -1 <= i < |RankTable|
      invariant forall j :: i < j < |RankTable| ==> wilksScore < RankTable[j].minWilks
    {
      if wilksScore >= RankTable[i].minWilks {
        RankIndexOfHighestReached(RankTable, wilksScore, i);
        return RankTable[i];
      }
      i := i - 1;
    }
    RankIndexOfNoneReached(RankTable, wilksScore);
    return RankTable[0];
  }

  /** The documented boundary table: each lower bound 0, 80, ..., 500 maps to its own
      tier, 50 to Bronze I and 999 to Powerlifter. */
  lemma BoundaryScores()
    ensures forall k :: 0 <= k < |RankTable| ==> RankIndex(RankTable[k].minWilks) == k
    ensures RankTable[RankIndex(50.0)].tier == Bronze1
    ensures RankTable[RankIndex(160.0)].tier == Silver1
    ensures RankTable[RankIndex(440.0)].tier == GymMaster
    ensures RankTable[RankIndex(999.0)].tier == Powerlifter
  {
    RankTableWellFormed();
    forall k | 0 <= k < |RankTable| ensures RankIndex(RankTable[k].minWilks) == k {
      RankIndexAtBoundary(RankTable, k);
    }
    RankIndexAtBoundary(RankTable, 3);
    RankIndexAtBoundary(RankTable, 12);
    RankIndexOfHighestReached(RankTable, 50.0, 0);
    RankIndexOfHighestReached(RankTable, 999.0, 13);
  }

  // ---------------------------------------------------------------------------
  // getRankProgress
  // ---------------------------------------------------------------------------

  datatype RankProgress = RankProgress(
    currentRank: RankInfo, nextRank: Option<RankInfo>,
    progressPercent: real, pointsToNext: real)

  /** `RANK_TABLE.findIndex(r => r.tier === tier)`: the first row of that tier, or -1. */
  function FindTierIndex(t: seq<RankInfo>, tier: Tier): int {
    FindIndex(t, (r: RankInfo) => r.tier == tier)
  }

  /** Looking a row's tier up again finds that row when every tier occurs once. */
  lemma FindTierIndexOfRow(t: seq<RankInfo>, i: nat)
    requires DistinctTiers(t) && i < |t|
    ensures FindTierIndex(t, t[i].tier) == i
  {
  }

  lemma Round1Percent(x: real)
    requires 0.0 <= x <= 100.0
    ensures 0.0 <= Round1(x) <= 100.0
  {
    var n := Round(x * 10.0);
    assert 0 <= n <= 1000;
  }

  lemma Round2NonNegative(x: real)
    requires 0.0 <= x
    ensures 0.0 <= Round2(x)
  {
    var n := Round(x * 100.0);
    assert 0 <= n;
  }

  /** `getRankProgress` over any well-formed table with one row per tier. */
  function RankProgressIn(t: seq<RankInfo>, wilksScore: real): (p: RankProgress)
    requires WellFormed(t) && DistinctTiers(t)
    ensures p.currentRank == t[RankIndexIn(t, wilksScore)]
    ensures p.nextRank.None? <==> RankIndexIn(t, wilksScore) == |t| - 1
    ensures p.nextRank.Some? ==> p.nextRank.value == t[RankIndexIn(t, wilksScore) + 1]
    ensures p.nextRank.None? ==> p.progressPercent == 100.0 && p.pointsToNext == 0.0
    ensures 0.0 <= p.progressPercent <= 100.0
    ensures p.pointsToNext >= 0.0
    ensures p.nextRank.Some? ==>
      var gap := Max(0.0, p.nextRank.value.minWilks - wilksScore);
      gap - 0.005 < p.pointsToNext <= gap + 0.005
  {
    var currentRank := t[RankIndexIn(t, wilksScore)];   // getRankByWilks
    FindTierIndexOfRow(t, RankIndexIn(t, wilksScore));
    var currentIndex := FindTierIndex(t, currentRank.tier);
    var nextRank := if currentIndex < |t| - 1 then Some(t[currentIndex + 1]) else None;
    if nextRank.None? || currentRank.maxWilks.None? then
      RankProgress(currentRank, None, 100.0, 0.0)
    else
      assert currentRank.maxWilks.value == t[currentIndex + 1].minWilks > currentRank.minWilks;
      var rangeSize := currentRank.maxWilks.value - currentRank.minWilks;
      var gained := wilksScore - currentRank.minWilks;
      var progressPercent := Min(100.0, Max(0.0, (gained / rangeSize) * 100.0));
      var pointsToNext := Max(0.0, currentRank.maxWilks.value - wilksScore);
      Round1Percent(progressPercent);
      Round2NonNegative(pointsToNext);
      RankProgress(currentRank, nextRank, Round1(progressPercent), Round2(pointsToNext))
  }

  /** `getRankProgress`: the current tier, the next one, the percentage of the
      current band covered (clamped to [0, 100], one decimal) and the points still
      missing (at least 0, two decimals); the top tier reports no next tier, 100 %
      and 0 points. */
  function GetRankProgress(wilksScore: real): (p: RankProgress)
    ensures p.currentRank == RankTable[RankIndex(wilksScore)]
    ensures p.nextRank.None? <==> RankIndex(wilksScore) == |RankTable| - 1
    ensures p.nextRank.Some? ==> p.nextRank.value == RankTable[RankIndex(wilksScore) + 1]
    ensures p.nextRank.None? ==> p.progressPercent == 100.0 && p.pointsToNext == 0.0
    ensures 0.0 <= p.progressPercent <= 100.0
    ensures p.pointsToNext >= 0.0
    ensures p.nextRank.Some? ==>
      var gap := Max(0.0, p.nextRank.value.minWilks - wilksScore);
      gap - 0.005 < p.pointsToNext <= gap + 0.005
  {
    RankTableWellFormed();
    RankTableDistinctTiers();
    RankProgressIn(RankTable, wilksScore)
  }

  /** Below the top tier the percentage is the covered share of the current band and
      the points are the distance to the next band, both rounded. */
  lemma RankProgressInMiddle(t: seq<RankInfo>, wilksScore: real, i: nat)
    requires WellFormed(t) && DistinctTiers(t)
    requires i + 1 < |t| && RankIndexIn(t, wilksScore) == i
    ensures RankProgressIn(t, wilksScore).progressPercent ==
      Round1(Min(100.0, Max(0.0, (wilksScore - t[i].minWilks) / (t[i + 1].minWilks - t[i].minWilks) * 100.0)))
    ensures RankProgressIn(t, wilksScore).pointsToNext == Round2(Max(0.0, t[i + 1].minWilks - wilksScore))
  {
    FindTierIndexOfRow(t, i);
  }

  /** Score 40 is half-way through Bronze I with 40 points to Bronze II. */
  lemma ProgressExampleBronze()
    ensures GetRankProgress(40.0).currentRank == RankTable[0]
    ensures GetRankProgress(40.0).nextRank == Some(RankTable[1])
    ensures GetRankProgress(40.0).progressPercent == 50.0
    ensures GetRankProgress(40.0).pointsToNext == 40.0
  {
    RankTableWellFormed();
    RankTableDistinctTiers();
    HalfOfFirstBand(RankTable);
  }

  /** In a table whose first band is [0, 80), score 40 is half-way with 40 points
      still missing. */
  lemma HalfOfFirstBand(t: seq<RankInfo>)
    requires WellFormed(t) && DistinctTiers(t) && |t| >= 2
    requires t[0].minWilks == 0.0 && t[1].minWilks == 80.0
    ensures RankProgressIn(t, 40.0).currentRank == t[0]
    ensures RankProgressIn(t, 40.0).nextRank == Some(t[1])
    ensures RankProgressIn(t, 40.0).progressPercent == 50.0
    ensures RankProgressIn(t, 40.0).pointsToNext == 40.0
  {
    assert forall j :: 1 < j < |t| ==> t[1].minWilks < t[j].minWilks;
    RankIndexOfHighestReached(t, 40.0, 0);
    RankProgressInMiddle(t, 40.0, 0);
    assert (40.0 - t[0].minWilks) / (t[1].minWilks - t[0].minWilks) * 100.0 == 50.0;
    Round1Fixed(50.0);
    Round2Fixed(40.0);
  }

  /** The top tier (score 600) has no next tier, 100 % and 0 points. */
  lemma ProgressExampleTop()
    ensures GetRankProgress(600.0).nextRank.None?
    ensures GetRankProgress(600.0).progressPercent == 100.0
    ensures GetRankProgress(600.0).pointsToNext == 0.0
  {
    RankTableWellFormed();
    RankIndexOfHighestReached(RankTable, 600.0, 13);
  }
}
