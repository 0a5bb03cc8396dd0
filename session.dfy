/** The training-session logic of app/page.tsx: the menu template and the default
    session built from it, the in-session edits of the training tab as
    session-to-session transforms, and the `finish` rule (the next template and the
    automatic one-rep-max update). */
module Session {
  import opened Common
  import opened JsMath
  import Wilks
  import opened Storage

  // ---------------------------------------------------------------------------
  // Menu template and default session
  // ---------------------------------------------------------------------------

  datatype MenuTemplateItem = MenuTemplateItem(exercise: string, sets: nat, reps: real, weightKg: real)

  const DefaultMenu: seq<MenuTemplateItem> := [
    MenuTemplateItem("ベンチプレス", 4, 5.0, 85.0),
    MenuTemplateItem("スクワット", 3, 8.0, 110.0),
    MenuTemplateItem("インクラインダンベルプレス", 3, 10.0, 32.0)
  ]

  /** One menu item as an exercise: `sets` identical, not yet completed sets. */
  function ExerciseOf(item: MenuTemplateItem): ExerciseRecord {
    ExerciseRecord(item.exercise, seq(item.sets, _ => SetRecord(item.weightKg, item.reps, false)))
  }

  /** A fresh, unfinished session for `date` with one exercise per menu item, in
      menu order, each with the item's number of sets at its load; `id` and `date`
      stand for `genId()` and `todayStr()`. */
  function MakeDefaultSession(id: string, date: string, menu: seq<MenuTemplateItem>): (s: TrainingSession)
    ensures s.id == id && s.date == date && !s.completed && s.savedAt.None?
    ensures |s.exercises| == |menu|
    ensures forall i :: 0 <= i < |menu| ==>
      s.exercises[i].name == menu[i].exercise && |s.exercises[i].sets| == menu[i].sets
    ensures forall i, j :: 0 <= i < |menu| && 0 <= j < |s.exercises[i].sets| ==>
      s.exercises[i].sets[j] == SetRecord(menu[i].weightKg, menu[i].reps, false)
  {
    TrainingSession(id, date, seq(|menu|, i requires 0 <= i < |menu| => ExerciseOf(menu[i])), false, None)
  }

  /** The template `finish` derives from one exercise: its name, its number of sets
      and the first set's reps and weight, or 8 reps at 60 kg when it has no sets. */
  function TemplateOf(ex: ExerciseRecord): MenuTemplateItem {
    if |ex.sets| == 0 then MenuTemplateItem(ex.name, 0, 8.0, 60.0)
    else MenuTemplateItem(ex.name, |ex.sets|, ex.sets[0].reps, ex.sets[0].weight)
  }

  function DeriveTemplate(exercises: seq<ExerciseRecord>): (t: seq<MenuTemplateItem>)
    ensures |t| == |exercises|
    ensures forall i :: 0 <= i < |t| ==>
      t[i].exercise == exercises[i].name && t[i].sets == |exercises[i].sets|
    ensures forall i :: 0 <= i < |t| ==>
      t[i].reps == (if |exercises[i].sets| == 0 then 8.0 else exercises[i].sets[0].reps) &&
      t[i].weightKg == (if |exercises[i].sets| == 0 then 60.0 else exercises[i].sets[0].weight)
  {
    seq(|exercises|, i requires 0 <= i < |exercises| => TemplateOf(exercises[i]))
  }

  /** A template with at least one set per item survives the trip through a default
      session and back unchanged. */
  lemma TemplateRoundTrip(id: string, date: string, menu: seq<MenuTemplateItem>)
    requires forall i :: 0 <= i < |menu| ==> menu[i].sets > 0
    ensures DeriveTemplate(MakeDefaultSession(id, date, menu).exercises) == menu
  {
    var t := DeriveTemplate(MakeDefaultSession(id, date, menu).exercises);
    forall i | 0 <= i < |menu| ensures t[i] == menu[i] {
      assert MakeDefaultSession(id, date, menu).exercises[i].sets[0]
        == SetRecord(menu[i].weightKg, menu[i].reps, false);
    }
  }

  /** The next default session repeats every exercise with the same number of sets,
      each at the first set's load and not completed. */
  lemma NextSessionRepeatsFirstSet(id: string, date: string, exercises: seq<ExerciseRecord>)
    ensures var next := MakeDefaultSession(id, date, DeriveTemplate(exercises)).exercises;
      |next| == |exercises| &&
      forall i :: 0 <= i < |exercises| ==>
        next[i].name == exercises[i].name && |next[i].sets| == |exercises[i].sets| &&
        forall j :: 0 <= j < |exercises[i].sets| ==>
          next[i].sets[j] == SetRecord(exercises[i].sets[0].weight, exercises[i].sets[0].reps, false)
  {
  }

  // ---------------------------------------------------------------------------
  // In-session edits
  // ---------------------------------------------------------------------------

  /** `xs.map((x, j) => j === i ? f(x) : x)`. */
  function MapAt<X>(xs: seq<X>, i: int, f: X -> X): (r: seq<X>)
    ensures |r| == |xs|
  {
    seq(|xs|, j requires 0 <= j < |xs| => if j == i then f(xs[j]) else xs[j])
  }

  /** `xs.filter((_, j) => j !== i)`. */
  function RemoveAt<X>(xs: seq<X>, i: int): (r: seq<X>)
    ensures 0 <= i < |xs| ==> |r| == |xs| - 1
    ensures !(0 <= i < |xs|) ==> r == xs
    ensures forall j :: 0 <= j < |r| ==> r[j] == if 0 <= i <= j then xs[j + 1] else xs[j]
  {
    if 0 <= i < |xs| then xs[..i] + xs[i + 1..] else xs
  }

  /** Sessions `a` and `b` differ at most in set `si` of exercise `ei`. */
  ghost predicate SameExceptSet(a: TrainingSession, b: TrainingSession, ei: int, si: int) {
    a == b.(exercises := a.exercises) && |a.exercises| == |b.exercises| &&
    forall i :: 0 <= i < |a.exercises| ==>
      a.exercises[i].name == b.exercises[i].name &&
      |a.exercises[i].sets| == |b.exercises[i].sets| &&
      forall j :: 0 <= j < |a.exercises[i].sets| && (i, j) != (ei, si) ==>
        a.exercises[i].sets[j] == b.exercises[i].sets[j]
  }

  /** Both indices name an existing set. */
  predicate HasSet(s: TrainingSession, ei: int, si: int) {
    0 <= ei < |s.exercises| && 0 <= si < |s.exercises[ei].sets|
  }

  function ToggleSet(s: TrainingSession, ei: int, si: int): (r: TrainingSession)
    ensures r == s.(exercises := r.exercises)
  {
    if s.completed then s
    else s.(exercises := MapAt(s.exercises, ei,
      (ex: ExerciseRecord) => ex.(sets := MapAt(ex.sets, si, (st: SetRecord) => st.(completed := !st.completed)))))
  }

  /** `toggleSet` does nothing to a finished session; otherwise it flips the
      `completed` flag of exactly the named set and nothing else. */
  lemma ToggleSetFlipsOne(s: TrainingSession, ei: int, si: int)
    ensures s.completed ==> ToggleSet(s, ei, si) == s
    ensures SameExceptSet(ToggleSet(s, ei, si), s, ei, si)
    ensures !s.completed && HasSet(s, ei, si) ==>
      ToggleSet(s, ei, si).exercises[ei].sets[si] ==
        s.exercises[ei].sets[si].(completed := !s.exercises[ei].sets[si].completed)
    ensures !HasSet(s, ei, si) ==> ToggleSet(s, ei, si) == s
  {
    var r := ToggleSet(s, ei, si);
    if !s.completed && !HasSet(s, ei, si) {
      assert r.exercises == s.exercises by {
        forall i | 0 <= i < |s.exercises| ensures r.exercises[i] == s.exercises[i] {
          if i == ei {
            assert r.exercises[i].sets == s.exercises[i].sets;
          }
        }
      }
    }
  }

  /** Toggling the same set twice restores the session. */
  lemma ToggleSetInvolution(s: TrainingSession, ei: int, si: int)
    ensures ToggleSet(ToggleSet(s, ei, si), ei, si) == s
  {
    var r := ToggleSet(ToggleSet(s, ei, si), ei, si);
    if !s.completed {
      assert r.exercises == s.exercises by {
        forall i | 0 <= i < |s.exercises| ensures r.exercises[i] == s.exercises[i] {
          if i == ei {
            assert r.exercises[i].sets == s.exercises[i].sets;
          }
        }
      }
    }
  }

  /** The set `addSet` appends: a copy of the last set's weight and reps, or 60 kg
      for 5 reps when there is none, not completed. */
  function NextSet(sets: seq<SetRecord>): (st: SetRecord)
    ensures !st.completed
  {
    if |sets| == 0 then SetRecord(60.0, 5.0, false)
    else SetRecord(sets[|sets| - 1].weight, sets[|sets| - 1].reps, false)
  }

  function AddSet(s: TrainingSession, ei: int): (r: TrainingSession)
    ensures r == s.(exercises := r.exercises)
  {
    s.(exercises := MapAt(s.exercises, ei, (ex: ExerciseRecord) => ex.(sets := ex.sets + [NextSet(ex.sets)])))
  }

  function RemoveSet(s: TrainingSession, ei: int, si: int): (r: TrainingSession)
    ensures r == s.(exercises := r.exercises)
  {
    s.(exercises := MapAt(s.exercises, ei, (ex: ExerciseRecord) => ex.(sets := RemoveAt(ex.sets, si))))
  }

  /** `addSet` appends one set to exercise `ei` and leaves every other exercise as
      it was; `ei` out of range changes nothing. */
  lemma AddSetAppends(s: TrainingSession, ei: int)
    ensures |AddSet(s, ei).exercises| == |s.exercises|
    ensures forall i :: 0 <= i < |s.exercises| && i != ei ==> AddSet(s, ei).exercises[i] == s.exercises[i]
    ensures 0 <= ei < |s.exercises| ==>
      AddSet(s, ei).exercises[ei] ==
        s.exercises[ei].(sets := s.exercises[ei].sets + [NextSet(s.exercises[ei].sets)])
    ensures !(0 <= ei < |s.exercises|) ==> AddSet(s, ei) == s
  {
    if !(0 <= ei < |s.exercises|) {
      assert AddSet(s, ei).exercises == s.exercises;
    }
  }

  /** `removeSet` deletes exactly set `si` of exercise `ei`; out-of-range indices
      change nothing. */
  lemma RemoveSetDeletes(s: TrainingSession, ei: int, si: int)
    ensures |RemoveSet(s, ei, si).exercises| == |s.exercises|
    ensures forall i :: 0 <= i < |s.exercises| && i != ei ==> RemoveSet(s, ei, si).exercises[i] == s.exercises[i]
    ensures HasSet(s, ei, si) ==>
      RemoveSet(s, ei, si).exercises[ei].sets ==
        s.exercises[ei].sets[..si] + s.exercises[ei].sets[si + 1..]
    ensures !HasSet(s, ei, si) ==> RemoveSet(s, ei, si) == s
  {
    if !HasSet(s, ei, si) {
      var r := RemoveSet(s, ei, si);
      assert r.exercises == s.exercises by {
        forall i | 0 <= i < |s.exercises| ensures r.exercises[i] == s.exercises[i] {
          if i == ei {
            assert r.exercises[i].sets == s.exercises[i].sets;
          }
        }
      }
    }
  }

  /** Removing the set just added restores the session. */
  lemma RemoveSetUndoesAddSet(s: TrainingSession, ei: int)
    requires 0 <= ei < |s.exercises|
    ensures RemoveSet(AddSet(s, ei), ei, |s.exercises[ei].sets|) == s
  {
    var a := AddSet(s, ei);
    var r := RemoveSet(a, ei, |s.exercises[ei].sets|);
    assert r.exercises == s.exercises by {
      forall i | 0 <= i < |s.exercises| ensures r.exercises[i] == s.exercises[i] {
        if i == ei {
          var sets := s.exercises[ei].sets;
          assert a.exercises[ei].sets == sets + [NextSet(sets)];
          assert r.exercises[i].sets == (sets + [NextSet(sets)])[..|sets|];
          assert (sets + [NextSet(sets)])[..|sets|] == sets;
        }
      }
    }
  }

  datatype SetField = Weight | Reps

  function FieldOf(st: SetRecord, field: SetField): real {
    match field
    case Weight => st.weight
    case Reps => st.reps
  }

  /** `updateSet`: `parsed` is the result of `parseFloat` on the typed text, `None`
      for NaN. A missing or negative value is ignored. */
  function UpdateSet(s: TrainingSession, ei: int, si: int, field: SetField, parsed: Option<real>): (r: TrainingSession)
    ensures r == s.(exercises := r.exercises)
  {
    if parsed.None? || parsed.value < 0.0 then s
    else
      var v := parsed.value;
      s.(exercises := MapAt(s.exercises, ei, (ex: ExerciseRecord) => ex.(sets := MapAt(ex.sets, si,
        (st: SetRecord) => match field case Weight => st.(weight := v) case Reps => st.(reps := v)))))
  }

  /** A rejected value changes nothing; an accepted one becomes the named field of
      the named set, whose other field and flag stay as they were, and nothing
      else changes. */
  lemma UpdateSetWrites(s: TrainingSession, ei: int, si: int, field: SetField, parsed: Option<real>)
    ensures parsed.None? || parsed.value < 0.0 ==> UpdateSet(s, ei, si, field, parsed) == s
    ensures SameExceptSet(UpdateSet(s, ei, si, field, parsed), s, ei, si)
    ensures parsed.Some? && parsed.value >= 0.0 && HasSet(s, ei, si) ==>
      var old_ := s.exercises[ei].sets[si];
      var new_ := UpdateSet(s, ei, si, field, parsed).exercises[ei].sets[si];
      FieldOf(new_, field) == parsed.value && new_.completed == old_.completed &&
      (field == Weight ==> new_.reps == old_.reps) && (field == Reps ==> new_.weight == old_.weight)
  {
  }

  function RenameExercise(s: TrainingSession, ei: int, name: string): (r: TrainingSession)
    ensures r == s.(exercises := r.exercises)
  {
    s.(exercises := MapAt(s.exercises, ei, (ex: ExerciseRecord) => ex.(name := name)))
  }

  /** `renameExercise` changes only the name of exercise `ei`, and renaming it back
      restores the session; an index outside the list changes nothing. */
  lemma RenameExerciseOnlyName(s: TrainingSession, ei: int, name: string)
    ensures |RenameExercise(s, ei, name).exercises| == |s.exercises|
    ensures 0 <= ei < |s.exercises| ==> RenameExercise(s, ei, name).exercises[ei] == s.exercises[ei].(name := name)
    ensures forall i :: 0 <= i < |s.exercises| && i != ei ==> RenameExercise(s, ei, name).exercises[i] == s.exercises[i]
    ensures 0 <= ei < |s.exercises| ==> RenameExercise(RenameExercise(s, ei, name), ei, s.exercises[ei].name) == s
    ensures !(0 <= ei < |s.exercises|) ==> RenameExercise(s, ei, name) == s
  {
    if 0 <= ei < |s.exercises| {
      var r := RenameExercise(RenameExercise(s, ei, name), ei, s.exercises[ei].name);
      assert r.exercises == s.exercises;
    } else {
      assert RenameExercise(s, ei, name).exercises == s.exercises;
    }
  }

  /** The exercise `addExercise` appends. */
  const NewExercise := ExerciseRecord("新しい種目", [SetRecord(60.0, 8.0, false)])

  function AddExercise(s: TrainingSession): (r: TrainingSession)
    ensures r == s.(exercises := r.exercises)
    ensures |r.exercises| == |s.exercises| + 1
    ensures r.exercises[..|s.exercises|] == s.exercises && r.exercises[|s.exercises|] == NewExercise
  {
    s.(exercises := s.exercises + [NewExercise])
  }

  function RemoveExercise(s: TrainingSession, ei: int): (r: TrainingSession)
    ensures r == s.(exercises := r.exercises)
  {
    s.(exercises := RemoveAt(s.exercises, ei))
  }

  /** `removeExercise` deletes exactly exercise `ei`, keeping the order of the
      rest; an out-of-range index changes nothing. */
  lemma RemoveExerciseDeletes(s: TrainingSession, ei: int)
    ensures 0 <= ei < |s.exercises| ==>
      RemoveExercise(s, ei).exercises == s.exercises[..ei] + s.exercises[ei + 1..]
    ensures !(0 <= ei < |s.exercises|) ==> RemoveExercise(s, ei) == s
  {
  }

  /** Removing the exercise just added restores the session. */
  lemma RemoveExerciseUndoesAddExercise(s: TrainingSession)
    ensures RemoveExercise(AddExercise(s), |s.exercises|) == s
  {
    assert (s.exercises + [NewExercise])[..|s.exercises|] == s.exercises;
  }

  // ---------------------------------------------------------------------------
  // finish(): the finished session
  // ---------------------------------------------------------------------------

  /** `{ ...session, completed: true, savedAt }`, `savedAt` standing for the clock. */
  function FinishSession(s: TrainingSession, savedAt: string): (r: TrainingSession)
    ensures r.completed && r.savedAt == Some(savedAt)
    ensures r.id == s.id && r.date == s.date && r.exercises == s.exercises
  {
    s.(completed := true, savedAt := Some(savedAt))
  }

  /** Once finished, a session no longer reacts to `toggleSet`. */
  lemma FinishedSessionIgnoresToggle(s: TrainingSession, savedAt: string, ei: int, si: int)
    ensures ToggleSet(FinishSession(s, savedAt), ei, si) == FinishSession(s, savedAt)
  {
  }

  // ---------------------------------------------------------------------------
  // finish(): the one-rep-max update
  // ---------------------------------------------------------------------------

  datatype Lift = Bench | Squat | Deadlift

  /** `BIG3_MAP`: the exercise names that feed a profile one-rep max. */
  const Big3Map: map<string, Lift> := map["ベンチプレス" := Bench, "スクワット" := Squat, "デッドリフト" := Deadlift]

  function Big3Lift(name: string): (l: Option<Lift>)
    ensures l.Some? <==> name in Big3Map
    ensures l.Some? ==> Big3Map[name] == l.value
  {
    if name in Big3Map then Some(Big3Map[name]) else None
  }

  function OneRepMaxOf(p: UserProfile, lift: Lift): real {
    match lift
    case Bench => p.bench1RM
    case Squat => p.squat1RM
    case Deadlift => p.deadlift1RM
  }

  function WithOneRepMax(p: UserProfile, lift: Lift, v: real): (r: UserProfile)
    ensures OneRepMaxOf(r, lift) == v
    ensures forall other :: other != lift ==> OneRepMaxOf(r, other) == OneRepMaxOf(p, other)
    ensures r.name == p.name && r.bodyweightKg == p.bodyweightKg && r.trainingDays == p.trainingDays
  {
    match lift
    case Bench => p.(bench1RM := v)
    case Squat => p.(squat1RM := v)
    case Deadlift => p.(deadlift1RM := v)
  }

  /** The filter in front of the reduction: completed, positive weight, 1..30 reps. */
  predicate Qualifies(st: SetRecord) {
    st.completed && st.weight > 0.0 && st.reps >= 1.0 && st.reps <= 30.0
  }

  /** The sets the filter lets through never make the estimator throw. */
  lemma QualifiedSetEstimates(st: SetRecord)
    requires Qualifies(st)
    ensures Wilks.EstimateOneRepMax(st.weight, st.reps).Ok?
  {
  }

  function Estimate(st: SetRecord): real
    requires Qualifies(st)
  {
    QualifiedSetEstimates(st);
    Wilks.EstimateOneRepMax(st.weight, st.reps).value
  }

  /** One step of the reduction; a throwing estimate would keep the maximum. */
  function ReduceStep(max: real, st: SetRecord): real {
    match Wilks.EstimateOneRepMax(st.weight, st.reps)
    case Ok(est) => if est > max then est else max
    case Err(_) => max
  }

  /** The left-to-right reduction over the qualifying sets, starting from `acc`: the
      largest estimate, or `acc` when it is larger. */
  function BestFrom(sets: seq<SetRecord>, acc: real): (b: real)
    ensures b >= acc
    ensures forall j :: 0 <= j < |sets| && Qualifies(sets[j]) ==> b >= Estimate(sets[j])
    ensures b == acc || exists j :: 0 <= j < |sets| && Qualifies(sets[j]) && b == Estimate(sets[j])
  {
    if |sets| == 0 then acc
    else
      var acc' := if Qualifies(sets[0]) then ReduceStep(acc, sets[0]) else acc;
      var b := BestFrom(sets[1..], acc');
      assert forall j :: 0 < j < |sets| ==> sets[j] == sets[1..][j - 1];
      assert b == acc' || exists j :: 0 < j < |sets| && Qualifies(sets[j]) && b == Estimate(sets[j]);
      b
  }

  /** `best`: the reduction started at 0. */
  function Best(sets: seq<SetRecord>): (b: real)
    ensures b >= 0.0
  {
    BestFrom(sets, 0.0)
  }

  /** The largest `best` among the exercises mapped to `lift`, `None` when there is
      no such exercise (see LiftBestIsMaximum). */
  function LiftBest(exercises: seq<ExerciseRecord>, lift: Lift): Option<real> {
    if |exercises| == 0 then None
    else
      var m := LiftBest(exercises[..|exercises| - 1], lift);
      var last := exercises[|exercises| - 1];
      if Big3Lift(last.name) != Some(lift) then m
      else if m.Some? && m.value >= Best(last.sets) then m
      else Some(Best(last.sets))
  }

  /** LiftBest is `None` exactly when no exercise maps to `lift`, and otherwise the
      `best` of one such exercise and at least that of every other. */
  lemma {:induction false} LiftBestIsMaximum(exercises: seq<ExerciseRecord>, lift: Lift)
    ensures var m := LiftBest(exercises, lift);
      (m.None? <==> forall i :: 0 <= i < |exercises| ==> Big3Lift(exercises[i].name) != Some(lift)) &&
      (m.Some? ==> forall i :: 0 <= i < |exercises| && Big3Lift(exercises[i].name) == Some(lift) ==>
        Best(exercises[i].sets) <= m.value) &&
      (m.Some? ==> exists i :: (0 <= i < |exercises| && Big3Lift(exercises[i].name) == Some(lift) &&
        Best(exercises[i].sets) == m.value))
  {
    if |exercises| > 0 {
      var n := |exercises| - 1;
      var prefix := exercises[..n];
      LiftBestIsMaximum(prefix, lift);
      assert forall i :: 0 <= i < n ==> prefix[i] == exercises[i];
      var m := LiftBest(prefix, lift);
      if Big3Lift(exercises[n].name) == Some(lift) && !(m.Some? && m.value >= Best(exercises[n].sets)) {
        assert LiftBest(exercises, lift) == Some(Best(exercises[n].sets));
      }
    }
  }

  /** The value a one-rep max `current` ends at when the largest estimate of its
      lift is `m`: `Math.round(m)` when that beats `current`, `current` otherwise. */
  function Raise(current: real, m: Option<real>): real {
    if m.Some? && m.value > current then Round(m.value) as real else current
  }

  predicate Raises(current: real, m: Option<real>) {
    m.Some? && m.value > current
  }

  /** The profile `finish` ends with: each one-rep max raised by its lift's largest
      estimate, every other field as it was. */
  function AutoUpdated(p: UserProfile, exercises: seq<ExerciseRecord>): (r: UserProfile)
    ensures r.name == p.name && r.bodyweightKg == p.bodyweightKg && r.trainingDays == p.trainingDays
    ensures forall lift :: OneRepMaxOf(r, lift) != OneRepMaxOf(p, lift) ==>
      Raises(OneRepMaxOf(p, lift), LiftBest(exercises, lift)) &&
      OneRepMaxOf(r, lift) == Round(LiftBest(exercises, lift).value) as real
    ensures !DidAutoUpdate(p, exercises) ==> r == p
  {
    p.(bench1RM := Raise(p.bench1RM, LiftBest(exercises, Bench)),
       squat1RM := Raise(p.squat1RM, LiftBest(exercises, Squat)),
       deadlift1RM := Raise(p.deadlift1RM, LiftBest(exercises, Deadlift)))
  }

  lemma AutoUpdatedLift(p: UserProfile, exercises: seq<ExerciseRecord>, lift: Lift)
    ensures OneRepMaxOf(AutoUpdated(p, exercises), lift) == Raise(OneRepMaxOf(p, lift), LiftBest(exercises, lift))
  {
  }

  /** `didUpdate` of `finish`: some lift's largest estimate beats its one-rep max. */
  predicate DidAutoUpdate(p: UserProfile, exercises: seq<ExerciseRecord>) {
    Raises(p.bench1RM, LiftBest(exercises, Bench)) ||
    Raises(p.squat1RM, LiftBest(exercises, Squat)) ||
    Raises(p.deadlift1RM, LiftBest(exercises, Deadlift))
  }

  /** The sequential rule of the loop (compare with the running value, replace by
      the rounded estimate) agrees with raising once by the maximum. */
  lemma RaiseStep(c: real, m: Option<real>, b: real)
    ensures var cur := Raise(c, m);
      (if b > cur then Round(b) as real else cur) == Raise(c, Some(if m.Some? && m.value >= b then m.value else b))
    ensures Raises(c, Some(if m.Some? && m.value >= b then m.value else b)) <==> Raises(c, m) || b > Raise(c, m)
  {
    if m.Some? && m.value > c {
      var r := Round(m.value);
      RoundInteger(r);
      if b > r as real {
        RoundMonotone(r as real, b);
        if b < m.value { RoundMonotone(b, m.value); }
      } else if b > m.value {
        RoundMonotone(m.value, b);
        RoundMonotone(b, r as real);
      }
    }
  }

  /** `finish`'s `forEach` over the exercises: the updated profile and `didUpdate`
      are the closed forms above. */
  method AutoUpdateOneRepMax(profile: UserProfile, exercises: seq<ExerciseRecord>)
    returns (updated: UserProfile, didUpdate: bool)
    ensures updated == AutoUpdated(profile, exercises)
    ensures didUpdate == DidAutoUpdate(profile, exercises)
  {
    updated := profile;
    didUpdate := false;
    var i := 0;
    while i < |exercises|
      invariant 0 <= i <= |exercises|
      invariant updated == AutoUpdated(profile, exercises[..i])
      invariant didUpdate == DidAutoUpdate(profile, exercises[..i])
    {
      var ex := exercises[i];
      ghost var before := updated;
      assert exercises[..i + 1][..i] == exercises[..i];
      var lift := Big3Lift(ex.name);
      if lift.Some? {
        var best := Best(ex.sets);
        ghost var m := LiftBest(exercises[..i], lift.value);
        AutoUpdatedLift(profile, exercises[..i], lift.value);
        RaiseStep(OneRepMaxOf(profile, lift.value), m, best);
        if best > OneRepMaxOf(updated, lift.value) {
          updated := WithOneRepMax(updated, lift.value, Round(best) as real);
          didUpdate := true;
        }
      }
      i := i + 1;
    }
    assert exercises[..|exercises|] == exercises;
  }

  // ---------------------------------------------------------------------------
  // Properties of the one-rep-max update
  // ---------------------------------------------------------------------------

  /** Exercises outside `BIG3_MAP` never touch the profile. */
  lemma NonBig3LeavesProfile(p: UserProfile, exercises: seq<ExerciseRecord>)
    requires forall i :: 0 <= i < |exercises| ==> exercises[i].name !in Big3Map
    ensures AutoUpdated(p, exercises) == p && !DidAutoUpdate(p, exercises)
  {
    LiftBestIsMaximum(exercises, Bench);
    LiftBestIsMaximum(exercises, Squat);
    LiftBestIsMaximum(exercises, Deadlift);
  }

  /** A whole-number one-rep max is never lowered. */
  lemma AutoUpdateMonotoneWhenWhole(p: UserProfile, exercises: seq<ExerciseRecord>, lift: Lift)
    requires IsWhole(OneRepMaxOf(p, lift))
    ensures OneRepMaxOf(AutoUpdated(p, exercises), lift) >= OneRepMaxOf(p, lift)
  {
    var c := OneRepMaxOf(p, lift);
    var m := LiftBest(exercises, lift);
    AutoUpdatedLift(p, exercises, lift);
    if m.Some? && m.value > c {
      RoundInteger(c.Floor);
      RoundMonotone(c, m.value);
    }
  }

  /** Running the update again on its own result changes no one-rep max. */
  lemma AutoUpdateIdempotent(p: UserProfile, exercises: seq<ExerciseRecord>)
    ensures AutoUpdated(AutoUpdated(p, exercises), exercises) == AutoUpdated(p, exercises)
  {
    var q := AutoUpdated(p, exercises);
    forall lift ensures OneRepMaxOf(AutoUpdated(q, exercises), lift) == OneRepMaxOf(q, lift) {
      AutoUpdatedLift(p, exercises, lift);
      AutoUpdatedLift(q, exercises, lift);
      var m := LiftBest(exercises, lift);
      if m.Some? && m.value > OneRepMaxOf(p, lift) && m.value > OneRepMaxOf(q, lift) {
        assert OneRepMaxOf(q, lift) == Round(m.value) as real;
        RoundInteger(Round(m.value));
      }
    }
    assert q.bench1RM == AutoUpdated(q, exercises).bench1RM;
    assert q.squat1RM == AutoUpdated(q, exercises).squat1RM;
    assert q.deadlift1RM == AutoUpdated(q, exercises).deadlift1RM;
  }

  const ExampleProfile := UserProfile("", 78.0, 100.3, 130.0, 160.0, 4)
  const SingleAt1004 := [ExerciseRecord("ベンチプレス", [SetRecord(100.4, 1.0, true)])]

  /** A fractional one-rep max can go down: 100.3 with a completed single at 100.4
      becomes 100; and on a second run `didUpdate` is true again although nothing
      changes, since 100.4 still beats the stored 100. */
  lemma AutoUpdateCanLowerFractional()
    ensures AutoUpdated(ExampleProfile, SingleAt1004).bench1RM == 100.0
    ensures DidAutoUpdate(ExampleProfile, SingleAt1004)
    ensures AutoUpdated(AutoUpdated(ExampleProfile, SingleAt1004), SingleAt1004)
      == AutoUpdated(ExampleProfile, SingleAt1004)
    ensures DidAutoUpdate(AutoUpdated(ExampleProfile, SingleAt1004), SingleAt1004)
  {
    var sets := SingleAt1004[0].sets;
    assert Qualifies(sets[0]);
    assert Wilks.EstimateOneRepMax(100.4, 1.0) == Ok(100.4);
    assert BestFrom(sets[1..], 100.4) == 100.4;
    assert Best(sets) == 100.4;
    assert SingleAt1004[..0] == [];
    assert LiftBest(SingleAt1004, Bench) == Some(100.4);
    RoundUnique(100.4, 100);
    AutoUpdateIdempotent(ExampleProfile, SingleAt1004);
  }
}
