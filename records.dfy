/** The merge policies app/page.tsx applies to the persisted collections: each is
    the `prev -> next` updater handed to the collection's `set`. */
module Records {
  import opened Common
  import opened Storage

  // ---------------------------------------------------------------------------
  // Sessions
  // ---------------------------------------------------------------------------

  /** `prev.findIndex(x => x.id === id)`. */
  function FindSessionIndex(sessions: seq<TrainingSession>, id: string): int {
    FindIndex(sessions, (x: TrainingSession) => x.id == id)
  }

  /** `saveSession`: replace the first session with the same id, else prepend. */
  function SaveSession(prev: seq<TrainingSession>, s: TrainingSession): (next: seq<TrainingSession>)
    ensures s in next
    ensures forall x :: x in prev && x.id != s.id ==> x in next
    ensures forall x :: x in next ==> x == s || x in prev
  {
    var idx := FindSessionIndex(prev, s.id);
    if idx >= 0 then
      var next := prev[idx := s];
      assert next[idx] == s;
      assert forall j :: 0 <= j < |prev| && j != idx ==> next[j] == prev[j];
      assert forall x :: x in prev && x.id != s.id ==> x in next by {
        forall x | x in prev && x.id != s.id ensures x in next {
          var j :| 0 <= j < |prev| && prev[j] == x;
          assert next[j] == x;
        }
      }
      next
    else [s] + prev
  }

  /** When the id is present the length is kept and only its first position is
      replaced; otherwise the session is prepended. */
  lemma SaveSessionUpserts(prev: seq<TrainingSession>, s: TrainingSession)
    ensures var next := SaveSession(prev, s);
      (exists k :: 0 <= k < |prev| && prev[k].id == s.id) ==>
        var idx := FindSessionIndex(prev, s.id);
        |next| == |prev| && next[idx] == s &&
        (forall j :: 0 <= j < idx ==> prev[j].id != s.id) &&
        (forall j :: 0 <= j < |prev| && j != idx ==> next[j] == prev[j])
    ensures (forall k :: 0 <= k < |prev| ==> prev[k].id != s.id) ==>
      SaveSession(prev, s) == [s] + prev && |SaveSession(prev, s)| == |prev| + 1
  {
  }

  /** Saving the same session again changes nothing. */
  lemma SaveSessionIdempotent(prev: seq<TrainingSession>, s: TrainingSession)
    ensures SaveSession(SaveSession(prev, s), s) == SaveSession(prev, s)
  {
    var next := SaveSession(prev, s);
    var idx := FindSessionIndex(prev, s.id);
    var k := if idx >= 0 then idx else 0;
    assert next[k] == s;
    assert forall j :: 0 <= j < k ==> next[j] == prev[j];
    assert FindSessionIndex(next, s.id) == k;
  }

  ghost predicate UniqueIds(sessions: seq<TrainingSession>) {
    forall i, j :: 0 <= i < j < |sessions| ==> sessions[i].id != sessions[j].id
  }

  /** Saving keeps session ids unique. */
  lemma SaveSessionKeepsIdsUnique(prev: seq<TrainingSession>, s: TrainingSession)
    requires UniqueIds(prev)
    ensures UniqueIds(SaveSession(prev, s))
  {
    var next := SaveSession(prev, s);
    if FindSessionIndex(prev, s.id) < 0 {
      forall i, j | 0 <= i < j < |next| ensures next[i].id != next[j].id {
        if i > 0 {
          assert next[i] == prev[i - 1] && next[j] == prev[j - 1];
        }
      }
    }
  }

  /** `sessions.find(s => s.date === today)`: the first session of that date. */
  function TodaySession(sessions: seq<TrainingSession>, today: string): (r: Option<TrainingSession>)
    ensures r.None? <==> forall j :: 0 <= j < |sessions| ==> sessions[j].date != today
    ensures r.Some? ==> exists k :: (0 <= k < |sessions| && sessions[k] == r.value &&
      r.value.date == today && forall j :: 0 <= j < k ==> sessions[j].date != today)
  {
    if |sessions| == 0 then None
    else if sessions[0].date == today then Some(sessions[0])
    else
      var r := TodaySession(sessions[1..], today);
      assert forall j :: 0 < j < |sessions| ==> sessions[j] == sessions[1..][j - 1];
      r
  }

  // ---------------------------------------------------------------------------
  // Meals
  // ---------------------------------------------------------------------------

  predicate HasDate(records: seq<DayMealRecord>, date: string) {
    exists i :: 0 <= i < |records| && records[i].date == date
  }

  /** `addMealEntry`: the entry goes to the record for `today` (the clock's date, not
      the entry's), appended to its entries; with no such record a new one is
      prepended. */
  function AddMealEntry(prev: seq<DayMealRecord>, today: string, entry: MealEntry): (next: seq<DayMealRecord>)
    ensures HasDate(prev, today) ==> |next| == |prev| && forall i :: 0 <= i < |prev| ==>
      next[i] == if prev[i].date == today then prev[i].(entries := prev[i].entries + [entry]) else prev[i]
    ensures !HasDate(prev, today) ==> next == [DayMealRecord(today, [entry])] + prev
  {
    if HasDate(prev, today) then
      seq(|prev|, i requires 0 <= i < |prev| =>
        if prev[i].date == today then prev[i].(entries := prev[i].entries + [entry]) else prev[i])
    else
      [DayMealRecord(today, [entry])] + prev
  }

  /** `entries.filter(e => e.id !== id)`: the entries with another id, in their order
      (Common.FilterConcat, Common.FilterSingleton). */
  function WithoutId(entries: seq<MealEntry>, id: string): seq<MealEntry> {
    Filter(entries, (e: MealEntry) => e.id != id)
  }

  /** `removeMealEntry`: drop every entry with that id from the records of that
      date. */
  function RemoveMealEntry(prev: seq<DayMealRecord>, date: string, id: string): (next: seq<DayMealRecord>)
    ensures |next| == |prev|
    ensures forall i :: 0 <= i < |prev| ==> next[i].date == prev[i].date
    ensures forall i :: 0 <= i < |prev| && prev[i].date != date ==> next[i] == prev[i]
    ensures forall i, e :: 0 <= i < |prev| && prev[i].date == date ==>
      (e in next[i].entries <==> e in prev[i].entries && e.id != id)
    ensures forall i :: 0 <= i < |prev| && prev[i].date == date ==>
      next[i].entries == WithoutId(prev[i].entries, id)
  {
    seq(|prev|, i requires 0 <= i < |prev| =>
      if prev[i].date == date then prev[i].(entries := WithoutId(prev[i].entries, id)) else prev[i])
  }

  /** Removing an entry just added under a fresh id undoes the addition, except that
      a day record created for it stays behind, empty. */
  lemma RemoveUndoesAdd(prev: seq<DayMealRecord>, today: string, entry: MealEntry)
    requires forall i, e :: 0 <= i < |prev| && prev[i].date == today && e in prev[i].entries ==> e.id != entry.id
    ensures HasDate(prev, today) ==> RemoveMealEntry(AddMealEntry(prev, today, entry), today, entry.id) == prev
    ensures !HasDate(prev, today) ==>
      RemoveMealEntry(AddMealEntry(prev, today, entry), today, entry.id) == [DayMealRecord(today, [])] + prev
  {
    var added := AddMealEntry(prev, today, entry);
    var next := RemoveMealEntry(added, today, entry.id);
    if HasDate(prev, today) {
      forall i | 0 <= i < |prev| ensures next[i] == prev[i] {
        if prev[i].date == today {
          FilterAppendRejected(prev[i].entries, entry, (e: MealEntry) => e.id != entry.id);
          FilterKeepsAll(prev[i].entries, (e: MealEntry) => e.id != entry.id);
        }
      }
    } else {
      assert [entry][1..] == [];
      forall i | 1 <= i < |next| ensures next[i] == prev[i - 1] {
        assert added[i] == prev[i - 1];
      }
    }
  }

  ghost predicate UniqueDates(records: seq<DayMealRecord>) {
    forall i, j :: 0 <= i < j < |records| ==> records[i].date != records[j].date
  }

  /** Both updaters keep one record per date. */
  lemma MealUpdatersKeepDatesUnique(prev: seq<DayMealRecord>, today: string, entry: MealEntry, date: string, id: string)
    requires UniqueDates(prev)
    ensures UniqueDates(AddMealEntry(prev, today, entry))
    ensures UniqueDates(RemoveMealEntry(prev, date, id))
  {
    var next := AddMealEntry(prev, today, entry);
    if !HasDate(prev, today) {
      forall i, j | 0 <= i < j < |next| ensures next[i].date != next[j].date {
        if i > 0 {
          assert next[i] == prev[i - 1] && next[j] == prev[j - 1];
        } else {
          assert next[j] == prev[j - 1];
        }
      }
    }
  }

  /** The number of logged entries over all records. */
  function EntryCount(records: seq<DayMealRecord>): nat {
    if |records| == 0 then 0 else |records[0].entries| + EntryCount(records[1..])
  }

  /** With one record per date, adding a meal adds exactly one entry overall. */
  lemma {:induction false} AddMealEntryCount(prev: seq<DayMealRecord>, today: string, entry: MealEntry)
    requires UniqueDates(prev)
    ensures EntryCount(AddMealEntry(prev, today, entry)) == EntryCount(prev) + 1
  {
    var next := AddMealEntry(prev, today, entry);
    if HasDate(prev, today) {
      var k :| 0 <= k < |prev| && prev[k].date == today;
      CountOneGrown(prev, next, k);
    } else {
      assert next[1..] == prev;
    }
  }

  /** Two record lists equal but for record `k`, which gained one entry. */
  lemma {:induction false} CountOneGrown(a: seq<DayMealRecord>, b: seq<DayMealRecord>, k: nat)
    requires |a| == |b| && k < |a|
    requires |b[k].entries| == |a[k].entries| + 1
    requires forall i :: 0 <= i < |a| && i != k ==> b[i] == a[i]
    ensures EntryCount(b) == EntryCount(a) + 1
  {
    if k == 0 {
      assert a[1..] == b[1..];
    } else {
      CountOneGrown(a[1..], b[1..], k - 1);
    }
  }

  // ---------------------------------------------------------------------------
  // Body weight
  // ---------------------------------------------------------------------------

  /** `prev.filter(e => e.date !== date)`: the entries of other dates, in their
      order (Common.FilterConcat, Common.FilterSingleton). */
  function WithoutDate(log: seq<WeightEntry>, date: string): seq<WeightEntry> {
    Filter(log, (e: WeightEntry) => e.date != date)
  }

  /** `addWeight`'s log updater: the new entry first, then every old entry of
      another date in the old order. */
  function AddWeight(prev: seq<WeightEntry>, entry: WeightEntry): (next: seq<WeightEntry>)
    ensures |next| >= 1 && next[0] == entry
    ensures forall e :: e in next[1..] <==> e in prev && e.date != entry.date
    ensures forall i :: 1 <= i < |next| ==> next[i].date != entry.date
    ensures next[1..] == WithoutDate(prev, entry.date)
  {
    [entry] + WithoutDate(prev, entry.date)
  }

  /** Logging the same entry twice is the same as logging it once. */
  lemma AddWeightIdempotent(prev: seq<WeightEntry>, entry: WeightEntry)
    ensures AddWeight(AddWeight(prev, entry), entry) == AddWeight(prev, entry)
  {
    var rest := WithoutDate(prev, entry.date);
    FilterKeepsAll(rest, (e: WeightEntry) => e.date != entry.date);
  }

  ghost predicate UniqueWeightDates(log: seq<WeightEntry>) {
    forall i, j :: 0 <= i < j < |log| ==> log[i].date != log[j].date
  }

  /** A filter keeps a log's dates unique. */
  lemma {:induction false} WithoutDateKeepsUnique(log: seq<WeightEntry>, date: string)
    requires UniqueWeightDates(log)
    ensures UniqueWeightDates(WithoutDate(log, date))
  {
    if |log| > 0 {
      var tail := log[1..];
      assert UniqueWeightDates(tail) by {
        forall i, j | 0 <= i < j < |tail| ensures tail[i].date != tail[j].date {
          assert tail[i] == log[i + 1] && tail[j] == log[j + 1];
        }
      }
      WithoutDateKeepsUnique(tail, date);
      var rest := WithoutDate(tail, date);
      if log[0].date != date {
        var r := [log[0]] + rest;
        forall i, j | 0 <= i < j < |r| ensures r[i].date != r[j].date {
          if i == 0 {
            assert r[j] in rest;
            assert r[j] in tail;
            var k :| 0 <= k < |tail| && tail[k] == r[j];
            assert log[k + 1] == r[j];
          } else {
            assert r[i] == rest[i - 1] && r[j] == rest[j - 1];
          }
        }
      }
    }
  }

  /** The log keeps one entry per date. */
  lemma AddWeightKeepsDatesUnique(prev: seq<WeightEntry>, entry: WeightEntry)
    requires UniqueWeightDates(prev)
    ensures UniqueWeightDates(AddWeight(prev, entry))
  {
    WithoutDateKeepsUnique(prev, entry.date);
    var next := AddWeight(prev, entry);
    forall i, j | 0 <= i < j < |next| ensures next[i].date != next[j].date {
      if i > 0 {
        assert next[i] == WithoutDate(prev, entry.date)[i - 1];
        assert next[j] == WithoutDate(prev, entry.date)[j - 1];
      }
    }
  }

  /** `addWeight`'s profile updater: only the body weight changes. */
  function WithBodyweight(p: UserProfile, kg: real): (r: UserProfile)
    ensures r.bodyweightKg == kg && r == p.(bodyweightKg := r.bodyweightKg)
  {
    p.(bodyweightKg := kg)
  }
}
