/** The persisted record types and the `useLocalStorage` cell of lib/storage.ts:
    an in-memory state that starts at its initial value, is overwritten once by
    hydration from the browser's key-value store, and on every `set` takes the
    updater's result and writes it through to the store, ignoring write failures. */
module Storage {
  import opened Common

  // ---------------------------------------------------------------------------
  // Record types
  // ---------------------------------------------------------------------------

  datatype SetRecord = SetRecord(weight: real, reps: real, completed: bool)

  datatype ExerciseRecord = ExerciseRecord(name: string, sets: seq<SetRecord>)

  /** `date` is `YYYY-MM-DD`; `savedAt` is absent until the session is finished. */
  datatype TrainingSession = TrainingSession(
    id: string, date: string, exercises: seq<ExerciseRecord>,
    completed: bool, savedAt: Option<string>)

  /** `time` is `HH:mm`. */
  datatype MealEntry = MealEntry(
    id: string, time: string, name: string,
    kcal: real, protein: real, fat: real, carbs: real)

  datatype DayMealRecord = DayMealRecord(date: string, entries: seq<MealEntry>)

  datatype UserProfile = UserProfile(
    name: string, bodyweightKg: real,
    bench1RM: real, squat1RM: real, deadlift1RM: real, trainingDays: int)

  datatype WeightEntry = WeightEntry(date: string, kg: real)

  // ---------------------------------------------------------------------------
  // The store and the cell
  // ---------------------------------------------------------------------------

  /** `JSON.stringify` and `JSON.parse`; a parse that throws is `None`. */
  datatype Codec<!T> = Codec(serialize: T -> string, parse: string -> Option<T>)

  /** Parsing what was serialised gives the value back. */
  ghost predicate RoundTrips<T(!new)>(codec: Codec<T>) {
    forall v: T :: codec.parse(codec.serialize(v)) == Some(v)
  }

  /** The argument of `set`: a plain value or an updater of the previous state. */
  datatype Action<!T> = Replace(value: T) | Update(f: T -> T)

  function Apply<T>(action: Action<T>, prev: T): T {
    match action
    case Replace(v) => v
    case Update(f) => f(prev)
  }

  /** What hydration leaves in the cell: the parsed stored value when the read
      succeeds, the key is present and its text parses, and `current` otherwise. */
  function Hydrated<T>(codec: Codec<T>, entries: map<string, string>, key: string,
                       readOk: bool, current: T): (v: T)
    ensures v != current ==> readOk && key in entries && codec.parse(entries[key]) == Some(v)
    ensures readOk && key in entries && codec.parse(entries[key]).Some? ==> v == codec.parse(entries[key]).value
  {
    if readOk && key in entries && codec.parse(entries[key]).Some? then
      codec.parse(entries[key]).value
    else
      current
  }

  /** A value written through a round-tripping codec is read back by hydration. */
  lemma HydrateAfterWrite<T(!new)>(codec: Codec<T>, entries: map<string, string>, key: string, v: T, current: T)
    requires RoundTrips(codec)
    ensures Hydrated(codec, entries[key := codec.serialize(v)], key, true, current) == v
  {
    assert codec.parse(codec.serialize(v)) == Some(v);
  }

  /** A missing key or a failed read leaves the cell as it was. */
  lemma HydrateMissingKeeps<T>(codec: Codec<T>, entries: map<string, string>, key: string,
                               readOk: bool, current: T)
    requires !readOk || key !in entries
    ensures Hydrated(codec, entries, key, readOk, current) == current
  {
  }

  /** The store after `setItem(key, text)`, which changes nothing when it throws. */
  function Write(entries: map<string, string>, key: string, text: string, ok: bool): (r: map<string, string>)
    ensures ok ==> key in r && r[key] == text
    ensures forall k :: k != key ==> (k in r <==> k in entries) && (k in r ==> r[k] == entries[k])
    ensures !ok ==> r == entries
  {
    if ok then entries[key := text] else entries
  }

  /** The browser's `localStorage`: a string-to-string map. */
  class Backing {
    var entries: map<string, string>

    constructor (initial: map<string, string>)
      ensures entries == initial
    {
      entries := initial;
    }
  }

  /** One `useLocalStorage(key, init)` hook instance over the store `backing`. */
  class Cell<T> {
    const key: string
    const init: T
    const codec: Codec<T>
    const backing: Backing
    var state: T
    /** Whether the mount-time read has run. */
    var hydrated: bool

    /** `useState(init)`: before hydration the state is `init`. */
    constructor (key: string, init: T, codec: Codec<T>, backing: Backing)
      ensures this.key == key && this.init == init && this.codec == codec && this.backing == backing
      ensures state == init && !hydrated
    {
      this.key := key;
      this.init := init;
      this.codec := codec;
      this.backing := backing;
      state := init;
      hydrated := false;
    }

    /** The mount effect: read the key and, when the read succeeds, the key is
        present and the text parses, replace the state; any failure is ignored.
        The store is only read. */
    method Hydrate(readOk: bool)
      modifies this
      ensures hydrated
      ensures state == Hydrated(codec, backing.entries, key, readOk, old(state))
    {
      if readOk && key in backing.entries {
        var parsed := codec.parse(backing.entries[key]);
        if parsed.Some? {
          state := parsed.value;
        }
      }
      hydrated := true;
    }

    /** `set(action)`: the new state is the value, or the updater applied to the
        previous state; it is kept whether or not the write succeeds, and a
        successful write stores its serialisation under `key` and changes no
        other key. */
    method Set(action: Action<T>, writeOk: bool)
      modifies this, backing
      ensures state == Apply(action, old(state))
      ensures hydrated == old(hydrated)
      ensures backing.entries == Write(old(backing.entries), key, codec.serialize(state), writeOk)
    {
      var next := Apply(action, state);
      if writeOk {
        backing.entries := backing.entries[key := codec.serialize(next)];
      }
      state := next;
    }
  }

  /** Two updaters in a row compose, each seeing the state the previous one left. */
  method SetTwice<T>(c: Cell<T>, f: T -> T, g: T -> T, writeOk1: bool, writeOk2: bool)
    modifies c, c.backing
    ensures c.state == g(f(old(c.state)))
    ensures writeOk2 ==> c.key in c.backing.entries && c.backing.entries[c.key] == c.codec.serialize(c.state)
  {
    c.Set(Update(f), writeOk1);
    c.Set(Update(g), writeOk2);
  }

  /** A value set with a successful write is what a fresh hook on the same key
      hydrates to, whatever its own initial value, when the codec round-trips. */
  method PersistThenReload<T(!new)>(c: Cell<T>, action: Action<T>, init: T) returns (reloaded: Cell<T>)
    requires RoundTrips(c.codec)
    modifies c, c.backing
    ensures fresh(reloaded) && reloaded.key == c.key && reloaded.backing == c.backing
    ensures reloaded.state == c.state == Apply(action, old(c.state))
  {
    c.Set(action, true);
    reloaded := new Cell(c.key, init, c.codec, c.backing);
    HydrateAfterWrite(c.codec, old(c.backing.entries), c.key, c.state, init);
    reloaded.Hydrate(true);
  }
}
