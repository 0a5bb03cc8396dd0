/** The stateful side of app/page.tsx: the application's five persisted cells with
    one method per updater (the `App` component), and the training tab's session
    with its edits and `finish`. */
module App {
  import opened Common
  import opened Storage
  import opened Session
  import Records
  import Stats

  const ProfileKey := "b3_profile"
  const SessionsKey := "b3_sessions"
  const MealsKey := "b3_meals"
  const WeightsKey := "b3_weights"
  const MenuKey := "b3_menu_tpl"

  /** The JSON encodings of the five persisted values. */
  datatype Codecs = Codecs(
    profile: Codec<UserProfile>, sessions: Codec<seq<TrainingSession>>,
    meals: Codec<seq<DayMealRecord>>, weights: Codec<seq<WeightEntry>>,
    menu: Codec<seq<MenuTemplateItem>>)

  /** The `App` component's persisted state: one `useLocalStorage` cell per
      collection, all over the same store under their own keys. */
  class AppStore {
    const codecs: Codecs
    const backing: Backing
    const profile: Cell<UserProfile>
    const sessions: Cell<seq<TrainingSession>>
    const mealRecords: Cell<seq<DayMealRecord>>
    const weightLog: Cell<seq<WeightEntry>>
    const menuTemplate: Cell<seq<MenuTemplateItem>>

    ghost predicate Valid() {
      profile.backing == backing && sessions.backing == backing && mealRecords.backing == backing &&
      weightLog.backing == backing && menuTemplate.backing == backing &&
      profile.key == ProfileKey && sessions.key == SessionsKey && mealRecords.key == MealsKey &&
      weightLog.key == WeightsKey && menuTemplate.key == MenuKey &&
      profile.codec == codecs.profile && sessions.codec == codecs.sessions &&
      mealRecords.codec == codecs.meals && weightLog.codec == codecs.weights &&
      menuTemplate.codec == codecs.menu
    }

    /** The hooks' initial values: the default profile, empty collections and the
        default menu. */
    constructor (codecs: Codecs, backing: Backing)
      ensures Valid() && this.codecs == codecs && this.backing == backing
      ensures fresh(profile) && fresh(sessions) && fresh(mealRecords) && fresh(weightLog) && fresh(menuTemplate)
      ensures profile.state == Stats.DefaultProfile && sessions.state == [] && mealRecords.state == []
      ensures weightLog.state == [] && menuTemplate.state == DefaultMenu
      ensures !profile.hydrated && !sessions.hydrated && !mealRecords.hydrated
      ensures !weightLog.hydrated && !menuTemplate.hydrated
    {
      this.codecs := codecs;
      this.backing := backing;
      profile := new Cell(ProfileKey, Stats.DefaultProfile, codecs.profile, backing);
      sessions := new Cell(SessionsKey, [], codecs.sessions, backing);
      mealRecords := new Cell(MealsKey, [], codecs.meals, backing);
      weightLog := new Cell(WeightsKey, [], codecs.weights, backing);
      menuTemplate := new Cell(MenuKey, DefaultMenu, codecs.menu, backing);
    }

    /** The five mount effects; `readOk` is whether the store can be read. */
    method Hydrate(readOk: bool)
      requires Valid()
      modifies profile, sessions, mealRecords, weightLog, menuTemplate
      ensures profile.state == Hydrated(codecs.profile, backing.entries, ProfileKey, readOk, old(profile.state))
      ensures sessions.state == Hydrated(codecs.sessions, backing.entries, SessionsKey, readOk, old(sessions.state))
      ensures mealRecords.state == Hydrated(codecs.meals, backing.entries, MealsKey, readOk, old(mealRecords.state))
      ensures weightLog.state == Hydrated(codecs.weights, backing.entries, WeightsKey, readOk, old(weightLog.state))
      ensures menuTemplate.state == Hydrated(codecs.menu, backing.entries, MenuKey, readOk, old(menuTemplate.state))
      ensures profile.hydrated && sessions.hydrated && mealRecords.hydrated && weightLog.hydrated && menuTemplate.hydrated
    {
      profile.Hydrate(readOk);
      sessions.Hydrate(readOk);
      mealRecords.Hydrate(readOk);
      weightLog.Hydrate(readOk);
      menuTemplate.Hydrate(readOk);
    }

    /** `saveSession(s)`. */
    method SaveSession(s: TrainingSession, writeOk: bool)
      requires Valid()
      modifies sessions, backing
      ensures sessions.state == Records.SaveSession(old(sessions.state), s)
      ensures backing.entries == Write(old(backing.entries), SessionsKey, codecs.sessions.serialize(sessions.state), writeOk)
      ensures sessions.hydrated == old(sessions.hydrated)
    {
      sessions.Set(Update((prev: seq<TrainingSession>) => Records.SaveSession(prev, s)), writeOk);
    }

    /** `addMealEntry(entry)`, `today` standing for `todayStr()`. */
    method AddMealEntry(today: string, entry: MealEntry, writeOk: bool)
      requires Valid()
      modifies mealRecords, backing
      ensures mealRecords.state == Records.AddMealEntry(old(mealRecords.state), today, entry)
      ensures backing.entries == Write(old(backing.entries), MealsKey, codecs.meals.serialize(mealRecords.state), writeOk)
      ensures mealRecords.hydrated == old(mealRecords.hydrated)
    {
      mealRecords.Set(Update((prev: seq<DayMealRecord>) => Records.AddMealEntry(prev, today, entry)), writeOk);
    }

    /** `removeMealEntry(date, id)`. */
    method RemoveMealEntry(date: string, id: string, writeOk: bool)
      requires Valid()
      modifies mealRecords, backing
      ensures mealRecords.state == Records.RemoveMealEntry(old(mealRecords.state), date, id)
      ensures backing.entries == Write(old(backing.entries), MealsKey, codecs.meals.serialize(mealRecords.state), writeOk)
      ensures mealRecords.hydrated == old(mealRecords.hydrated)
    {
      mealRecords.Set(Update((prev: seq<DayMealRecord>) => Records.RemoveMealEntry(prev, date, id)), writeOk);
    }

    /** `addWeight(entry)`: log the entry, then set the profile's body weight; each
        write may fail on its own. */
    method AddWeight(entry: WeightEntry, weightsOk: bool, profileOk: bool)
      requires Valid()
      modifies weightLog, profile, backing
      ensures weightLog.state == Records.AddWeight(old(weightLog.state), entry)
      ensures profile.state == Records.WithBodyweight(old(profile.state), entry.kg)
      ensures backing.entries ==
        Write(Write(old(backing.entries), WeightsKey, codecs.weights.serialize(weightLog.state), weightsOk),
              ProfileKey, codecs.profile.serialize(profile.state), profileOk)
      ensures weightLog.hydrated == old(weightLog.hydrated) && profile.hydrated == old(profile.hydrated)
    {
      weightLog.Set(Update((prev: seq<WeightEntry>) => Records.AddWeight(prev, entry)), weightsOk);
      profile.Set(Update((prev: UserProfile) => Records.WithBodyweight(prev, entry.kg)), profileOk);
    }

    /** `setProfile(p)`: the settings form and the one-rep-max update. */
    method SaveProfile(p: UserProfile, writeOk: bool)
      requires Valid()
      modifies profile, backing
      ensures profile.state == p
      ensures backing.entries == Write(old(backing.entries), ProfileKey, codecs.profile.serialize(p), writeOk)
      ensures profile.hydrated == old(profile.hydrated)
    {
      profile.Set(Replace(p), writeOk);
    }

    /** `setMenuTemplate(t)`. */
    method SaveTemplate(t: seq<MenuTemplateItem>, writeOk: bool)
      requires Valid()
      modifies menuTemplate, backing
      ensures menuTemplate.state == t
      ensures backing.entries == Write(old(backing.entries), MenuKey, codecs.menu.serialize(t), writeOk)
      ensures menuTemplate.hydrated == old(menuTemplate.hydrated)
    {
      menuTemplate.Set(Replace(t), writeOk);
    }
  }

  /** The training tab: its working copy of today's session and the store it
      reports to. */
  class TrainingTab {
    const store: AppStore
    var session: TrainingSession

    /** `useState(() => todaySession ?? makeDefaultSession(menuTemplate))`, with
        `today` and `id` standing for `todayStr()` and `genId()`. */
    constructor (store: AppStore, today: string, id: string)
      ensures this.store == store
      ensures session == match Records.TodaySession(store.sessions.state, today)
        case Some(s) => s
        case None => MakeDefaultSession(id, today, store.menuTemplate.state)
    {
      this.store := store;
      var found := Records.TodaySession(store.sessions.state, today);
      match found {
        case Some(s) => session := s;
        case None => session := MakeDefaultSession(id, today, store.menuTemplate.state);
      }
    }

    method ToggleSet(ei: int, si: int)
      modifies this
      ensures session == Session.ToggleSet(old(session), ei, si)
    {
      session := Session.ToggleSet(session, ei, si);
    }

    method AddSet(ei: int)
      modifies this
      ensures session == Session.AddSet(old(session), ei)
    {
      session := Session.AddSet(session, ei);
    }

    method RemoveSet(ei: int, si: int)
      modifies this
      ensures session == Session.RemoveSet(old(session), ei, si)
    {
      session := Session.RemoveSet(session, ei, si);
    }

    /** `parsed` is `parseFloat` of the typed text, `None` for NaN. */
    method UpdateSet(ei: int, si: int, field: SetField, parsed: Option<real>)
      modifies this
      ensures session == Session.UpdateSet(old(session), ei, si, field, parsed)
    {
      session := Session.UpdateSet(session, ei, si, field, parsed);
    }

    method RenameExercise(ei: int, name: string)
      modifies this
      ensures session == Session.RenameExercise(old(session), ei, name)
    {
      session := Session.RenameExercise(session, ei, name);
    }

    method AddExercise()
      modifies this
      ensures session == Session.AddExercise(old(session))
    {
      session := Session.AddExercise(session);
    }

    method RemoveExercise(ei: int)
      modifies this
      ensures session == Session.RemoveExercise(old(session), ei)
    {
      session := Session.RemoveExercise(session, ei);
    }

    /** `finish()`: mark the session finished at `savedAt` and save it, store the
        template derived from it, and store the one-rep-max update when it raised
        something; the profile then is the closed form of the update (unchanged
        when nothing was raised), and the result is `didUpdate`. */
    method Finish(savedAt: string, sessionsOk: bool, templateOk: bool, profileOk: bool) returns (didUpdate: bool)
      requires store.Valid()
      modifies this, store.sessions, store.menuTemplate, store.profile, store.backing
      ensures session == FinishSession(old(session), savedAt)
      ensures store.sessions.state == Records.SaveSession(old(store.sessions.state), session)
      ensures store.menuTemplate.state == DeriveTemplate(session.exercises)
      ensures didUpdate == DidAutoUpdate(old(store.profile.state), session.exercises)
      ensures store.profile.state == AutoUpdated(old(store.profile.state), session.exercises)
      ensures store.backing.entries ==
        Write(Write(Write(old(store.backing.entries),
          SessionsKey, store.codecs.sessions.serialize(store.sessions.state), sessionsOk),
          MenuKey, store.codecs.menu.serialize(store.menuTemplate.state), templateOk),
          ProfileKey, store.codecs.profile.serialize(store.profile.state), didUpdate && profileOk)
    {
      var s := FinishSession(session, savedAt);
      session := s;
      store.SaveSession(s, sessionsOk);
      store.SaveTemplate(DeriveTemplate(s.exercises), templateOk);
      var updated;
      updated, didUpdate := AutoUpdateOneRepMax(store.profile.state, s.exercises);
      if didUpdate {
        store.SaveProfile(updated, profileOk);
      }
    }
  }
}
