/** `logic/app_controller.py`: the controller that owns the logged-in
    user's progress. Every transition takes the controller state together
    with the configuration store and returns both; emitted Qt signals are
    left out except where the transition's answer depends on them. */
module AppController {
  import opened Values
  import opened Text
  import opened Levels
  import opened ConfigStore
  import opened UserState

  /** Controller state and the configuration directory it writes to. */
  datatype World = World(user: User, store: Store)

  /** Where `attempt_login` sends the user (`False` is `Rejected`). */
  datatype LoginOutcome = Rejected | ToDashboard | ToLanguageSelection

  /** The languages `process_language_selection` accepts. */
  const SupportedLanguages: set<string> := {"Italian", "Japanese", "Spanish"}

  /** Usernames the controller can hold: none, or a stripped non-empty name. */
  predicate ValidUser(u: User) {
    u.username.Some? ==> u.username.value != [] && Strip(u.username.value) == u.username.value
  }

  // ---------------------------------------------------------------------
  // Levels from experience

  /** `_calculate_level`: five half-open bands with upper bounds 100, 500,
      1500 and 3000. */
  function CalculateLevel(exp: int): (r: string)
    ensures r in Names
  {
    if exp < 100 then Beginner
    else if exp < 500 then Intermediate
    else if exp < 1500 then Advanced
    else if exp < 3000 then Proficient
    else Master
  }

  /** Each level is reached exactly from its floor up to the next floor;
      a floor value belongs to the higher band. */
  lemma CalculateLevelBands(exp: int, k: nat)
    requires k < |Names|
    ensures CalculateLevel(exp) == Names[k] <==>
              (k == 0 || Floors[k] <= exp) && (k == |Names| - 1 || exp < Floors[k + 1])
  {
  }

  /** More experience never gives an earlier level. */
  lemma CalculateLevelMonotone(a: int, b: int)
    requires a <= b
    ensures Rank(CalculateLevel(a)) <= Rank(CalculateLevel(b))
  {
  }

  // ---------------------------------------------------------------------
  // Saving and theme

  /** `save_user_state`: writes the user's record, or nothing when no one
      is logged in. */
  function SaveUserState(w: World): (r: World)
    ensures r.user == w.user
    ensures !LoggedIn(w.user) ==> r == w
    ensures LoggedIn(w.user) ==>
              LoadUserConfig(r.store, w.user.username.value) == Some(ToRecord(w.user))
    ensures LoggedIn(w.user) ==> WroteOnly(w.store, r.store, w.user.username.value, ToRecord(w.user))
  {
    if !LoggedIn(w.user) then w
    else World(w.user, SaveUserConfig(w.store, w.user.username.value, ToRecord(w.user)).0)
  }

  /** `set_theme`: a new preference is stored and saved; the current one
      changes nothing at all. */
  function SetTheme(w: World, theme: string): (r: World)
    ensures r.user == w.user.(theme := theme)
    ensures theme == w.user.theme ==> r == w
    ensures !LoggedIn(w.user) ==> r.store == w.store
    ensures LoggedIn(w.user) && theme != w.user.theme ==>
              LoadUserConfig(r.store, w.user.username.value) == Some(ToRecord(r.user))
    ensures LoggedIn(w.user) && theme != w.user.theme ==>
              WroteOnly(w.store, r.store, w.user.username.value, ToRecord(r.user))
  {
    if w.user.theme != theme then SaveUserState(World(w.user.(theme := theme), w.store)) else w
  }

  /** `toggle_theme`. */
  function ToggleTheme(w: World): (r: World)
    ensures r.user.theme == Dark <==> w.user.theme == Light
    ensures r.user.theme == Light <==> w.user.theme != Light
    ensures r.user == w.user.(theme := r.user.theme)
    ensures !LoggedIn(w.user) ==> r.store == w.store
    ensures LoggedIn(w.user) ==>
              LoadUserConfig(r.store, w.user.username.value) == Some(ToRecord(r.user))
    ensures LoggedIn(w.user) ==> WroteOnly(w.store, r.store, w.user.username.value, ToRecord(r.user))
  {
    SetTheme(w, if w.user.theme == Light then Dark else Light)
  }

  /** Toggling twice from "light" or "dark" restores the preference; from
      any other value it ends on "dark". */
  lemma ToggleTwice(w: World)
    ensures w.user.theme in {Light, Dark} ==> ToggleTheme(ToggleTheme(w)).user == w.user
    ensures w.user.theme !in {Light, Dark} ==> ToggleTheme(ToggleTheme(w)).user.theme == Dark
  {
  }

  // ---------------------------------------------------------------------
  // Login, language, logout

  /** `attempt_login`: a blank name is refused; a stored, non-empty record
      restores a returning user; otherwise a new user is registered with
      the defaults and saved at once. */
  function AttemptLogin(w: World, entered: string): (r: (World, LoginOutcome))
    ensures r.1 == Rejected <==> AllSpace(entered)
    ensures r.1 == Rejected ==> r.0 == w
    ensures r.1 != Rejected ==> r.0.user.username == Some(Strip(entered)) && ValidUser(r.0.user)
    ensures r.1 != Rejected ==>
              var name := Strip(entered);
              var stored := LoadUserConfig(w.store, name);
              if stored.Some? && stored.value != map[] then
                r.0 == World(FromRecord(name, stored.value), w.store)
                && (r.1 == ToDashboard <==> r.0.user.language.Some? && r.0.user.language.value != [])
              else
                r.0.user == User(Some(name), None, 0, Beginner, Light)
                && r.1 == ToLanguageSelection
                && LoadUserConfig(r.0.store, name) == Some(ToRecord(r.0.user))
                && WroteOnly(w.store, r.0.store, name, ToRecord(r.0.user))
  {
    var name := Strip(entered);
    StripEmptyIffAllSpace(entered);
    StripIdempotent(entered);
    if name == [] then (w, Rejected)
    else
      var stored := LoadUserConfig(w.store, name);
      if stored.Some? && stored.value != map[] then
        var u := FromRecord(name, stored.value);
        (World(u, w.store),
         if u.language.Some? && u.language.value != [] then ToDashboard else ToLanguageSelection)
      else
        (SaveUserState(World(User(Some(name), None, 0, Beginner, Light), w.store)),
         ToLanguageSelection)
  }

  /** `process_language_selection`: only a logged-in user may choose, and
      only one of the supported languages; a failure changes nothing. */
  function ProcessLanguageSelection(w: World, language: string): (r: (World, bool))
    ensures r.1 <==> LoggedIn(w.user) && language in SupportedLanguages
    ensures !r.1 ==> r.0 == w
    ensures r.1 ==> r.0.user == w.user.(language := Some(language))
    ensures r.1 ==> LoadUserConfig(r.0.store, w.user.username.value) == Some(ToRecord(r.0.user))
    ensures r.1 ==> WroteOnly(w.store, r.0.store, w.user.username.value, ToRecord(r.0.user))
  {
    if !LoggedIn(w.user) || language !in SupportedLanguages then (w, false)
    else (SaveUserState(World(w.user.(language := Some(language)), w.store)), true)
  }

  /** `logout`: saves, then clears user, language, progress and level but
      keeps the theme; the interface is sent the initial state, whose theme
      is the default. */
  function Logout(w: World): (r: (World, User))
    ensures r.0.user == w.user.(username := None, language := None, progress := 0, level := Beginner)
    ensures r.0.store == SaveUserState(w).store
    ensures r.1 == Initial
  {
    var saved := SaveUserState(w);
    (World(User(None, None, 0, Beginner, w.user.theme), saved.store), Initial)
  }

  /** `add_exp`: without a user or with a negative amount nothing happens;
      otherwise progress grows by the amount, the level is recomputed from
      the new total (overwriting any stored level) and the state is saved. */
  function AddExp(w: World, amount: int): (r: World)
    ensures !LoggedIn(w.user) || amount < 0 ==> r == w
    ensures LoggedIn(w.user) && amount >= 0 ==>
              r.user == w.user.(progress := w.user.progress + amount,
                                level := CalculateLevel(w.user.progress + amount))
              && LoadUserConfig(r.store, w.user.username.value) == Some(ToRecord(r.user))
              && WroteOnly(w.store, r.store, w.user.username.value, ToRecord(r.user))
  {
    if !LoggedIn(w.user) || amount < 0 then w
    else
      var total := w.user.progress + amount;
      SaveUserState(World(w.user.(progress := total, level := CalculateLevel(total)), w.store))
  }

  // ---------------------------------------------------------------------
  // Properties across transitions

  lemma SameNameSameValidity(u: User, v: User)
    requires ValidUser(u) && v.username == u.username
    ensures ValidUser(v)
  {
  }

  /** Logging in keeps the username stripped and non-empty: a refusal
      leaves the state alone and an accepted name is stored stripped. */
  lemma LoginKeepsValidUser(w: World, entered: string)
    requires ValidUser(w.user)
    ensures ValidUser(AttemptLogin(w, entered).0.user)
  {
  }

  /** The other transitions never change the username except that logout
      clears it, so they keep it stripped and non-empty too. */
  lemma UpdatesKeepValidUser(w: World, language: string, theme: string, amount: int)
    requires ValidUser(w.user)
    ensures ValidUser(ProcessLanguageSelection(w, language).0.user)
    ensures ValidUser(SetTheme(w, theme).user)
    ensures ValidUser(ToggleTheme(w).user)
    ensures ValidUser(Logout(w).0.user)
    ensures ValidUser(AddExp(w, amount).user)
  {
    SameNameSameValidity(w.user, ProcessLanguageSelection(w, language).0.user);
    SameNameSameValidity(w.user, SetTheme(w, theme).user);
    SameNameSameValidity(w.user, ToggleTheme(w).user);
    SameNameSameValidity(w.user, AddExp(w, amount).user);
  }

  /** Logging out and back in under the same name restores the user exactly:
      logout saves the record that login reads. */
  lemma LogoutThenLoginRestores(w: World)
    requires LoggedIn(w.user) && ValidUser(w.user)
    ensures AttemptLogin(Logout(w).0, w.user.username.value).0.user == w.user
  {
    var name := w.user.username.value;
    var out := Logout(w).0;
    assert LoadUserConfig(out.store, name) == Some(ToRecord(w.user));
    assert ToRecord(w.user) != map[] by { assert "level" in ToRecord(w.user); }
    RecordRoundTrip(w.user);
  }

  /** A user just registered by `AttemptLogin` who earns 100 EXP reaches
      Intermediate exactly at the boundary; one who earns 99 stays a
      Beginner with progress 99. */
  lemma FreshUserExperience(w: World, name: string)
    requires name != [] && w.user == User(Some(name), None, 0, Beginner, Light)
    ensures AddExp(w, 100).user.level == Intermediate
    ensures AddExp(w, 99).user == w.user.(progress := 99)
  {
    assert LoggedIn(w.user);
    assert AddExp(w, 100).user.level == CalculateLevel(100);
    assert AddExp(w, 99).user.level == CalculateLevel(99);
  }

  /** The controller as constructed holds the initial state: until someone
      logs in, saving, choosing a language and earning EXP do nothing. */
  lemma NothingBeforeLogin(store: Store, language: string, amount: int)
    ensures ValidUser(Initial)
    ensures SaveUserState(World(Initial, store)) == World(Initial, store)
    ensures ProcessLanguageSelection(World(Initial, store), language) == (World(Initial, store), false)
    ensures AddExp(World(Initial, store), amount) == World(Initial, store)
  {
  }

  /** The language French, offered on the login screen, is refused. */
  lemma FrenchRejected(w: World)
    ensures ProcessLanguageSelection(w, "French") == (w, false)
  {
  }
}
