/** The single-file front end `gui.py`: the same user-progress record kept
    in window fields, with its own login, theme and logout logic. It shares
    the configuration file naming and record format with the controller. */
module MainWindow {
  import opened Values
  import opened Text
  import opened Levels
  import opened ConfigStore
  import opened UserState
  import AppController

  datatype Window = Window(user: User, store: Store)

  /** What `handle_login_attempt` shows next. */
  datatype Screen = InputRequired | Dashboard | LanguageSelection

  /** `load_config`: a stored non-empty record replaces user, language,
      progress, level and theme, with the usual defaults for missing keys;
      otherwise it reports `False` and changes nothing. */
  function LoadConfig(w: Window, username: string): (r: (Window, bool))
    ensures r.1 <==> LoadUserConfig(w.store, username).Some?
                     && LoadUserConfig(w.store, username).value != map[]
    ensures !r.1 ==> r.0 == w
    ensures r.1 ==> r.0 == Window(FromRecord(username, LoadUserConfig(w.store, username).value), w.store)
  {
    var stored := LoadUserConfig(w.store, username);
    if stored.Some? && stored.value != map[] then (Window(FromRecord(username, stored.value), w.store), true)
    else (w, false)
  }

  /** `save_config`: nothing without a username; otherwise the record is
      written (this front end's `save_user_config` has no guard of its own). */
  function SaveConfig(w: Window): (r: Window)
    ensures r.user == w.user
    ensures !LoggedIn(w.user) ==> r == w
    ensures LoggedIn(w.user) ==> LoadUserConfig(r.store, w.user.username.value) == Some(ToRecord(w.user))
    ensures LoggedIn(w.user) ==> WroteOnly(w.store, r.store, w.user.username.value, ToRecord(w.user))
  {
    if !LoggedIn(w.user) then w
    else Window(w.user, WriteConfig(w.store, w.user.username.value, ToRecord(w.user)))
  }

  /** `set_theme`: stores the preference unconditionally (the palette is
      presentation). */
  function SetTheme(w: Window, theme: string): (r: Window)
    ensures r.user == w.user.(theme := theme) && r.store == w.store
  {
    Window(w.user.(theme := theme), w.store)
  }

  /** `toggle_theme`: flips light to dark and anything else to light, then saves. */
  function ToggleTheme(w: Window): (r: Window)
    ensures r.user.theme == Dark <==> w.user.theme == Light
    ensures r.user == w.user.(theme := if w.user.theme == Light then Dark else Light)
    ensures LoggedIn(w.user) ==> LoadUserConfig(r.store, w.user.username.value) == Some(ToRecord(r.user))
    ensures LoggedIn(w.user) ==> WroteOnly(w.store, r.store, w.user.username.value, ToRecord(r.user))
    ensures !LoggedIn(w.user) ==> r.store == w.store
  {
    SaveConfig(SetTheme(w, if w.user.theme == Light then Dark else Light))
  }

  /** Toggling twice from "light" or "dark" restores the preference; from
      any other value it ends on "dark". */
  lemma ToggleTwice(w: Window)
    ensures w.user.theme in {Light, Dark} ==> ToggleTheme(ToggleTheme(w)).user == w.user
    ensures w.user.theme !in {Light, Dark} ==> ToggleTheme(ToggleTheme(w)).user.theme == Dark
  {
  }

  /** `show_login_screen`: clears the user but keeps the theme. */
  function ShowLoginScreen(w: Window): (r: Window)
    ensures r.user == w.user.(username := None, language := None, progress := 0, level := Beginner)
    ensures r.store == w.store
  {
    Window(User(None, None, 0, Beginner, w.user.theme), w.store)
  }

  /** `handle_login_attempt`: a blank name only warns; a returning user is
      loaded; a new user gets the defaults, keeps the current theme, and is
      saved before choosing a language. */
  function HandleLoginAttempt(w: Window, entered: string): (r: (Window, Screen))
    ensures r.1 == InputRequired <==> AllSpace(entered)
    ensures r.1 == InputRequired ==> r.0 == w
    ensures r.1 == Dashboard <==> !AllSpace(entered) && LoadConfig(w, Strip(entered)).1
    ensures r.1 == Dashboard ==> r.0 == LoadConfig(w, Strip(entered)).0
    ensures r.1 == LanguageSelection ==>
              r.0.user == User(Some(Strip(entered)), None, 0, Beginner, w.user.theme)
              && LoadUserConfig(r.0.store, Strip(entered)) == Some(ToRecord(r.0.user))
              && WroteOnly(w.store, r.0.store, Strip(entered), ToRecord(r.0.user))
    ensures r.1 != InputRequired ==> r.0.user.username == Some(Strip(entered))
  {
    var name := Strip(entered);
    StripEmptyIffAllSpace(entered);
    if name == [] then (w, InputRequired)
    else
      var (loaded, found) := LoadConfig(w, name);
      if found then (loaded, Dashboard)
      else (SaveConfig(Window(User(Some(name), None, 0, Beginner, w.user.theme), w.store)),
            LanguageSelection)
  }

  /** `confirm_language`: any language is accepted and saved. */
  function ConfirmLanguage(w: Window, language: string): (r: Window)
    ensures r.user == w.user.(language := Some(language))
    ensures LoggedIn(w.user) ==> LoadUserConfig(r.store, w.user.username.value) == Some(ToRecord(r.user))
    ensures LoggedIn(w.user) ==> WroteOnly(w.store, r.store, w.user.username.value, ToRecord(r.user))
    ensures !LoggedIn(w.user) ==> r.store == w.store
  {
    SaveConfig(Window(w.user.(language := Some(language)), w.store))
  }

  /** Both front ends name configuration files alike, so when they read the
      same configuration directory (the store `c.store` given to both), a
      user stored by one logs in to the same state in the other. */
  lemma FrontEndsShareRecords(c: AppController.World, entered: string)
    requires !AllSpace(entered)
    ensures var (w, _) := HandleLoginAttempt(Window(c.user, c.store), entered);
            var (c', _) := AppController.AttemptLogin(c, entered);
            LoadUserConfig(c.store, Strip(entered)).Some? && LoadUserConfig(c.store, Strip(entered)).value != map[]
            ==> w.user == c'.user
  {
  }

  /** A new user registering from a dark window keeps dark here, while the
      controller resets a new user to light. */
  lemma NewUserThemeDiffers(w: Window, entered: string)
    requires !AllSpace(entered) && w.user.theme == Dark
    requires ConfigFileName(Strip(entered)) !in w.store
    ensures HandleLoginAttempt(w, entered).0.user.theme == Dark
    ensures AppController.AttemptLogin(AppController.World(w.user, w.store), entered).0.user.theme == Light
  {
  }

  /** Logging out and back in restores the record saved while logged in. */
  lemma SaveThenLoginRestores(w: Window)
    requires LoggedIn(w.user) && Strip(w.user.username.value) == w.user.username.value
    ensures HandleLoginAttempt(ShowLoginScreen(SaveConfig(w)), w.user.username.value).0.user == w.user
  {
    var name := w.user.username.value;
    var out := ShowLoginScreen(SaveConfig(w));
    assert LoadUserConfig(out.store, name) == Some(ToRecord(w.user));
    assert ToRecord(w.user) != map[] by { assert "level" in ToRecord(w.user); }
    StripEmptyIffAllSpace(name);
    RecordRoundTrip(w.user);
  }
}
