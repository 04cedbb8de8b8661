/** The user-progress record shared by `logic/app_controller.py` and
    `gui.py`: who is logged in, the target language, experience points,
    the level name and the theme preference, together with the JSON
    object both write to and read from the configuration store. */
module UserState {
  import opened Values
  import opened Levels
  import opened ConfigStore

  datatype User = User(
    username: Option<string>,
    language: Option<string>,
    progress: int,
    level: string,
    theme: string)

  const Light: string := "light"
  const Dark: string := "dark"

  /** The state the controller is constructed with: nobody logged in. */
  const Initial: User := User(None, None, 0, Beginner, Light)

  /** Python `if not self._username`: no user, or the empty name. */
  predicate LoggedIn(u: User) {
    u.username.Some? && u.username.value != []
  }

  /** The dict `save_user_state` / `save_config` writes. */
  function ToRecord(u: User): (r: Record)
    ensures r.Keys == {"language", "progress", "level", "theme"}
  {
    map[
      "language" := (if u.language.Some? then JStr(u.language.value) else JNull),
      "progress" := JInt(u.progress),
      "level" := JStr(u.level),
      "theme" := JStr(u.theme)]
  }

  /** `data.get('language', None)`. */
  function ReadLanguage(data: Record): Option<string> {
    var v := Get(data, "language", JNull);
    if v.JStr? then Some(v.s) else None
  }

  /** `data.get('progress', 0)`. */
  function ReadProgress(data: Record): int {
    var v := Get(data, "progress", JInt(0));
    if v.JInt? then v.i else 0
  }

  /** `data.get(key, default)` for a text field. */
  function ReadText(data: Record, key: string, default: string): string {
    var v := Get(data, key, JStr(default));
    if v.JStr? then v.s else default
  }

  /** The state a returning user gets from a stored record. */
  function FromRecord(name: string, data: Record): (u: User)
    ensures u.username == Some(name)
    ensures "language" !in data ==> u.language == None
    ensures "progress" !in data ==> u.progress == 0
    ensures "level" !in data ==> u.level == Beginner
    ensures "theme" !in data ==> u.theme == Light
    ensures "language" in data && data["language"].JStr? ==> u.language == Some(data["language"].s)
    ensures "language" in data && data["language"].JNull? ==> u.language == None
    ensures "progress" in data && data["progress"].JInt? ==> u.progress == data["progress"].i
    ensures "level" in data && data["level"].JStr? ==> u.level == data["level"].s
    ensures "theme" in data && data["theme"].JStr? ==> u.theme == data["theme"].s
  {
    User(Some(name), ReadLanguage(data), ReadProgress(data),
         ReadText(data, "level", Beginner), ReadText(data, "theme", Light))
  }

  /** What is saved is what is loaded back. */
  lemma RecordRoundTrip(u: User)
    requires u.username.Some?
    ensures FromRecord(u.username.value, ToRecord(u)) == u
  {
  }
}
