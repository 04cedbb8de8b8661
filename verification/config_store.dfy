/** The per-user configuration store of `logic/config_manager.py`. The
    directory of JSON files is abstracted as a map from file name to the
    decoded JSON object; a file that is missing, unreadable or not valid
    JSON is absent from the map. */
module ConfigStore {
  import opened Values
  import opened Text

  /** A decoded configuration file (a JSON object). */
  type Record = map<string, Json>

  /** The configuration directory: file name to contents. */
  type Store = map<string, Record>

  /** The characters `get_config_path` replaces by `_`:
      backslash, slash, star, question mark, colon, double quote,
      less-than, greater-than, bar and space. */
  predicate IsUnsafe(c: char) {
    c in {'\\', '/', '*', '?', ':', '\"', '<', '>', '|', ' '}
  }

  function SafeChar(c: char): char {
    if IsUnsafe(c) then '_' else c
  }

  /** `re.sub` of each unsafe character by `_` in `username.lower()`. */
  function Slug(username: string): (r: string)
    ensures |r| == |username|
    ensures forall i :: 0 <= i < |r| ==> !IsUnsafe(r[i]) && !IsUpper(r[i])
  {
    var lower := Lower(username);
    seq(|lower|, i requires 0 <= i < |lower| => SafeChar(lower[i]))
  }

  const FallbackName: string := "default_user"
  const Extension: string := ".json"

  /** The file name `get_config_path` builds for `username`. */
  function ConfigFileName(username: string): string {
    var slug := Slug(username);
    (if slug == [] then FallbackName else slug) + Extension
  }

  /** The file name is the slug plus `.json`, the slug has one character
      per character of the name and none of them unsafe, and the
      fallback name is used for the empty name only. */
  lemma ConfigFileNameShape(username: string)
    ensures username != [] ==> ConfigFileName(username) == Slug(username) + Extension
    ensures username == [] <==> ConfigFileName(username) == FallbackName + Extension
                                && Slug(username) == []
    ensures |Slug(username)| == |username|
    ensures forall i :: 0 <= i < |Slug(username)| ==> !IsUnsafe(Slug(username)[i])
  {
  }

  /** Sanitising a slug again changes nothing. */
  lemma SlugIdempotent(username: string)
    ensures Slug(Slug(username)) == Slug(username)
  {
    var s := Slug(username);
    var t := Slug(s);
    forall i | 0 <= i < |s|
      ensures t[i] == s[i]
    {
      assert Lower(s)[i] == s[i];
    }
  }

  /** Names that differ only in the case of ASCII letters share a file. */
  lemma SlugCaseInsensitive(a: string, b: string)
    requires Lower(a) == Lower(b)
    ensures Slug(a) == Slug(b)
    ensures ConfigFileName(a) == ConfigFileName(b)
  {
  }

  /** Each character of the slug is the lowered character of the name,
      or `_` exactly where that lowered character is unsafe. */
  lemma SlugCharacters(username: string, i: int)
    requires 0 <= i < |username|
    ensures Slug(username)[i] == '_' <==> IsUnsafe(username[i]) || username[i] == '_'
    ensures !IsUnsafe(username[i]) ==> Slug(username)[i] == LowerChar(username[i])
  {
  }

  /** The user "Default User" and the empty name read and write the same file. */
  lemma FallbackCollision()
    ensures ConfigFileName("Default User") == ConfigFileName("")
  {
    assert Slug("Default User") == "default_user";
  }

  /** `load_user_config`: the decoded file, or `None`. */
  function LoadUserConfig(store: Store, username: string): (r: Option<Record>)
    ensures r.Some? <==> ConfigFileName(username) in store
  {
    var path := ConfigFileName(username);
    if path in store then Some(store[path]) else None
  }

  /** Writing `data` to the user's file (the `json.dump` both front ends share). */
  function WriteConfig(store: Store, username: string, data: Record): (r: Store)
    ensures r.Keys == store.Keys + {ConfigFileName(username)}
    ensures r[ConfigFileName(username)] == data
    ensures forall path :: path in store && path != ConfigFileName(username) ==> r[path] == store[path]
  {
    store[ConfigFileName(username) := data]
  }

  /** `after` is `before` with the user's file set to `data` and every
      other file, present or absent, exactly as it was. */
  predicate WroteOnly(before: Store, after: Store, username: string, data: Record) {
    && after.Keys == before.Keys + {ConfigFileName(username)}
    && after[ConfigFileName(username)] == data
    && forall path :: path in before && path != ConfigFileName(username) ==> after[path] == before[path]
  }

  /** `save_user_config`: refuses an empty name and writes nothing;
      otherwise writes the record and reports success. */
  function SaveUserConfig(store: Store, username: string, data: Record): (r: (Store, bool))
    ensures r.1 <==> username != []
    ensures !r.1 ==> r.0 == store
    ensures r.1 ==> LoadUserConfig(r.0, username) == Some(data)
    ensures r.1 ==> forall other :: ConfigFileName(other) != ConfigFileName(username) ==>
                      LoadUserConfig(r.0, other) == LoadUserConfig(store, other)
    ensures r.1 ==> WroteOnly(store, r.0, username, data)
  {
    if username == [] then (store, false)
    else (WriteConfig(store, username, data), true)
  }
}
