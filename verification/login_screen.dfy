/** `gui/login_screen.py`: the input checks of the login and registration
    handlers and the language buttons. Signals are returned values: `None`
    where the handler only shows a warning. */
module LoginScreen {
  import opened Values
  import opened Text
  import AppController

  // ---------------------------------------------------------------------
  // Languages

  const Languages: seq<string> := ["Italian", "French", "Spanish"]

  /** The flag shown on each language button (pairs of regional indicators). */
  const LanguageEmojis: map<string, string> := map[
    "Italian" := "\U{1F1EE}\U{1F1F9}",
    "French" := "\U{1F1EB}\U{1F1F7}",
    "Spanish" := "\U{1F1EA}\U{1F1F8}"]

  /** Building the buttons looks up every language's flag: none is missing. */
  lemma EveryLanguageHasEmoji()
    ensures forall i :: 0 <= i < |Languages| ==> Languages[i] in LanguageEmojis
  {
  }

  /** A button on this screen offers French, which the controller refuses,
      so that choice leaves the controller as it was. */
  lemma OfferedLanguageRefused(w: AppController.World)
    ensures exists i :: 0 <= i < |Languages| && Languages[i] !in AppController.SupportedLanguages
    ensures AppController.ProcessLanguageSelection(w, Languages[1]) == (w, false)
  {
    assert Languages[1] == "French";
  }

  // ---------------------------------------------------------------------
  // Login

  /** `_handle_login_button_click`: the stripped nickname, unless blank. */
  function HandleLogin(nickname: string): (r: Option<string>)
    ensures r.None? <==> AllSpace(nickname)
    ensures r.Some? ==> r.value == Strip(nickname) && r.value != []
  {
    StripEmptyIffAllSpace(nickname);
    var name := Strip(nickname);
    if name == [] then None else Some(name)
  }

  /** A nickname this screen emits is never refused by the controller, and
      the controller logs in under exactly that name. */
  lemma EmittedLoginAccepted(w: AppController.World, nickname: string)
    requires HandleLogin(nickname).Some?
    ensures AppController.AttemptLogin(w, HandleLogin(nickname).value).1 != AppController.Rejected
    ensures AppController.AttemptLogin(w, HandleLogin(nickname).value).0.user.username
            == HandleLogin(nickname)
  {
    var name := HandleLogin(nickname).value;
    StripIdempotent(nickname);
    StripEmptyIffAllSpace(name);
  }

  // ---------------------------------------------------------------------
  // Email shape

  predicate NoAt(s: string) {
    forall i :: 0 <= i < |s| ==> s[i] != '@'
  }

  /** `[^@]+@[^@]+\.[^@]+` matches `s` from position 0 up to `k`, with the
      '@' at `i` and the literal dot at `j`. */
  ghost predicate MatchesUpTo(s: string, i: int, j: int, k: int) {
    && 1 <= i && i + 2 <= j && j + 2 <= k <= |s|
    && s[i] == '@' && s[j] == '.'
    && NoAt(s[..i]) && NoAt(s[i + 1..j]) && NoAt(s[j + 1..k])
  }

  /** `re.match` succeeds: some prefix of `s` matches the pattern (the
      match is anchored at the start only). */
  ghost predicate PatternMatches(s: string) {
    exists i, j, k :: MatchesUpTo(s, i, j, k)
  }

  /** Index of the first `c` in `s`. */
  function IndexOf(s: string, c: char): (r: Option<nat>)
    ensures r.None? <==> forall i :: 0 <= i < |s| ==> s[i] != c
    ensures r.Some? ==> r.value < |s| && s[r.value] == c
                        && forall i :: 0 <= i < r.value ==> s[i] != c
    decreases |s|
  {
    if |s| == 0 then None
    else if s[0] == c then Some(0)
    else
      match IndexOf(s[1..], c)
      case None => None
      case Some(n) => Some(n + 1)
  }

  /** The text after the first '@', up to the next '@' or the end. */
  function Domain(s: string, at: nat): (d: string)
    requires at < |s|
    ensures NoAt(d) && |d| <= |s| - at - 1 && d == s[at + 1..at + 1 + |d|]
    ensures at + 1 + |d| < |s| ==> s[at + 1 + |d|] == '@'
  {
    var rest := s[at + 1..];
    match IndexOf(rest, '@')
    case None => rest
    case Some(n) => rest[..n]
  }

  /** The email check in terms of the first '@': something before it, and
      a dot with a character on each side between it and the next '@'. */
  predicate EmailShapeOk(s: string) {
    match IndexOf(s, '@')
    case None => false
    case Some(at) =>
      at >= 1 && var d := Domain(s, at);
      exists p | 1 <= p < |d| - 1 :: d[p] == '.'
  }

  lemma ShapeGivesMatch(s: string)
    requires EmailShapeOk(s)
    ensures PatternMatches(s)
  {
    var at := IndexOf(s, '@').value;
    var d := Domain(s, at);
    var p :| 1 <= p < |d| - 1 && d[p] == '.';
    var j := at + 1 + p;
    var k := at + 1 + |d|;
    assert 1 <= at && at + 2 <= j && j + 2 <= k <= |s|;
    assert s[at] == '@' && s[j] == d[p];
    assert NoAt(s[..at]);
    assert NoAt(s[at + 1..j]) by {
      assert s[at + 1..j] == d[..p];
    }
    assert NoAt(s[j + 1..k]) by {
      assert s[j + 1..k] == d[p + 1..];
    }
    assert MatchesUpTo(s, at, j, k);
  }

  lemma MatchGivesShape(s: string, i: int, j: int, k: int)
    requires MatchesUpTo(s, i, j, k)
    ensures EmailShapeOk(s)
  {
    var first := IndexOf(s, '@');
    assert s[..i][0] == s[0];
    assert first == Some(i);
    var d := Domain(s, i);
    assert d[j - i - 1] == s[j];
  }

  /** The first-'@' description holds exactly when the regular expression matches. */
  lemma EmailShapeMatchesPattern(s: string)
    ensures EmailShapeOk(s) <==> PatternMatches(s)
  {
    if EmailShapeOk(s) {
      ShapeGivesMatch(s);
    }
    if PatternMatches(s) {
      var i, j, k :| MatchesUpTo(s, i, j, k);
      MatchGivesShape(s, i, j, k);
    }
  }

  /** Text after a matching prefix does not matter: "a@b.c@x" passes. */
  lemma TrailingTextAccepted()
    ensures EmailShapeOk("a@b.c@x")
  {
    assert IndexOf("a@b.c@x", '@') == Some(1);
    assert Domain("a@b.c@x", 1) == "b.c";
  }

  /** No '@' at all, or nothing before the first one, fails. */
  lemma EmailShapeNeedsLocalPart(s: string)
    ensures (forall i :: 0 <= i < |s| ==> s[i] != '@') ==> !EmailShapeOk(s)
    ensures |s| > 0 && s[0] == '@' ==> !EmailShapeOk(s)
  {
  }

  // ---------------------------------------------------------------------
  // Registration

  /** The registration handler in effect (the later definition): both
      stripped fields must be non-empty (that is, neither field is blank,
      by `StripEmptyIffAllSpace`) and the email must pass the check; then
      the stripped pair is emitted. */
  function HandleRegister(nickname: string, email: string): (r: Option<(string, string)>)
    ensures r.Some? <==> Strip(nickname) != [] && Strip(email) != [] && EmailShapeOk(Strip(email))
    ensures r.Some? ==> r.value == (Strip(nickname), Strip(email))
  {
    StripEmptyIffAllSpace(nickname);
    StripEmptyIffAllSpace(email);
    var nick := Strip(nickname);
    var mail := Strip(email);
    if nick == [] || mail == [] then None
    else if !EmailShapeOk(mail) then None
    else Some((nick, mail))
  }

  /** Registration emits only addresses the pattern matches. */
  lemma RegisteredEmailMatches(nickname: string, email: string)
    ensures HandleRegister(nickname, email).Some? ==>
              PatternMatches(HandleRegister(nickname, email).value.1)
  {
    EmailShapeMatchesPattern(Strip(email));
  }
}
