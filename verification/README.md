# Language Learning Mentor: the user-progress logic in Dafny

Language Learning Mentor is a desktop language tutor. It is a Qt
interface over a crew of language-model agents. Around that glue sits a
small amount of deterministic logic, and this project models it as pure
functions over immutable state:

- **User-progress controller** (`logic/app_controller.py`). A record of
  username, language, progress (EXP), level and theme. Transitions cover
  login or registration, language choice against a whitelist, theme
  toggling, EXP accrual with the level recomputed from five bands, and
  logout. Each transition takes and returns the controller state together
  with the configuration store.
- **Single-file front end** (`gui.py`). It keeps the same record in window
  fields with its own login, theme and save logic. It names files by the
  same rule as the controller. The model shows that the two agree on a stored
  user when they read the same configuration directory, and shows where
  they differ.
- **Configuration store** (`logic/config_manager.py`). The file-name slug
  rule, and the store as a map from file name to decoded JSON object.
  A missing or corrupt file is absent from the map. A file holding valid
  JSON that is not an object is not modelled (see "Left out").
- **Quiz sessions.** These are the quiz screen (with its structural
  validator), the level-test screen and the quiz dialog. The checked Qt
  button is an `Option<string>` holding the option text. Emitted signals are
  returned events. A Python exception raised before any state changes is a
  `Fault` event that leaves the state as it was.
- **Response post-processing** (`logic/language_processor.py`). This covers:
  - level-keyword extraction by priority,
  - `{{ key }}` template substitution,
  - the fallback quiz record when the response is not JSON,
  - the shape of the proficiency analysis.

  The result of JSON decoding is an `Option`.
- **Login-screen input checks** (`gui/login_screen.py`). The stripped,
  non-empty nickname checks and the email pattern `[^@]+@[^@]+\.[^@]+` under
  `re.match`. The pattern is a ghost predicate and is proved equivalent to a
  check on the first `@`.
- **Quiz score tool** (`tools/calculator.py`). `correct - wrong`, printed
  after an Italian prefix.

`str.strip()` and `str.lower()` are modelled on ASCII only:
- whitespace is space, the characters 9 to 13 and the characters 28 to 31;
- lowering maps `A`..`Z` only.

`str.replace` is greedy, left-to-right replacement of non-overlapping
occurrences.

Levels follow the code's experience scale: five half-open bands with
floors 0, 100, 500, 1500 and 3000. The code has no percentage-based level
classifier, so none is modelled.

Modules, one per file:
- `Values`: Option and JSON values.
- `Text`: strip, lower, contains, replace.
- `ConfigStore`
- `Levels`
- `UserState`: the record and its dict form.
- `AppController`
- `MainWindow`: `gui.py`.
- `Questions`: grading shared by the three quiz views.
- `QuizScreen`, `LevelDetection`, `QuizDialog`
- `LanguageProcessor`, `LoginScreen`, `Calculator`

## Model

| member | source | states |
|---|---|---|
| AppController.CalculateLevel | language_learning_mentor/logic/app_controller.py:325-337 | the level is always one of the five level names |
| AppController.CalculateLevelBands | language_learning_mentor/logic/app_controller.py:328-337 | level k is returned exactly when exp is at least floor k (for k > 0) and below floor k+1 (for k < 4); a boundary value belongs to the higher band |
| AppController.CalculateLevelMonotone | language_learning_mentor/logic/app_controller.py:328-337 | more experience never gives an earlier level in the order Beginner < … < Master |
| AppController.SaveUserState | language_learning_mentor/logic/app_controller.py:154-166 | with no logged-in user nothing changes; otherwise the user's file afterwards holds the four-key record of the current state, and the state itself is unchanged; every other file, present or absent, is as it was |
| AppController.SetTheme | language_learning_mentor/logic/app_controller.py:62-70 | the theme becomes the new value; setting the current theme changes neither state nor store; a changed theme of a logged-in user is saved to their file and no other file changes; with nobody logged in the store is untouched |
| AppController.ToggleTheme | language_learning_mentor/logic/app_controller.py:72-75 | the result is "dark" iff the theme was "light", otherwise "light"; all other fields are kept; a logged-in user's file then holds the toggled record and no other file changes; with nobody logged in the store is untouched |
| AppController.ToggleTwice | language_learning_mentor/logic/app_controller.py:62-75 | toggling twice restores "light" or "dark" exactly; from any other theme it ends on "dark" |
| AppController.AttemptLogin | language_learning_mentor/logic/app_controller.py:79-133 | refusal exactly for a blank name, with no state change. A stored non-empty record restores the user, going to the dashboard iff the language is non-empty. Otherwise the user is new (no language, 0 EXP, Beginner, light) and their record is saved at once, with no other file changed |
| AppController.ProcessLanguageSelection | language_learning_mentor/logic/app_controller.py:135-152 | succeeds iff a user is logged in and the language is Italian, Japanese or Spanish; on failure nothing changes; on success the language is set and the record saved, with no other file changed |
| AppController.Logout | language_learning_mentor/logic/app_controller.py:181-202 | saves first, then clears user, language, progress and level but keeps the theme; the interface is sent the initial state (theme light) |
| AppController.AddExp | language_learning_mentor/logic/app_controller.py:300-322 | with no user or a negative amount nothing changes; otherwise progress grows by the amount, the level is recomputed from the new total, replacing any stored level, and the record is saved, with no other file changed |
| AppController.LoginKeepsValidUser | language_learning_mentor/logic/app_controller.py:81-84 | after a login attempt the username is absent or a stripped non-empty name |
| AppController.UpdatesKeepValidUser | language_learning_mentor/logic/app_controller.py:135-202 | language choice, theme changes, logout and EXP gain keep the username absent or stripped and non-empty |
| AppController.LogoutThenLoginRestores | language_learning_mentor/logic/app_controller.py:181-202 | logging out and back in under the same name gives back exactly the user that was logged in |
| AppController.FreshUserExperience | language_learning_mentor/logic/app_controller.py:311-314 | a just-registered user (no language, 0 EXP, Beginner, light) who earns 100 EXP is Intermediate; one who earns 99 stays a Beginner with progress 99 |
| AppController.NothingBeforeLogin | language_learning_mentor/logic/app_controller.py:25-39 | the constructed state (nobody logged in, no language, 0 EXP, Beginner, light) satisfies the username invariant, and saving, choosing a language or earning EXP changes nothing until a login |
| AppController.FrenchRejected | language_learning_mentor/logic/app_controller.py:141-143 | choosing "French" fails and changes nothing |
| ConfigStore.Slug | language_learning_mentor/logic/config_manager.py:19 | the slug has the name's length and contains no unsafe character and no upper-case letter |
| ConfigStore.ConfigFileNameShape | language_learning_mentor/logic/config_manager.py:16-22 | `ConfigFileName`, the model of `get_config_path`, gives slug + ".json" for every non-empty name, and the fallback name is used only for the empty name. A non-empty name can still slug to "default_user" itself (see FallbackCollision) |
| ConfigStore.SlugIdempotent | language_learning_mentor/logic/config_manager.py:19 | sanitising a slug again gives the same slug |
| ConfigStore.SlugCaseInsensitive | language_learning_mentor/logic/config_manager.py:19 | names equal up to ASCII case get the same slug and the same file |
| ConfigStore.SlugCharacters | language_learning_mentor/logic/config_manager.py:19 | a slug character is '_' iff the name's character is unsafe or '_'; any other character is the lowered original |
| ConfigStore.FallbackCollision | language_learning_mentor/logic/config_manager.py:19-21 | the user "Default User" and the empty name share a file |
| ConfigStore.LoadUserConfig | language_learning_mentor/logic/config_manager.py:24-41 | a record is returned iff the user's file is present |
| ConfigStore.WriteConfig | language_learning_mentor/logic/config_manager.py:50-53 | the user's file holds the data afterwards and every other file is unchanged |
| ConfigStore.SaveUserConfig | language_learning_mentor/logic/config_manager.py:44-62 | reports success iff the name is non-empty; an empty name writes nothing; otherwise loading the name gives the data back and every other user's record is unchanged |
| UserState.ToRecord | language_learning_mentor/logic/app_controller.py:159-164 | the saved dict has exactly the keys language, progress, level and theme |
| UserState.FromRecord | language_learning_mentor/logic/app_controller.py:91-95 | missing keys read as no language, 0, Beginner and light; a present key of the type the application writes is kept as stored (a null language reads as no language) |
| UserState.RecordRoundTrip | language_learning_mentor/logic/app_controller.py:154-166 | reading back a saved record gives the user that was saved |
| MainWindow.LoadConfig | language_learning_mentor/gui.py:182-195 | reports success iff a non-empty record is stored, and then loads it with the usual defaults; otherwise nothing changes |
| MainWindow.SaveConfig | language_learning_mentor/gui.py:197-208 | nothing happens without a username; otherwise the user's file holds the current record and no other file changes |
| MainWindow.SetTheme | language_learning_mentor/gui.py:210-219 | the preference is stored whatever its value and the store is untouched |
| MainWindow.ToggleTheme | language_learning_mentor/gui.py:225-229 | the result is "dark" iff the theme was "light", otherwise "light"; a logged-in user's file then holds the toggled record and no other file changes; with nobody logged in the store is untouched |
| MainWindow.ToggleTwice | language_learning_mentor/gui.py:225-229 | toggling twice restores "light" or "dark" exactly; from any other theme it ends on "dark" |
| MainWindow.ShowLoginScreen | language_learning_mentor/gui.py:414-429 | clears user, language, progress and level, keeps the theme and the store |
| MainWindow.HandleLoginAttempt | language_learning_mentor/gui.py:432-454 | a blank name only warns; the dashboard is shown iff the name is not blank and a non-empty record is stored under it, and then that record is loaded; otherwise a new user gets the defaults, keeps the current theme and is saved before language selection, with no other file changed |
| MainWindow.ConfirmLanguage | language_learning_mentor/gui.py:468-475 | any language is taken; a logged-in user's record is saved with no other file changed; with nobody logged in the store is untouched |
| MainWindow.FrontEndsShareRecords | language_learning_mentor/gui.py:40-46 | given one configuration directory for both front ends, a stored user logs in to the same user state in each, because both name files by the same rule. That holds when the program runs from the package directory (gui.py:25 resolves `config` against the working directory) |
| MainWindow.NewUserThemeDiffers | language_learning_mentor/gui.py:445-454 | a new user registering from a dark window stays dark here, but the controller resets a new user to light |
| MainWindow.SaveThenLoginRestores | language_learning_mentor/gui.py:414-454 | saving, returning to the login screen and logging in again restores the user exactly |
| Questions.GradeChoice | language_learning_mentor/gui/quiz_screen.py:142-152 | no selection means nothing to grade; a missing record or answer key is a fault; otherwise the choice is right iff its text equals the stored answer exactly |
| QuizScreen.ItemDefect | language_learning_mentor/gui/quiz_screen.py:75-88 | a question record has no defect iff it is a dict with "question", a non-empty "options" list and an "answer" among the options |
| QuizScreen.ValidateQuizData | language_learning_mentor/gui/quiz_screen.py:69-88 | accepts iff the list is non-empty and every record is well formed; otherwise reports no questions, or the 1-based number of the first bad record and its defect |
| QuizScreen.StartQuiz | language_learning_mentor/gui/quiz_screen.py:48-67 | a missing, non-list or empty quiz changes nothing; otherwise the list is installed with both counters at 0 before validation. The quiz starts iff every record is well formed and the first one can be shown; a non-empty list of well-formed records whose first record cannot be shown ends in the display error, and only such a list; a format error names the first record that is not well formed, 1-based, with its first defect |
| QuizScreen.OnNext | language_learning_mentor/gui/quiz_screen.py:140-170 | nothing is graded exactly when no option is selected, and then nothing changes; otherwise the cursor rises by one and the count by one iff the answer matches; in-progress counters stay ordered; the finishing event comes exactly on answering the last question and carries 10 EXP per right answer, and the questions and cursor are cleared |
| QuizScreen.PlayPrefix | language_learning_mentor/gui/quiz_screen.py:153-160 | after fewer answers than questions the cursor equals the number of answers and the count equals the reference number of right answers |
| QuizScreen.PlayWholeQuiz | language_learning_mentor/gui/quiz_screen.py:161-169 | answering every question emits ten times the reference number of right answers and leaves an empty list with cursor 0 |
| QuizScreen.StaleScoreAfterQuiz | language_learning_mentor/gui/quiz_screen.py:162-168 | after completion the right-answer count is kept with an empty question list, so the count exceeds the cursor |
| QuizScreen.NumericOptionsNotShown | language_learning_mentor/gui/quiz_screen.py:120-133 | a record with numeric options and a numeric answer passes validation but cannot be shown |
| QuizScreen.SingleOptionAccepted | language_learning_mentor/gui/quiz_screen.py:80-88 | a record with one option that is its answer is well formed |
| LevelDetection.StartTest | language_learning_mentor/gui/level_detection_screen.py:47-92 | installs the list with both counters at 0; the loading error is shown iff the list is empty; the first question is shown iff the list is non-empty and its first record is displayable (a dict whose "question" is text or None and whose "options" yield texts); otherwise building the view raises |
| LevelDetection.ResetScreen | language_learning_mentor/gui/level_detection_screen.py:154-158 | empties the list and zeroes both counters |
| LevelDetection.OnNext | language_learning_mentor/gui/level_detection_screen.py:99-124 | nothing is graded exactly when no option is selected, and then nothing changes; otherwise the cursor rises by one and the count iff the answer matches; the last answer emits the raw count, which is at most the number of questions |
| LevelDetection.CompletedTestIsInert | language_learning_mentor/gui/level_detection_screen.py:106-115 | once the cursor is past the last question, further clicks change nothing |
| LevelDetection.PlayCounts | language_learning_mentor/gui/level_detection_screen.py:99-124 | after any answers the cursor counts them and the score is the reference count of right answers |
| LevelDetection.PlayWholeTest | language_learning_mentor/gui/level_detection_screen.py:115-123 | answering every question emits the reference count of right answers |
| QuizDialog.Open | language_learning_mentor/gui/quiz_dialog.py:4-19 | for any decoded value: the dialog opens at question 0 iff the value is a non-empty list whose first record is displayable; otherwise building the first question raises and there is no dialog |
| QuizDialog.AnswerOnlyRecordFails | language_learning_mentor/gui/quiz_dialog.py:13 | a first record holding only an answer gives no dialog, and neither does a single question dict in place of a list |
| QuizDialog.PreparedDataOpens | language_learning_mentor/gui/main_window.py:145-148 | a decoded response that is not a list opens no dialog; the decode-error fallback opens one, but confirming any option raises because its record has no "answer" |
| QuizDialog.OnNext | language_learning_mentor/gui/quiz_dialog.py:24-44 | nothing is graded exactly when no option is selected, and then nothing changes; otherwise each answer, right or wrong, advances the cursor by one; the dialog is accepted exactly when the cursor reaches the end |
| QuizDialog.PlayAdvances | language_learning_mentor/gui/quiz_dialog.py:34-44 | n answers put the cursor at n, and the last of them is an acceptance iff n is the number of questions |
| LanguageProcessor.ExtractLevelFirstKeyword | language_learning_mentor/logic/language_processor.py:117-130 | `ExtractLevel`, the model of `_extract_level_from_response`, returns a level name or the default. It is the default when no keyword occurs in the lowered text, and otherwise the level of the first keyword in priority order |
| LanguageProcessor.ExtractLevelDefaultIff | language_learning_mentor/logic/language_processor.py:120-130 | for a default that is not a level name, the default comes back iff none of the five keywords occurs |
| LanguageProcessor.ExtractLevelIgnoresCase | language_learning_mentor/logic/language_processor.py:119 | texts equal up to ASCII case extract the same level |
| LanguageProcessor.BeginnerBeatsAdvanced | language_learning_mentor/logic/language_processor.py:120-125 | a text with "ADVANCED" before "beginner" is Beginner: priority, not position |
| Text.ReplaceUnchangedIff | language_learning_mentor/logic/language_processor.py:26 | replacing leaves the text unchanged iff the pattern does not occur or the replacement equals the pattern |
| LanguageProcessor.RenderWithoutPlaceholders | language_learning_mentor/logic/language_processor.py:23-27 | `Render`, the model of the substitution loop, leaves a template holding no placeholder of any key unchanged |
| LanguageProcessor.RenderOneKey | language_learning_mentor/logic/language_processor.py:25-26 | with one key, `Render` changes the template iff its placeholder occurs and the value differs from it |
| LanguageProcessor.SetKey | language_learning_mentor/logic/language_processor.py:27 | keys stay distinct; an existing key keeps its position and takes the new value while every other entry is unchanged; a new key is appended |
| LanguageProcessor.SetKeyLookup | language_learning_mentor/logic/language_processor.py:27 | after the assignment the key reads as the new value and every other key reads as before |
| LanguageProcessor.TaskInputs | language_learning_mentor/logic/language_processor.py:21-27 | without a non-empty template the inputs are unchanged. With one, "task" reads as the template rendered from the inputs as given, every other key reads as before, and keys stay distinct |
| LanguageProcessor.TaskReplacedInPlace | language_learning_mentor/logic/language_processor.py:54-60 | when the caller already passes "task", the rendered template replaces it in place and the inputs keep their length |
| LanguageProcessor.PrepareQuizData | language_learning_mentor/logic/language_processor.py:79-86 | decoded JSON is returned as is; a decoding failure gives a one-element list |
| LanguageProcessor.FallbackRejectedByQuizScreen | language_learning_mentor/logic/language_processor.py:82-86 | the fallback record has one option and "correct_answer" instead of "answer", so the quiz screen rejects it for a missing answer |
| LanguageProcessor.AnalyzeProficiency | language_learning_mentor/logic/language_processor.py:102-115 | a dict response supplies both fields, with "" and the user's level as defaults; any other response is the feedback text, and the estimate is what the keyword extractor returns for that text with the user's level as default (so a level name or the user's level) |
| LoginScreen.EveryLanguageHasEmoji | language_learning_mentor/gui/login_screen.py:16-22 | every offered language has a flag |
| LoginScreen.OfferedLanguageRefused | language_learning_mentor/gui/login_screen.py:16 | one offered language (French) is outside the controller's whitelist, and choosing it changes nothing |
| LoginScreen.HandleLogin | language_learning_mentor/gui/login_screen.py:118-125 | nothing is emitted iff the nickname is blank; otherwise the stripped non-empty nickname is emitted |
| LoginScreen.EmittedLoginAccepted | language_learning_mentor/gui/login_screen.py:118-125 | every emitted nickname is accepted by the controller and becomes the username unchanged |
| LoginScreen.EmailShapeMatchesPattern | language_learning_mentor/gui/login_screen.py:173 | `EmailShapeOk`, the model of the `re.match` check, holds iff `re.match` of the pattern succeeds; it is a first-'@' check |
| LoginScreen.TrailingTextAccepted | language_learning_mentor/gui/login_screen.py:173 | "a@b.c@x" passes, since the match is anchored at the start only |
| LoginScreen.EmailShapeNeedsLocalPart | language_learning_mentor/gui/login_screen.py:173 | a text without '@', or starting with '@', fails |
| LoginScreen.HandleRegister | language_learning_mentor/gui/login_screen.py:165-177 | the stripped pair is emitted iff both fields are non-blank and the stripped email passes the check |
| LoginScreen.RegisteredEmailMatches | language_learning_mentor/gui/login_screen.py:173-177 | whenever a pair is emitted, its email matches the pattern |
| Calculator.Score | language_learning_mentor/tools/calculator.py:15 | score + wrong = correct; the score is negative iff wrong > correct |
| Calculator.IntRoundTrip | language_learning_mentor/tools/calculator.py:16 | the signed decimal text of an integer reads back as that integer |
| Calculator.RunReportsScore | language_learning_mentor/tools/calculator.py:14-16 | `Run`, the model of `_run`, prints "Punteggio finale: " followed by text that reads back as correct - wrong |
| Calculator.RunInjectiveOnScore | language_learning_mentor/tools/calculator.py:14-16 | equal reports mean equal scores |
| Calculator.ScoreMonotone | language_learning_mentor/tools/calculator.py:15 | more right answers never lower the score; more wrong ones never raise it |
| Calculator.NegativeScoreReported | language_learning_mentor/tools/calculator.py:15-16 | three right and five wrong report "Punteggio finale: -2" |

## Left out

- Qt widgets, layouts, palettes, style sheets, message boxes and dashboard text. They are presentation.
- Signals and threads are left out, except where a returned value stands in for a signal. This covers the daily tip, the quiz and the level-detection requests of the controller, which run agent tasks on background threads.
- File I/O is abstract. The store is a map from file name to decoded object. A missing, unreadable or corrupt file is absent from it, and a write always succeeds, so the `IOError` branches are not modelled.
- A configuration file holding valid JSON that is not an object is not modelled. `load_user_config` returns whatever `json.load` decodes (logic/config_manager.py:30, gui.py:53). A falsy value (`[]`, `""`, `0`, `null`) fails the `if config_data:` test (logic/app_controller.py:88, gui.py:185), so `attempt_login` and `handle_login_attempt` treat the name as a new user and overwrite the file. A truthy one (`[1]`, `"x"`, `5`, `true`) makes `config_data.get` raise `AttributeError` (logic/app_controller.py:92, gui.py:187). Only the application's own writes, which are always objects, are in the store.
- Agent construction and `Crew.kickoff` are left out, because they are calls into a library whose output is not deterministic. Their result is a parameter: the response text, or the result of `json.loads` as an `Option`.
- The email sender and its test are left out: they are a print stub and SMTP network I/O. `main.py` is left out: it is start-up wiring.
- Unicode case mapping and Unicode whitespace are left out; `lower()` and `strip()` are modelled on ASCII only.
- JSON floats are not modelled, and neither is Python's `True == 1` equality between JSON values. Grading and validation compare decoded values structurally.
- UserState.FromRecord: a stored field whose JSON type the application never writes is read as that key's default. For example, a number stored as the language reads as no language. Python would keep the value as it is.
- LanguageProcessor.Render: each value is given as the text `str(value)` produces; that conversion itself is not modelled. It matters only for non-string inputs such as the number of quiz questions.
- LanguageProcessor.AnalyzeProficiency: a non-dict response is taken by its text. `str()` of arbitrary Python objects is not modelled.
- The first `_start_registration_flow` and `_handle_register_button_click` of the login screen are left out, because the later definitions in the class replace them.
- `gui.py`'s `load_user_config`/`save_user_config` differ from the config manager's in their error handling. They also differ in where the directory is: `gui.py` uses `config` under the working directory (gui.py:25), while the config manager uses `config` next to the package (logic/config_manager.py:10-11). The model gives both front ends one store, which is the case only when the program runs from the package directory. `gui.py`'s save has no empty-name guard.
- MainWindow.FrontEndsShareRecords: stated for one shared store; the two directories can differ, as the line above says.
- QuizScreen.OnNext: the in-progress bound `correct <= current <= len(questions)` is stated for steps that do not finish the quiz. On completion the code clears the list and the cursor but keeps the count, so the bound fails afterwards. `QuizScreen.StaleScoreAfterQuiz` shows this.
- QuizScreen.OnNext, LevelDetection.OnNext, QuizDialog.OnNext: after a step that is not the last, the next question's view is built, and that raises for a record that is not displayable. The step's state change stands, but the event does not record the failure, and later clicks on the half-built view are not modelled.
- QuizDialog.OnNext: rebuilding the view after a non-final answer passes the button group, which is not a widget, to `removeWidget` (gui/quiz_dialog.py:40). By reading of the Qt bindings this raises `TypeError` after the cursor has moved and the old buttons were scheduled for deletion. In that case the second question is never built and a dialog of two or more questions cannot reach `accept()`. The model takes the rebuild as succeeding, since this depends on the Qt bindings' argument checking, which is outside the model.
- The widget constructors are taken to accept text or `None` and to raise on any other value. That is the rule `Questions.Displayable` encodes.
