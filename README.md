# iPhone detector for macOS: a Dafny model of its decision logic

The system watches a webcam, decides with three image heuristics whether an
iPhone is in view, and texts a configured recipient through the macOS
Messages app, with a cooldown between messages. A separate setup checker
validates `config.json` and reports whether the environment is ready.

This project models the parts of that system that decide things:

- `macos_messenger.dfy` (module `MacosMessenger`) covers the Messages sender:
  - how a recipient is normalised (a phone number, or an e-mail passed through);
  - how text is escaped for the AppleScript string literal;
  - which service the script asks for;
  - the fallback from the direct script to the "new chat" script;
  - the send cooldown;
  - the test message that tries iMessage and then SMS;
  - the parse of the services list, and the permission check built on it.
- `iphone_detector.dfy` (module `IphoneDetector`) covers the detector:
  - the configuration load and its merge over the built-in defaults;
  - the detection-area test;
  - how the three detectors' answers combine into one detection;
  - the choice of recipient;
  - the main loop's detection counter and notification cooldown.
- `test_setup.dfy` (module `SetupTest`) covers the setup checker: the
  configuration validator and how `main` folds the four checks into one
  verdict. `test_setup.py` and `archive/test_setup.py` are byte-identical, so
  one module models both.
- `values.dfy` (module `Values`) gives the Python values these scripts handle:
  - parsed JSON;
  - truthiness;
  - `dict.get`;
  - numeric coercion in comparisons;
  - an exception as the `Raised` outcome.
- `strings.dfy` (module `Strings`) gives the `str` operations they use:
  `replace` with a one-character pattern, `isdigit`, `strip`, `split` and the
  `in` substring test.

Anything outside the program's own logic is an input:

- Running `osascript` is an abstract `RunResult`: an exit code, a timeout, or
  another exception.
- The clock is a `real` parameter.
- A camera frame is the three heuristics' answers.
- The key pressed is an integer.
- Reading `config.json` is a `ConfigFile`: missing, unreadable, or a parsed
  document.
- The import, camera and messaging probes of the setup checker are their
  outcomes.

## Model

| member | source | states |
|---|---|---|
| MacosMessenger.Stripped | macos_messenger.py:84 | the chained `replace` calls delete exactly `+`, `-`, space, `(` and `)` and keep every other character |
| MacosMessenger.PhoneChars | macos_messenger.py:87 | the kept phone string consists of digits and `+` only |
| MacosMessenger.PhoneCharsMembers | macos_messenger.py:87 | a character is kept exactly when it occurs in the recipient and is a digit or `+` |
| MacosMessenger.PhoneCharsAppend | macos_messenger.py:87 | keeping digits and `+` is a filter: it distributes over concatenation, so the kept characters stay in order |
| MacosMessenger.PhoneCharsSingle | macos_messenger.py:87 | one character is kept exactly when it is a digit or `+` |
| MacosMessenger.PhoneCharsKeepsAll | macos_messenger.py:87 | a string of digits and `+` is kept whole |
| MacosMessenger.FormatRecipient | macos_messenger.py:81-96 | a recipient that is not digits after removing `+ - ( )` and spaces is returned unchanged; a phone number becomes its digits and `+` characters, behind the US prefix rule |
| MacosMessenger.PhonePrefixRule | macos_messenger.py:88-93 | ten kept characters get `+1`, eleven starting with `1` get `+`, any other length is returned as kept (a `+` counts toward the length) |
| MacosMessenger.FormatIdempotent | macos_messenger.py:81-96 | formatting an already formatted recipient leaves it unchanged |
| MacosMessenger.EscapePerChar | macos_messenger.py:39-40 | the escaping as written (`Escape`) works per character: a quote becomes `\\"`, a backslash becomes `\\`, every other character stays |
| MacosMessenger.EscapeLength | macos_messenger.py:39-40 | the escaped text is longer by two per quote and by one per backslash |
| MacosMessenger.EscapeBreaksLiteral | macos_messenger.py:39-40 | as written, a message made of one quote escapes to `\\"`, which AppleScript reads as one backslash followed by the closing quote |
| MacosMessenger.EscapeForAppleScriptRoundTrip | macos_messenger.py:102-103 | with backslashes doubled before quotes are escaped, the AppleScript literal reads back exactly the original text, and nothing after the closing quote is consumed |
| MacosMessenger.ScriptsNameRecipient | macos_messenger.py:36-53 | when the formatted recipient holds no quote and no backslash, every script a send runs names it as its buddy once AppleScript reads the literal written with the escaping as written |
| MacosMessenger.EscapingsAgreeOnPlainText | macos_messenger.py:39-40 | on text without quotes or backslashes both escapings leave the text unchanged, so the two orders differ only on those characters |
| MacosMessenger.PhoneBuddyUnescaped | macos_messenger.py:36-40 | the buddy literal of a phone number is the formatted number itself: the escaping as written leaves it untouched |
| MacosMessenger.PhoneScriptsNameRecipient | macos_messenger.py:36-53 | for a phone number, every script a send runs names the formatted number as its buddy |
| MacosMessenger.QuotedBuddyMisread | macos_messenger.py:36-53 | as written, the e-mail recipient `a"b` is passed through unformatted and escaped to `a\\"b`, which AppleScript reads as the buddy `a\`, with `b"` left over after the literal |
| MacosMessenger.ServiceOf | macos_messenger.py:43-46 | the script asks for iMessage exactly when the service is the string `"iMessage"`, and for SMS otherwise |
| MacosMessenger.SendAlternative | macos_messenger.py:98-138 | the alternative runs one "new chat" script with the formatted buddy, and succeeds exactly when that script exits with 0 |
| MacosMessenger.SendMessage | macos_messenger.py:22-79 | a non-string recipient fails without any script being run; otherwise the direct script runs first and the alternative runs only after a nonzero exit; success means exit 0 directly, or a nonzero exit followed by a successful alternative; a timeout or another exception fails |
| MacosMessenger.AvailableServices | macos_messenger.py:243-282 | the list is never empty; a successful, non-blank answer gives one stripped, comma-free name per comma-separated piece; anything else gives `["iMessage", "SMS"]` |
| MacosMessenger.ServicesArePieces | macos_messenger.py:266-272 | each name is its piece of the answer with whitespace stripped, and the pieces joined with commas give back the answer |
| MacosMessenger.CheckMessagesPermissions | macos_messenger.py:284-297 | the permission check always reports `True`, because the services list is never empty |
| MacosMessenger.Messenger.constructor | macos_messenger.py:17-20 | the last message time starts at 0 and the cooldown at 60 seconds; no script has run yet (the messenger's log of scripts is empty) |
| MacosMessenger.Messenger.SendNotificationWithCooldown | macos_messenger.py:148-170 | within the cooldown nothing is sent and the result is `False`, as the code does (its docstring promises `True` while the cooldown is active, which the code contradicts); otherwise the result is that of the send; the last message time moves to now only on success; the messenger's log of scripts grows by exactly the scripts of that send, and by nothing within the cooldown |
| MacosMessenger.Messenger.TestMessaging | macos_messenger.py:172-198 | iMessage is tried first, and SMS only when iMessage failed; the test succeeds when either attempt succeeds, and no SMS script runs after a successful iMessage; the messenger's log grows by exactly the scripts of the attempts made |
| IphoneDetector.DefaultKeysAgree | iphone_detector.py:48-62 | the built-in configuration has exactly the seven keys the merge visits |
| IphoneDetector.Merge | iphone_detector.py:68-71 | after the merge every default key is present; a key the file sets keeps the file's value; keys only the file has are kept |
| IphoneDetector.LoadedConfig | iphone_detector.py:46-81 | a missing or unreadable file gives the defaults; a JSON object gives the object merged over the defaults; any object returned has every default key |
| IphoneDetector.LoadConfig | iphone_detector.py:64-75 | the loop over the default items returns what `LoadedConfig` describes, including the list, string and other non-object documents |
| IphoneDetector.IsInDetectionArea | iphone_detector.py:244-251 | raises when the area or its `enabled` key is missing; true when the area is switched off; when it is on and numeric, true exactly when the corner lies in the closed rectangle |
| IphoneDetector.AreaIgnoresSize | iphone_detector.py:244-251 | the box's width and height never change the outcome of the area test |
| IphoneDetector.Origins | iphone_detector.py:117-123 | each entry of `detections` comes from a detector that found something strictly above the threshold, and the entries keep the detectors' order |
| IphoneDetector.BestIndex | iphone_detector.py:127 | `max` with a key picks an entry of highest confidence, and the first one on ties |
| IphoneDetector.OriginsComplete | iphone_detector.py:117-123 | every detector that found something strictly above the threshold has an entry in `detections` |
| IphoneDetector.NoContribution | iphone_detector.py:117-125 | `detections` is empty exactly when no detector found something with confidence strictly above the threshold |
| IphoneDetector.BestContribution | iphone_detector.py:117-128 | the chosen entry is the answer of a contributing detector; no contributing detector has a higher confidence, and every earlier one has a lower confidence |
| IphoneDetector.DetectRaises | iphone_detector.py:118-123 | detection raises exactly when some detector found something and the threshold is missing or not a number |
| IphoneDetector.DetectPicksBest | iphone_detector.py:102-130 | with a numeric threshold, the result is detected exactly when some detector contributes; it is then the first contributing answer of highest confidence, and otherwise `(False, 0.0, (0, 0, 0, 0))` |
| IphoneDetector.DetectIphone | iphone_detector.py:116-130 | the three threshold checks and the maximum compute the combination rule `Detect` for the template, colour and shape answers, including the case where reading the threshold raises |
| IphoneDetector.RecipientChoice | iphone_detector.py:256 | the recipient (`RecipientOf`) is the phone number when it is truthy, otherwise the e-mail value; it is truthy exactly when one of the two is |
| IphoneDetector.Detector.constructor | iphone_detector.py:30-40 | the configuration is the loaded one; both counters start at 0; the loop cooldown is 60; a fresh messenger takes its cooldown from the configuration's `notification_cooldown`, 60 by default (`CooldownSetting`, line 40), and has run no script |
| IphoneDetector.Detector.SendNotification | iphone_detector.py:253-265 | with no truthy recipient nothing is sent and the result is `False`; otherwise the messenger's cooldown-guarded send runs with the configured `message_service`, iMessage by default (`ServiceSetting`, line 262); the messenger's log of scripts grows by exactly the scripts returned, so no other script runs |
| IphoneDetector.FrameSend | iphone_detector.py:311-320 | a frame runs a script only when a phone was detected, more than the loop's cooldown and at least the messenger's cooldown have passed; what it sends succeeds exactly under `Notifies` |
| IphoneDetector.Detector.Step | iphone_detector.py:309-325 | a detected frame adds exactly one to the count; the scripts it runs are exactly `FrameSend`, so no send is tried unless a phone was detected and more than the cooldown has passed since the last notification; the frame notifies exactly under `Notifies`; the loop's last notification time and the messenger's last message time both move to now when it does and stay put otherwise; the messenger's log of scripts grows by exactly those `FrameSend` scripts |
| IphoneDetector.Detector.HandleFrame | iphone_detector.py:309-325 | one pass of the loop body: it reports a raise exactly when detection raises, and then nothing changes and no script runs; otherwise the count grows by one for a detected phone, the scripts run are exactly `FrameSend`, the frame notifies exactly under `Notifies`, and both last times move to the frame's time only when it does; the messenger's log of scripts grows by exactly the scripts returned |
| IphoneDetector.NotifiedTimesSpaced | iphone_detector.py:309-322 | under the per-frame rule, notification times are spaced by more than the loop's cooldown, the first more than the cooldown after the starting time |
| IphoneDetector.NotifiedTimeOrigin | iphone_detector.py:309-322 | every notification time is the time of a handled frame whose detection succeeded and found a phone |
| IphoneDetector.NoRecipientNoNotifications | iphone_detector.py:309-322 | with neither a phone number nor an e-mail set, handling any frames sends no notification |
| IphoneDetector.Detector.Advance | iphone_detector.py:305-336 | one pass of the loop: it reports a raise exactly when detection raises; otherwise the count, the notification times, both last times and the messenger's log are the per-frame folds over one more frame |
| IphoneDetector.FoldedStep | iphone_detector.py:309-325 | handling one more frame whose detection succeeded extends every fold (count, notification times, last times, scripts run) by exactly that frame's contribution |
| IphoneDetector.SentScriptOrigin | iphone_detector.py:311-320 | every script the loop runs belongs to the send for a handled frame in which a phone was detected, more than the loop's cooldown and at least the messenger's cooldown had passed, addressed to the configured recipient and service |
| IphoneDetector.NoRecipientNoScripts | iphone_detector.py:255-259 | with neither a phone number nor an e-mail set, handling any frames runs no script at all |
| IphoneDetector.Detector.Run | iphone_detector.py:294-349 | nothing runs without a camera; frames are handled until none is left, `q` is pressed (`IsQuit`: the key masked with `0xFF` equals `ord('q')`, lines 334-335) or detection raises; the count grows by the number of detected frames; notifications are spaced by more than the cooldown; the notification times are exactly those the per-frame rule gives over the handled frames (`NotifiedTimes`), and both the loop's last notification time and the messenger's last message time end at the last of them; the messenger's log of scripts grows by exactly `SentScripts`, the scripts the per-frame rule sends over the handled frames, in order |
| SetupTest.TestConfig | test_setup.py:53-99 | a missing file, an unreadable file and a non-object document fail; an object passes exactly when nothing is reported, and the reported list is `Reported` |
| SetupTest.ConfigPassesMeans | test_setup.py:87-92 | the configuration passes exactly when it is an object in which no required field is missing and some recipient is set |
| SetupTest.AbsentFieldReported | test_setup.py:66-78 | every required key absent from the configuration is reported |
| SetupTest.CameraIndexReported | test_setup.py:79-80 | `camera_index` is reported exactly when it is absent or `null`, so `0` passes |
| SetupTest.OtherFieldReported | test_setup.py:81-82 | the other required fields are reported exactly when absent or falsy (`null`, `false`, `0`, `""`, `[]`, `{}`) |
| SetupTest.RecipientEntryReported | test_setup.py:72-85 | `"recipient (phone or email)"` is reported exactly when neither the phone number nor the e-mail is truthy |
| SetupTest.ReportOrdered | test_setup.py:66-85 | reported entries follow the declared order of the required fields with the recipient entry last, and none appears twice |
| SetupTest.RunSetupTests | test_setup.py:134-164 | overall success holds exactly when the import, camera and messaging checks returned truthy values without raising and the configuration passes |
| SetupTest.FieldReported | archive/test_setup.py:66-82 | a required field is reported exactly when it is absent, or `null` for `camera_index`, or falsy for the others |
| SetupTest.CheckFields | archive/test_setup.py:66-85 | the loop over the required fields, followed by the recipient check, builds exactly the list `Reported` |
| SetupTest.CollectResults | archive/test_setup.py:146-154 | each check's result is recorded under its name in order, and a check that raised is recorded as `False` |
| SetupTest.FoldResults | archive/test_setup.py:159-164 | `all_passed` is true exactly when every recorded result is truthy |

## Left out

- Running `osascript` is left out. The AppleScript text is left out too: only
  which script variant ran, for which service and which buddy, is modelled.
  Logging is left out.
- The message text is not modelled beyond the escaping, because it takes no
  part in any decision.
- `MacosMessenger.ScriptsNameRecipient` is stated only for recipients whose
  formatted form holds no quote and no backslash. With those characters the
  escaping as written misreads the buddy, as `QuotedBuddyMisread` shows (see
  Findings). A phone number never holds them (`PhoneBuddyUnescaped`).
- `test_simple_message`, `send_imessage`/`send_sms` and the module's `main`
  are left out: they are thin wrappers or interactive, and `TestMessaging`
  stands for the two wrappers it calls.
- The camera and its initialisation are left out. So are the three image
  heuristics (template matching, colour and shape), drawing, showing frames,
  saving a frame on `s`, and `cleanup`. Their results are inputs.
- `config_gui.py`, `archive/setup.py` and `archive/debug_messages.py` are not
  part of this model.
- The setup checker's probes (`test_imports`, `test_camera`,
  `test_macos_messaging`) are inputs, and so are the printed messages.
- Writing the default configuration file when none exists is left out, and
  so is any failure of that write.
- `Strings.IsDigit` accepts only the ASCII digits. Python's `str.isdigit` also
  accepts other Unicode digits, such as superscripts.
- The insertion order of Python dicts is not modelled: configurations are
  maps.
- `MacosMessenger.ReadLiteral` understands only the `\\` and `\"` escapes of
  an AppleScript literal. `\n`, `\t` and `\r` are not modelled.
- `IphoneDetector.Detector.Run` shares one time per frame between its own
  cooldown and the messenger's. In the source these are two separate clock
  readings. An exception from `draw_detection_info` is not modelled either.
- `IphoneDetector.Detector.constructor` requires the loaded configuration to
  be a JSON object and the configured cooldown to be a number. For any other
  object configuration the source builds the detector and fails only at the
  first cooldown comparison; that path is not modelled. A non-object
  configuration makes the source's own constructor raise.
- `IphoneDetector.IsInDetectionArea` states its result only when all four
  bounds are numbers. For non-numeric bounds the body follows Python's
  short-circuit evaluation, but no contract states it.

## Findings

| source | as written | input that shows it | evidently intended | confidence | as-written member | corrected member |
|---|---|---|---|---|---|---|
| macos_messenger.py:39-40 | quotes are escaped before backslashes are doubled, so the backslash added for a quote is itself doubled and `"` becomes `\\"` | the message `"`: it is escaped to `\\"`, which the literal reads as a single backslash followed by the closing quote, with the original closing quote left over | double backslashes first, then escape quotes, so that the literal reads back the original text | high; not executed | MacosMessenger.EscapeBreaksLiteral | MacosMessenger.EscapeForAppleScriptRoundTrip |
