# Planty: a model of the talking flower pot's control core

Planty is a smart flower pot with a face. A wake word starts a spoken turn.
The transcript goes to a text generator, and the reply's tag sets the face on
the display while the reply is spoken. A second thread samples the plant's
sensors once a second. Both threads write one shared record: the expression,
the action, the speaking flag, the sensor readings and a timestamp.

This project models that core in Dafny and proves properties of it. It covers:

- the shared record `GlobalState` of src/main.py. term/planty.py:16-50 holds
  an identical copy.
- the wake-word controller of src/ai_controller.py. This covers the reply
  fallback, the two readers of a reply's tag, the silence test, the `run`
  loop and the keyword handler.
- the older terminal program term/planty.py. This covers keyword detection,
  command extraction, the `[expression] action` reply reader, the reply
  generator with its prompt template, and one pass of the listening loop.
- the sensor sampler of src/circuit_controller.py: its four fixed readings,
  one cycle of `run`, and `stop`.
- input-device selection and the guard in front of recording in planty.py.

Modules follow those files:

| file | module | models |
|---|---|---|
| wrappers.dfy | `Wrappers` | `Option` and `Result` |
| text.dfy | `Text` | Python's `isspace`/`strip`, one-character `split`, substring search, `split(sep)[-1]`, ASCII `lower` |
| shared_state.dfy | `SharedState` | `GlobalState.__init__`, `update`, `get_state` |
| reply_tags.dfy | `ReplyTags` | `_get_gpt_response`'s fallback, `_parse_response` and the `\[(.*?)\]$` split of src/ai_controller.py |
| turn_controller.dfy | `TurnController` | `_handle_keyword_detected`, `run` and `_is_silence` of src/ai_controller.py |
| bracket_reply.dfy | `BracketReply` | `_parse_response` and the generator fallback of term/planty.py |
| voice_command.dfy | `VoiceCommand` | keyword detection, command extraction, `generate_response` and one pass of `_process_audio` in term/planty.py |
| sensor_sampler.dfy | `SensorSampler` | `CircuitController` |
| input_device.dfy | `InputDevice` | `_get_input_device` and `listen` of planty.py |

Every call into code the model cannot see becomes an input:
- the clock (`time.time()`) is a `Clock` value;
- the wake-word detector's verdict is `Frame.keywordIndex`;
- the recogniser's transcript is an `Option<string>`, where None means nothing was recognised or recognition raised;
- the generator's reply is an `Option<string>`, where None means the call raised;
- a sensor cycle that raised is `Event.Cycle(fault := true, ...)`.

Each update is one atomic transition, as it is under `GlobalState`'s lock.

### Where the code does not do what its callers expect

The model follows the code in all three cases.

- **The wake-word loop stops at its first turn.** `GlobalState.update`
  (src/main.py:21) has no `is_listening` parameter. The call at
  src/ai_controller.py:271 raises TypeError, which line 293 swallows. The
  call in `finally` at line 296 raises again and escapes
  `_handle_keyword_detected`, so `run` stops (Findings, row 1).
- **The older program never answers.** In term/planty.py the template at
  lines 313-314 names keys the state does not hold. `format` at line 337
  raises KeyError before the generator runs, so no reply is published
  (Findings, row 2).
- **Tagless replies read neutral.** tests/test_ai_controller.py:87-106
  expect `_parse_response` to infer "happy"/"watering" from tagless
  sentences. The code reads only a bracketed tag.
  `ReplyTags.UntaggedReplyIsNeutral` states what the code does.

## Model

| member | source | states |
|---|---|---|
| SharedState.Init | src/main.py:8-19 | A fresh state is neutral, idle and not speaking. It holds exactly the four sensor keys, all at 0, stamped with the current clock. |
| SharedState.Update | src/main.py:21-31 | Each argument that is given replaces its field, and each omitted one keeps the old value. Readings are merged key by key: new keys are added, other keys keep their values. The stamp is always refreshed. |
| SharedState.UpdateNothing | src/main.py:21-31 | An update with no arguments only refreshes the timestamp. |
| SharedState.UpdateKeepsSensorKeys | src/main.py:29-30 | Merging readings never removes a sensor key. |
| SharedState.UpdateThen | src/main.py:21-31 | Two successive updates equal one update whose arguments combine them, the later argument winning. |
| SharedState.UpdateIdempotent | src/main.py:21-31 | Repeating an update changes nothing but the timestamp. |
| SharedState.DisjointUpdatesCommute | src/main.py:21-31 | A sensors-only update (the sampler's) and a sensors-free update (the voice thread's) commute apart from the timestamp, so the order the threads take the lock in does not matter. |
| SharedState.GetState | src/main.py:33-41 | The snapshot has exactly the five keys, each holding its field's value. |
| SharedState.SnapshotRoundTrip | src/main.py:33-41 | The state can be rebuilt from its snapshot, so the snapshot loses nothing. |
| SharedState.SnapshotInjective | src/main.py:33-41 | Different states give different snapshots. |
| ReplyTags.FromName | src/ai_controller.py:121-123 | A name maps to the expression it names, and to none when it is not one of the six. |
| ReplyTags.NameRoundTrip | src/ai_controller.py:121-123 | Names and the six expressions correspond one to one. |
| ReplyTags.TagAtUnique | src/ai_controller.py:121 | At most one of the six tags starts at any index. |
| ReplyTags.MatchAt | src/ai_controller.py:121 | The alternation at one index yields an alternative whose tag occurs there, and none when no tag occurs there. |
| ReplyTags.SearchFrom | src/ai_controller.py:121 | The search finds the leftmost index holding any tag, or reports that no tag occurs. |
| ReplyTags.ParseResponse | src/ai_controller.py:117-131 | The expression is always one of the six, and the action slot is always None. |
| ReplyTags.ParseResponseSpec | src/ai_controller.py:117-131 | The parse names `e` if and only if the leftmost in-set tag is `e`'s, or `e` is neutral and no in-set tag occurs. |
| ReplyTags.FirstTagWins | src/ai_controller.py:121-123 | An in-set tag with no `[` before it is the one reported, whatever follows. |
| ReplyTags.HappyReplyExpression | src/ai_controller.py:117-127 | The reply "물을 줄게요! [happy]" shows happy. |
| ReplyTags.UntaggedReplyIsNeutral | src/ai_controller.py:117-127 | A reply with no `[` reads ("neutral", None) whatever its words say. |
| ReplyTags.GptResponse | src/ai_controller.py:75-115 | The generator's reply is returned when the generator succeeds and the prompt's four sensor keys exist. Otherwise the fallback is returned, which parses as neutral and splits into neutral and its sentence. |
| ReplyTags.FallbackIsNeutral | src/ai_controller.py:113-115 | The fallback reply's expression is neutral. |
| ReplyTags.FallbackSplit | src/ai_controller.py:113-115 | The end-tag split of the fallback yields the tag "neutral" and the fallback sentence. |
| ReplyTags.ClosingBracket | src/ai_controller.py:137 | Finds the unique `]` at which `$` can match: the last character, or the one before a final newline. |
| ReplyTags.OpenBracket | src/ai_controller.py:137 | Finds the leftmost `[` before that `]` with no newline in between, as the lazy `.*?` match does. |
| ReplyTags.TagSpan | src/ai_controller.py:137-138 | The match span is the leftmost `[` that reaches an end-anchored `]` on one line, and none when no such span exists. |
| ReplyTags.SplitTag | src/ai_controller.py:137-144 | With no end-anchored tag, the split yields "neutral" and the reply unchanged. |
| ReplyTags.SplitTagSpec | src/ai_controller.py:137-144 | Text, then a one-line tag, then an optional final newline, splits into that tag and the stripped text, provided no earlier `[` shares the tag's line. |
| ReplyTags.TaggedReplySpan | src/ai_controller.py:137-141 | For such a reply, the match starts at the tag's `[` and ends at its `]`. |
| ReplyTags.TrailingTagReply | src/ai_controller.py:137-141 | A trimmed, bracket-free sentence followed by " [tag]" splits back into exactly that tag and sentence. |
| TurnController.TurnExpression | src/ai_controller.py:278-281 | The face a turn publishes is always one of the six expressions. |
| TurnController.TurnCalls | src/ai_controller.py:267-296 | A turn's first update turns listening on and its last turns it off. A turn is those two calls alone exactly when no transcript was heard; with one it makes four calls. |
| TurnController.TurnShape | src/ai_controller.py:267-296 | Only the first and last calls pass `is_listening`, and no call passes an action or readings. With a transcript, the second call shows the reply's expression with speaking on and the third turns speaking off. Only the second call sets the face, and no other call turns speaking on. |
| TurnController.Spoken | src/ai_controller.py:137-150 | When the generator fails, the synthesiser is given the fallback sentence without its tag. |
| TurnController.CallAsWritten | src/main.py:21-31 | A call raises TypeError('is_listening') exactly when it passes `is_listening`; otherwise it is a plain update. |
| TurnController.CallsAsWritten | src/ai_controller.py:269-294 | A block whose first call passes `is_listening` stops there with the state untouched. A block with no such call raises nothing. |
| TurnController.HandleKeywordAsWritten | src/ai_controller.py:267-296 | Against src/main.py's `update`, every turn, heard or not, leaves the handler with TypeError('is_listening') and the state unchanged. |
| TurnController.RunAsWritten | src/ai_controller.py:246-265 | The loop never reads more frames than it is given. |
| TurnController.RunAsWrittenStopsAtFirstWakeWord | src/ai_controller.py:246-265 | The state never changes. The loop keeps running exactly when no frame was a wake word. Otherwise it stops right after the first wake word; with none, it reads every frame. |
| TurnController.Apply | src/main.py:21-31 | The corrected `update`. Where the as-written call succeeds, it makes the same change and leaves the listening flag alone. Where that call raised, it makes the update and records the flag. |
| TurnController.HandleKeyword | src/ai_controller.py:267-296 | With the corrected `update`, a turn ends not listening, and one that starts not speaking ends not speaking. It keeps the action and readings and stamps the clock. It shows the reply's face when a transcript was heard, and changes nothing else when none was. |
| TurnController.SpeakingWhileListening | src/ai_controller.py:271-285 | While the reply is spoken, the listening and speaking flags are both set, so the two flags are not exclusive. |
| TurnController.OnOff | src/ai_controller.py:250-260 | The reference pattern on, off, on, off, … of length 2n. |
| TurnController.TurnListeningFlags | src/ai_controller.py:267-296 | Each turn's `is_listening` arguments are exactly [true, false]. |
| TurnController.TurnsTakeTurns | src/ai_controller.py:250-260 | Over any run, the `is_listening` arguments alternate on/off, one pair per detected wake word. |
| TurnController.Run | src/ai_controller.py:250-260 | With the corrected `update`, the loop never touches the readings or the action. A device that starts idle is idle again after every turn. |
| TurnController.IsSilence | src/ai_controller.py:242-244 | An empty buffer raises ValueError. Otherwise the buffer is silent if and only if every sample is below the threshold (300 by default). |
| BracketReply.ParseBracketReply | term/planty.py:145-155 | Without both brackets the result is ("neutral", "idle"); both parts are always stripped. |
| BracketReply.ParseBracketReplyByPosition | term/planty.py:149-152 | With both brackets, the expression is the text from the first `[` to the next `[` or `]`. The action is the text from the first `]` to the next `]` or newline. Both are stripped. |
| BracketReply.HeaderAt | term/planty.py:149-152 | The same reading, stated by the indices of the first `[`, the first `]` and the end of the action. |
| BracketReply.HeaderReply | term/planty.py:149-152 | Bracket-free lead text, then `[expression]action`, a newline and anything else, parses to the stripped expression and action. |
| BracketReply.PromptLayoutHeader | term/planty.py:316-322 | A reply in the prompt's `[expression] action` layout parses back to exactly its expression and action, with no check that the display knows the expression. |
| BracketReply.HeadOfSecondPiece | term/planty.py:150-151 | The second piece of a split, cut at a second character, is the text after the first separator up to the next of either. |
| BracketReply.FallbackIsNeutralIdle | term/planty.py:350-352 | The generator's failure text has no bracket, so it parses to ("neutral", "idle"). |
| Text.Strip | term/planty.py:150-151 | The result has no whitespace at either end and is no longer than the input. |
| Text.StripSpec | term/planty.py:150-151 | The result is the input's infix between its leading and trailing whitespace. |
| Text.StripUnique | term/planty.py:150-151 | Stripping whitespace-surrounded trimmed text yields that text. |
| Text.Split | term/planty.py:150-151 | There is at least one piece, and exactly one when the separator is absent. No piece contains the separator. |
| Text.JoinSplit | term/planty.py:150-151 | Joining the pieces with the separator gives back the input. |
| Text.SplitJoin | term/planty.py:150-151 | Splitting separator-free pieces joined by the separator gives back those pieces. |
| Text.FindFrom | term/planty.py:193-197 | The search finds the first occurrence at or after the start, or reports that there is none. |
| Text.LastCut | term/planty.py:198 | The cut lies just after an occurrence of the separator, with no occurrence starting at or after it. It is the start exactly when the separator is absent. |
| Text.LastOccurrence | term/planty.py:198 | For a keyword whose first letter does not recur in it, the cut follows the last occurrence. |
| Text.Lower | term/planty.py:192 | Length is kept, and each character is lower-cased on its own. |
| Text.LowerIdempotent | term/planty.py:192 | Lower-casing twice is lower-casing once. |
| Text.LowerAppend | term/planty.py:192 | Lower-casing distributes over concatenation. |
| VoiceCommand.Triggered | term/planty.py:192-197 | The `any(...)` test holds exactly when the loop over the keywords finds one in the lower-cased transcript. |
| VoiceCommand.TriggerIgnoresCase | term/planty.py:192-198 | A transcript triggers exactly when its lower-cased form does, and both yield the same command. |
| VoiceCommand.CapitalKeywordTriggers | term/planty.py:192-193 | "PLANTY" in capitals triggers detection, whatever surrounds it. |
| VoiceCommand.FirstKeyword | term/planty.py:193-197 | Finds the first keyword in list order that occurs, or reports that none does. |
| VoiceCommand.ExtractCommand | term/planty.py:192-199 | There is a command exactly when the lower-cased transcript contains "플랜티" or "planty", and the command is stripped. |
| VoiceCommand.CommandFollowsLastKeyword | term/planty.py:192-198 | The command is the stripped text after the last occurrence of the first keyword (in list order) that occurs. "planty" is used only when "플랜티" is absent. |
| VoiceCommand.LastKeywordOccurrence | term/planty.py:198 | The cut for a keyword lies after an occurrence of it, and after every other one. |
| VoiceCommand.FirstMissing | term/planty.py:311-337 | Finds the first template field the readings lack, or none when all are present. |
| VoiceCommand.GenerateWith | term/planty.py:293-352 | Filling the template fails exactly when a field is missing. Otherwise, a failed generator yields a reply that reads ("neutral", "idle"). |
| VoiceCommand.GenerateResponseAsWritten | term/planty.py:311-337 | With the state's own sensor keys, the template as written always raises KeyError('light_level'), before the generator is called. |
| VoiceCommand.GenerateResponse | term/planty.py:311-352 | With a template naming the state's keys, and those keys present, the result is the generator's reply or the fallback text. |
| VoiceCommand.Publish | term/planty.py:140-143 | The update it requests makes the state show the face and the speaking flag, keeping the sensors and stamping the clock. |
| VoiceCommand.TurnWith | term/planty.py:163-216 | A pass fails exactly when a keyword is followed by a non-empty command and the reply raised. It requests nothing exactly when there is no such command. Otherwise it publishes the parsed face with speaking on, then off. |
| VoiceCommand.TurnAsWritten | term/planty.py:163-216 | As written, with the state's keys, a pass requests no update. It raises KeyError exactly when a keyword is followed by a non-empty command. |
| VoiceCommand.Turn | term/planty.py:192-212 | With the corrected template, a pass with no keyword or no command requests nothing. Otherwise it publishes the reply's face with speaking on, then the same face with speaking off. |
| VoiceCommand.TurnLeavesFace | term/planty.py:203-211 | After a speaking pass, the state shows the reply's face, is not speaking, and keeps its readings. |
| SensorSampler.Start | src/circuit_controller.py:5-7 | A new sampler is running on the given state. |
| SensorSampler.Step | src/circuit_controller.py:25-46 | `stop` clears running for good, and a cycle runs only while running. A faulty cycle changes nothing. A good cycle writes the four constant readings 60, 25, 1000 and 70, keeps the other keys, the face and the speaking flag, and stamps the clock. |
| SensorSampler.RunKeepsFaceAndKeys | src/circuit_controller.py:27-43 | Over any events, the face, action and speaking flag are untouched and no key is lost. The readings hold the constants once a cycle has published, and are unchanged if none has. |
| SensorSampler.PublishedStays | src/circuit_controller.py:27-43 | Once published, the readings keep their constant values. |
| SensorSampler.FromInitSensorsAreReadings | src/circuit_controller.py:9-38 | From the initial state, after a published cycle, the readings are exactly the four constants. |
| SensorSampler.RunKeysBounded | src/circuit_controller.py:30-38 | The sampler adds no keys besides its own four. |
| SensorSampler.Run | src/circuit_controller.py:25-46 | The loop is still running exactly when it was running and no `stop` came. Once stopped, no later event changes anything. |
| SensorSampler.RunLoop | src/circuit_controller.py:25-43 | The loop reaches the same sampler as the event-by-event definition, and is stopped exactly when it was stopped already or a `stop` occurred. |
| InputDevice.GetInputDevice | planty.py:24-31 | Returns the first device with an input channel, or None exactly when no device has one. |
| InputDevice.Listen | planty.py:33-81 | With no device, it returns None without calling `open`. Otherwise it calls `open` and returns the transcription, which is None when opening, recording or transcribing raised. |
| InputDevice.SelectAndListen | planty.py:22-81 | `open` is called exactly when some device has an input channel. |

## Left out

- I/O of every kind is left out: audio streams, WAV files, speech recognition, speech synthesis, playback, the network and the Flask/SocketIO server. Their results enter as inputs, and their side effects are not part of the state.
- Threads and the lock are left out. Each `update` is one atomic transition; interleavings appear only as `SharedState.DisjointUpdatesCommute`.
- SharedState.GetState: returns the readings as a value, whereas src/main.py:39 hands out the live dictionary, which a later `update` mutates. Aliasing is not modelled.
- The constructor of term/planty.py is left out. It calls a `_get_input_device` (line 93) that the class never defines, so the device guard is modelled only from planty.py.
- `_emit_state` and the dashboard are left out. They forward the state over a socket and have no logic of their own.
- `main()` of src/main.py (construction and thread start-up) is left out. It has no logic beyond wiring.
- The ordering of `ai.run()` before the sampler thread starts is left out. `main()` starts the sampler only after the controller's loop has ended; the model treats the two as independent writers.
- The frame-count arithmetic `int(RATE / CHUNK * n)` and PCM unpacking are left out. Only the frames' verdicts matter to the model.
- `_process_gpt_response`'s returned emotion is left out: the caller discards it. Only the words given to the synthesiser are modelled (`TurnController.Spoken`).
- The `start_listening` flag `is_listening` of term/planty.py (set at line 225) and the audio callback are left out. They only gate the audio queue, which enters as `transcript`.
- Text.Lower: models `str.lower` for ASCII letters only. The keywords are ASCII and Hangul, and Hangul has no case.
- TurnController.HandleKeyword: every call of one turn carries the same clock, whereas the source reads the clock on each call.
- SensorSampler.Step: the sensor reads are constants and cannot raise. The `except` branch is reached through the `fault` flag, which stands for any exception inside the cycle.
- The one-second sleep between cycles is left out: time advances only through the clock arguments.
- `AIController.stop`'s stream and device teardown is left out. Only the `running` flag it clears matters to the model.

## Findings

| source | as written | input that shows it | evidently intended | confidence | as-written member | corrected member |
|---|---|---|---|---|---|---|
| src/ai_controller.py:271-296 | `_handle_keyword_detected` calls `state.update(is_listening=...)`, but `GlobalState.update` (src/main.py:21) has no such parameter. The first call raises TypeError, which `except` swallows; the call in `finally` raises again and escapes. `run` then stops at the first wake word, and the state never changes. | any frame whose detector index is ≥ 0 | `update` takes an `is_listening` flag. A turn sets it, publishes the face while speaking, and clears both flags. | not executed | TurnController.RunAsWrittenStopsAtFirstWakeWord | TurnController.Run |
| term/planty.py:311-337 | The prompt template names `{light_level}` and `{nutrient_level}`, but the state's readings are keyed `light` and `nutrients`. `format` raises KeyError('light_level') outside the `try`, and `_process_audio` catches it. No reply is ever generated or published. | a transcript "planty 물 줘" with the initial readings | the template names the state's own keys | not executed | VoiceCommand.TurnAsWritten | VoiceCommand.Turn |
