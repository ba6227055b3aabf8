# deduction-api in Dafny

This project models the Python backend of a three-stage deduction puzzle
game. Players join under a name and answer one question per stage. A
correct answer moves a player up exactly one stage. A player past stage
`MAX_STAGE = 3` has won. A proxy endpoint streams a language model's
reply as JSON records, each followed by the ASCII record separator. A
script imports the question bank from a JSON file.

The model is split into these modules:

- `Wrappers` (wrappers.dfy): `Option` and `Result`.
- `Strings` (strings.dfy): Python's `str.strip()` over ASCII whitespace, and decimal text for integers.
- `Config` (config.dfy): the default settings.
- `AnswerChecker` (answer_checker.dfy): `_normalise`, `exact_match` and `DEFAULT_ANSWER_RULE`.
- `Db` (db.dfy): the `users`, `questions` and `stats` tables, as one `Store` class whose methods update them in place.
- `Session` (session.dfy): `SessionService.join`, `submit_answer` and `_find_user_id_by_name`, as methods over the store.

  `submit_answer` has two parts:

  - `Session.Submit` is a function from the tables before the call to the response and the tables after it.
  - `Session.SubmitAnswerWith` is the imperative method, and it is proved equal to that function.

  The game's properties are lemmas about `Submit`.

  As in the source, the question returned by `join` and `submit_answer` is the raw bank row, canonical `answer` included (deduction-api/db/__init__.py:165). `Db.Question` keeps that field, so the model reproduces this leak of the answer to the client rather than repairing it.
- `JsonText` (json_text.dfy).
  - The writer is `json.dumps` of a dict from str to str, with the default `ensure_ascii` escaping. By section 7 of RFC 8259, every control character is escaped.
  - The reader is a decoder for exactly that output. It exists only to state the round trip.
- `LlmClient` (llm_client.dfy): the model-option decision, the assembly of `api_params`, and the translation of provider events into records in `chat_completion_iter`.
- `Api` (api.dfy): the `_stream` framing loop of `/model-run`, the model whitelist, and the `JoinRequest` field constraints of `/join`: a name of 1 to 50 characters (`max_length=50`, deduction-api/main.py:54), checked before stripping. The UTF-8 encoding of the frames and the split on byte 0x1E are the inverse used in the round-trip lemma.
- `ImportQuestions` (import_questions.dfy): `load_questions` and the clear-then-insert order of `main`.
  - Decoded JSON values and Python's `k in entry`, `int()`, `str()` and `repr` are modelled as far as the validation depends on them.

## Model

| member | source | states |
|---|---|---|
| Session.Join | deduction-api/services/session.py:20-68 | The name is stripped before lookup and creation. With `start_new`, the oldest user of that name is removed and a fresh user at stage 1 is created. Without it, that user is resumed unchanged, or created if there is none. The returned user is the stored one, and the returned question is the bank entry for its stage (none past stage 3). Unique names and stages in 1..4 are preserved. |
| Session.NewUserKeepsInvariants | deduction-api/services/session.py:40-54 | Removing the old user of a name and adding a fresh one keeps names unique and stages in range. |
| Session.CurrentQuestion | deduction-api/services/session.py:58-66 | Past `MAX_STAGE` there is no question; otherwise the question is what `fetch_question` gives for the stage. |
| Session.Oldest | deduction-api/services/session.py:143-155 | None exactly when no user has the name; otherwise a user with that name whose join time is the earliest. |
| Session.OldestUnique | deduction-api/services/session.py:143-155 | With distinct join times, the oldest user of a name is unique. |
| Session.EarliestExists | deduction-api/services/session.py:143-155 | Every non-empty set of users has one with the earliest join time, so `ORDER BY joined_at LIMIT 1` always has an answer. |
| Session.FindUserIdByName | deduction-api/services/session.py:143-155 | The loop over the users returns the oldest user with the stripped name, or none. |
| Session.SubmitAnswerWith | deduction-api/services/session.py:71-140 | The store after the call, together with the response or the exception, is exactly `Submit` of the tables before it. The questions table and the clock do not change. |
| Session.Advance | deduction-api/services/session.py:112-127 | On a correct answer, the stage is raised by one and `correct_submissions` by one. The response is victory past stage 3, and otherwise the next stage's question with its message. |
| Session.SubmitMovesOnePlayer | deduction-api/services/session.py:80-133 | No user is added or removed and no other user changes. The submitting player's stage rises by exactly one when the answer is correct, and is unchanged otherwise. An unknown player is never correct. |
| Session.SubmitFailureChangesNothing | deduction-api/services/session.py:80-82 | An unknown user id raises, and any exception leaves the users and stats tables unchanged. |
| Session.SubmitVictory | deduction-api/services/session.py:86-92 | Victory is reported exactly when the player's stage after the call is above 3. This covers both completing stage 3 and having already completed it. |
| Session.SubmitCounts | deduction-api/services/session.py:112-133 | A correct answer adds one to `correct_submissions` and a wrong one adds one to `wrong_submissions`. No other counter changes, no key other than those two counters is added, and outside those two cases the stats are untouched. |
| Session.SubmitServesQuestion | deduction-api/services/session.py:116-133 | A question is served only to a known player on stage 3 or below. A wrong answer is served the same question again with the retry message. A correct answer short of victory is served the question of the new stage. |
| Session.VictoryNoQuestion | deduction-api/services/session.py:86-92 | A victory response never carries a question, whether the player has just won (lines 117-119) or had already won. |
| Session.AlreadyWon | deduction-api/services/session.py:86-92 | A player already past stage 3 gets correct false, victory true, no question and the already-completed message, and the users and stats tables are unchanged. |
| Session.SubmitKeepsInvariants | deduction-api/services/session.py:71-140 | Unique names, distinct join times and stages in 1..4 are preserved. |
| Session.CallDefaultAnswerRule | deduction-api/services/answer_checker.py:13-25 | Calling the two-parameter rule with any other number of positional arguments raises `TypeError`. With two strings it gives `exact_match`; with two arguments that are not both strings, `lower()` raises `AttributeError`. |
| Session.SubmitAnswerAsWritten | deduction-api/services/session.py:103-107 | `submit_answer` with the rule called on three arguments, as the source calls it, equals `Submit` with that call. |
| Session.AsWrittenAlwaysRaises | deduction-api/services/session.py:103-107 | As written, every answer from a known player on an active stage that has a question raises `TypeError(2 positional arguments, 3 given)` and changes nothing. |
| Session.AsWrittenNobodyAdvances | deduction-api/services/session.py:103-115 | As written, no submission ever changes a player's stage or is reported correct. |
| Session.SubmitAnswer | deduction-api/services/session.py:71-140 | `submit_answer` with the rule applied to (answer, canonical) equals `Submit` with that rule. |
| Session.CorrectedRuleDecides | deduction-api/services/session.py:103-111 | With the two-argument call, only an unknown user raises. On an active stage with a question, the answer is correct exactly when the rule accepts it against the canonical answer. |
| Session.CorrectedAcceptsCanonical | deduction-api/services/session.py:103-115 | With the default rule, submitting the canonical answer moves the player up one stage. |
| Db.Store.constructor | deduction-api/db/__init__.py:31-52 | The three tables start empty. |
| Db.Store.CreateUser | deduction-api/db/__init__.py:99-111 | Adds exactly one user under an id not already present, with the stripped name, stage 1 and the current join time. Nothing else changes. |
| Db.Store.GetUser | deduction-api/db/__init__.py:114-128 | None exactly when the id is absent; otherwise that user's id, name and stage. |
| Db.Store.UpdateUserStage | deduction-api/db/__init__.py:131-137 | Only the given user's stage changes; an absent id changes nothing. |
| Db.Store.DeleteUser | deduction-api/db/__init__.py:140-148 | Removes exactly the given id; every other user is kept. |
| Db.FirstOfStage | deduction-api/db/__init__.py:151-165 | None exactly when no row has the stage; otherwise a row of the table with that stage. |
| Db.FetchFinds | deduction-api/db/__init__.py:151-165 | `fetch_question(s)` gives None exactly when no row has stage `s`; otherwise it gives the question of a row of stage `s`, answer included. |
| Db.Upsert | deduction-api/db/__init__.py:168-177 | A missing key starts at `delta`, an existing one grows by `delta`, and every other key is unchanged. |
| Db.Store.IncrementStat | deduction-api/db/__init__.py:168-177 | The stats table becomes its upsert; the other tables do not change. |
| Db.Store.DeleteAllQuestions | deduction-api/scripts/import_questions.py:85-87 | `DELETE FROM questions` empties the bank and leaves the other tables alone. |
| Db.Store.InsertQuestions | deduction-api/scripts/import_questions.py:89-92 | `executemany` appends the rows, in order, after the existing ones. |
| AnswerChecker.Normalise | deduction-api/services/answer_checker.py:13-16 | The output holds only spaces and characters outside {`\`, `_`, ASCII upper case}. It has no leading or trailing space and no two consecutive spaces. |
| AnswerChecker.NormaliseIdempotent | deduction-api/services/answer_checker.py:13-16 | Normalising twice is normalising once. |
| AnswerChecker.ExactMatchIsEquivalence | deduction-api/services/answer_checker.py:19-21 | `exact_match` is reflexive, symmetric and transitive. |
| AnswerChecker.IgnoresCase | deduction-api/services/answer_checker.py:15 | A text matches its lower-cased form. |
| AnswerChecker.IgnoresInnerWhitespace | deduction-api/services/answer_checker.py:16 | Any non-empty run of whitespace between two parts matches a single space. |
| AnswerChecker.IgnoresLeadingWhitespace | deduction-api/services/answer_checker.py:16 | Leading whitespace does not affect matching. |
| AnswerChecker.IgnoresTrailingWhitespace | deduction-api/services/answer_checker.py:16 | Trailing whitespace does not affect matching. |
| AnswerChecker.SubRunsAround | deduction-api/services/answer_checker.py:15 | The substitution treats a whitespace run between two parts as a separator it leaves in place. |
| AnswerChecker.SubRunsMaximalRun | deduction-api/services/answer_checker.py:15 | A maximal run of `\`, `W` and `_` between two parts becomes exactly one space, and the parts on either side are substituted separately. |
| AnswerChecker.WordsAcrossRun | deduction-api/services/answer_checker.py:15-16 | Writing one space in place of a run of class characters leaves the words of the substituted text unchanged, whatever class characters surround the run. |
| AnswerChecker.IgnoresClassRun | deduction-api/services/answer_checker.py:15 | A non-empty run of backslashes and underscores anywhere in an answer matches a single space. |
| AnswerChecker.NormaliseFixedPoint | deduction-api/services/answer_checker.py:13-16 | A text is left unchanged by normalisation exactly when it is in normal form: only spaces and characters the substitution keeps, no lower-casing to do, no space at either end and no two spaces in a row. |
| AnswerChecker.JoinWords | deduction-api/services/answer_checker.py:16 | Splitting a normal form on whitespace and joining it with single spaces gives it back. |
| AnswerChecker.PunctuationSignificant | deduction-api/services/answer_checker.py:15 | Punctuation other than `\` and `_` is kept, so `"42."` does not match `"42"`. |
| AnswerChecker.NormaliseLiteral | deduction-api/services/answer_checker.py:13-16 | A single word of lower-case characters outside the class is its own normal form. |
| AnswerChecker.LowerIdempotent | deduction-api/services/answer_checker.py:15 | Lower-casing twice is lower-casing once. |
| Strings.Strip | deduction-api/services/session.py:36 | `str.strip()` leaves no whitespace at either end. |
| Strings.StripInfix | deduction-api/services/session.py:36 | What `str.strip()` leaves is an infix of the input with only whitespace before it and only whitespace after it; by `Strings.Strip`'s own ensures, that infix has no whitespace at either end. |
| Strings.StripIdempotent | deduction-api/services/session.py:36 | Stripping twice is stripping once. |
| Strings.StripPadded | deduction-api/scripts/import_questions.py:62-63 | Whitespace added around a text does not change its strip. |
| JsonText.EscapeChar | deduction-api/main.py:136 | Every escaped character is printable ASCII. A character is written as itself exactly when it is printable, not `"` and not `\`. |
| JsonText.Dumps | deduction-api/main.py:136 | The serialisation of a record is printable ASCII between braces; in particular it holds no control character. |
| JsonText.ReadQuoted | deduction-api/main.py:136 | An escaped string followed by a closing quote reads back as the original string, handing on the rest of the input. |
| JsonText.ReadEscapeChar | deduction-api/main.py:136 | Each character's escape, including a surrogate pair, reads back as that character. |
| JsonText.Hex4RoundTrip | deduction-api/main.py:136 | The four hex digits of a `\u` escape read back as the code unit. |
| JsonText.LoadsDumps | deduction-api/main.py:136 | Reading a record's serialisation gives back the record, members in order. |
| Api.Utf8Char | deduction-api/main.py:136-137 | A character encodes to one to four bytes. It is one byte, equal to its code, exactly when it is ASCII; every byte of a longer encoding is at least 0x80. |
| Api.Utf8NoDelimiter | deduction-api/main.py:38 | Text without U+001E encodes to bytes without 0x1E. |
| Api.FrameShape | deduction-api/main.py:136-138 | A frame is the UTF-8 serialisation followed by exactly one 0x1E, and the serialisation has no 0x1E. |
| Api.SplitFrames | deduction-api/main.py:136-138 | Splitting the concatenated frames on 0x1E gives the serialisations in order, then an empty tail. |
| Api.SplitRecovers | deduction-api/main.py:136-138 | Splitting the body on 0x1E and decoding each part gives back exactly the emitted records, in order. |
| Api.FrameChunk | deduction-api/main.py:135-151 | A dict chunk becomes its own frame. A string chunk becomes one `{"type": "error", "delta": ...}` frame. Any other chunk becomes nothing. |
| Api.Stream | deduction-api/main.py:129-160 | The body is the frames of the chunks' records in order. An exception keeps them and adds exactly one `{"type": "error", "error": ...}` frame. |
| Api.ErrorFrames | deduction-api/main.py:153-160 | The exception path yields exactly the frame of the internal-error record. |
| Api.ModelRun | deduction-api/main.py:111-166 | A model other than the two configured ones is refused with status 400 and no record. Otherwise the body frames the translated events, plus the error record after an exception, and it splits back into those records. |
| Api.FastModelNeverThinks | deduction-api/main.py:111-160 | The body for the fast model holds only text records. |
| Api.JoinArguments | deduction-api/main.py:51-55 | A request is accepted exactly when a name of length 1..50 is present. `start_new` is true only when given as true; absent or null means false. |
| Api.JoinGame | deduction-api/main.py:92-101 | A refused request changes no user. An accepted one joins under the stripped name with its `start_new` flag, absent or null meaning false. The users table then becomes what `SessionService.join` gives for that flag: the oldest user of the name replaced by a fresh one at stage 1, that user resumed unchanged, or a new user at stage 1. The stored user and the question for its stage are returned. |
| Api.BlankNameJoinsEmpty | deduction-api/main.py:54 | The length check runs before stripping, so a name of three spaces is accepted and joins as the empty name. |
| LlmClient.ModelSpecificOptions | deduction-api/services/llm_client.py:47-85 | Thinking is enabled exactly for the reasoning model with a budget of at least 1024. It then carries that budget and temperature 1.0; otherwise the temperature is 0.1. |
| LlmClient.DefaultsEnableThinking | deduction-api/config.py:22-28 | With the default settings, budget 1024 enables thinking for the reasoning model and not for the fast one. |
| LlmClient.BuildApiParams | deduction-api/services/llm_client.py:110-123 | `max_tokens` is the argument unless it is absent or zero, else the configured default. The model options are merged in, and `"system"` is present exactly when a non-empty system prompt is given. |
| LlmClient.EventRecords | deduction-api/services/llm_client.py:130-151 | A text delta gives a text record. A thinking delta gives a thinking record in thinking mode. Every other event gives nothing. |
| LlmClient.TranslateAppend | deduction-api/services/llm_client.py:130-151 | Translation preserves order: the records of joined event sequences are the joined records. |
| LlmClient.NoThinkingRecords | deduction-api/services/llm_client.py:141-151 | Outside thinking mode only text records are produced. |
| LlmClient.ThinkingModeRecords | deduction-api/services/llm_client.py:130-140 | In thinking mode every record is a text or a thinking record. |
| LlmClient.ModesAgreeOnText | deduction-api/services/llm_client.py:130-151 | The plain mode's records are exactly the thinking mode's text records. |
| LlmClient.ChatCompletionIter | deduction-api/services/llm_client.py:88-151 | The request is the one `BuildApiParams` specifies, and the yielded records are the translation of the events in the mode the options select. |
| ImportQuestions.LastIndexOf | deduction-api/scripts/import_questions.py:61-63 | None exactly when no member has the key; otherwise the position of a member with the key after which none has it. |
| ImportQuestions.Lookup | deduction-api/scripts/import_questions.py:61-63 | A key lookup finds nothing exactly when no member has the key. Otherwise its value is that of the last member with the key, as in the dict `json.load` builds from duplicate keys. |
| ImportQuestions.FirstBad | deduction-api/scripts/import_questions.py:55-66 | None exactly when every entry passes the checks; otherwise the position of an entry that fails, with every earlier one passing. |
| ImportQuestions.CheckEntry | deduction-api/scripts/import_questions.py:57-66 | One entry's key test and conversions give exactly its specified fields or problem. |
| ImportQuestions.LoadQuestions | deduction-api/scripts/import_questions.py:43-68 | The loop returns exactly `Load`: a decode error, a non-list root, the first bad entry, or one row per entry in order. |
| ImportQuestions.LoadOutcomes | deduction-api/scripts/import_questions.py:43-68 | A decode failure and a non-list root are refused. Success happens exactly when the root is a list whose entries all pass, and then there is one row (fresh id, int stage, stripped prompt, stripped answer) per entry, in order. A bad entry is reported at its 1-based index. |
| ImportQuestions.ParseIntDecimal | deduction-api/scripts/import_questions.py:61 | `int()` reads back the decimal text of every integer. |
| ImportQuestions.ParseIntIgnoresPadding | deduction-api/scripts/import_questions.py:61 | Whitespace around a number does not change what `int()` reads. |
| ImportQuestions.EntryRoundTrip | deduction-api/scripts/import_questions.py:57-67 | An object with a numeric stage and two string fields passes, giving the stage and the stripped texts. |
| ImportQuestions.NonObjectWithKeysIsInvalid | deduction-api/scripts/import_questions.py:57-66 | A list holding the three key names passes the key test and then fails the field lookup. |
| ImportQuestions.EntryMissingKey | deduction-api/scripts/import_questions.py:56-58 | An object lacking any one of `stage`, `prompt` and `answer` is refused for missing keys, whatever else it holds. |
| ImportQuestions.EntryBadStage | deduction-api/scripts/import_questions.py:59-65 | An object with all three keys whose stage `int()` rejects is refused as an invalid entry. |
| ImportQuestions.EntryAccepted | deduction-api/scripts/import_questions.py:56-62 | An object with all three keys and a stage `int()` accepts passes, with that stage and the stripped `str()` of the last `prompt` and `answer` members. |
| ImportQuestions.EntryNotContainer | deduction-api/scripts/import_questions.py:56 | For null, a boolean or a number, `k in entry` raises, outside the `try`. |
| ImportQuestions.ImportMain | deduction-api/scripts/import_questions.py:71-93 | A missing file or any refusal ends the run before the store is touched. Otherwise `--clear` empties the bank first, then the rows are appended in order. The result is their number. |

## Left out

- The Anthropic client: the singleton and its `asyncio.Lock`, and the network call `client.messages.create`. The provider's stream events are an input sequence. Whether the stream raises is an input, `Ending`.
- DuckDB itself: connections, read-only mode, migrations and path resolution. The tables are fields of `Db.Store`. Row order in the questions table is insertion order.
- Db.Store.FetchQuestion: `LIMIT 1` without `ORDER BY` leaves the row unspecified. The model takes the first inserted row of the stage. `Db.FetchFinds` states only "some row of that stage". Other lemmas, such as `Session.SubmitServesQuestion`, state their equalities through this deterministic choice. They therefore assume that the same query on unchanged tables returns the same row.
- UUIDs and `CURRENT_TIMESTAMP`: both come from the store's insertion counter `tick`, so ids are fresh and join times distinct and increasing. In the import, ids are a parameter `newId`; a collision of UUIDs with existing rows is not modelled.
- FastAPI, CORS, pydantic response models and `StreamingResponse` are framework plumbing. The UUID check on `/attempt` and its route are left out. `list_models` returns constant data.
- `async`/`await` are modelled as sequential code.
- Configuration loading from the environment and logger setup: only the defaults in `Config.Defaults` are kept.
- `question_bank.get_question_for_stage` only delegates to `fetch_question`, so it is the same function. `import_from_csv` is CSV file I/O.
- Logging and the `print` warnings in `submit_answer` are side output only.
- Unicode: `str.lower()` is modelled on ASCII letters only. In the import, `int()` accepts ASCII digits only, not other Unicode digits. `repr` approximates Python's `str.isprintable`. The C0 controls, U+007F to U+00A0 and the soft hyphen are escaped, and every other character is written as it is. Python also escapes other separators, format characters and unassigned code points. `str()` of a non-string value inherits this through `repr`. `str()` of an object prints every member, in order, even when a key repeats, whereas the dict `json.load` builds keeps only the last value of a repeated key and prints it once, at the position of the first. `str.split()` and `str.strip()` use ASCII whitespace only. The pattern `r"[\\W_]+"` of `_normalise` matches exactly the three characters `\`, `W` and `_`, as the source writes it, so no Unicode question arises there. Characters outside ASCII pass through `lower()` and the pattern unchanged.
- Temperatures 1.0 and 0.1 are two named constants, not floating-point numbers.
- `json.dumps` is modelled for dictionaries from str to str, which is all `_stream` serialises. Non-string values are out of scope.
- Floating-point JSON numbers in the import file are left out.
- The JSON import file is an input `Loaded`: a decoded value or a decode error. Other errors opening the file are not modelled.
- `argparse` and `sys.exit(1)` become `ImportError` results; `--verbose` only affects logging.
- A `TypeError` from `k in entry` on a number, boolean or null is not caught in the source. The model treats it as one more way the import stops (`NotContainer`).
- Integer width: DuckDB's `INTEGER` stage and `BIGINT` counters are unbounded integers here.

## Findings

| source | as written | input that shows it | evidently intended | confidence | as-written member | corrected member |
|---|---|---|---|---|---|---|
| deduction-api/services/session.py:103-107 | `DEFAULT_ANSWER_RULE` is called with the answer, the canonical answer and the stage, but `exact_match` takes two parameters, so the call raises `TypeError` | any known player on stage 1..3 whose stage has a question, submitting any answer | call the rule with (answer, canonical) | not executed | Session.AsWrittenAlwaysRaises | Session.CorrectedRuleDecides |

