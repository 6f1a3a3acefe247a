# Exam answer sheet — a Dafny model of its state store

The exam answer sheet is a browser component. For a configurable number of questions it
records the letter chosen for each question and, optionally, whether that answer was
correct. It can export the results, and it keeps its state in the browser's key-value
storage across reloads. This project models the component's state store as a Dafny class
(`AnswerSheet.ExamAnswerSheet`). The class holds the question count, the sparse answer and
correctness records, the number of options per question, the `hasHydrated` flag and the
storage it writes through to. It has one method per handler. Pure modules hold the parts
that only compute:

- `Persistence`: the four storage keys, the hydration validator and the numeric bounds
  checks. It also holds the JSON object each record is stored as, and the round trips
  through storage.
- `ExportRecords`: the records the export builds, and reading a sheet back from them.
- `Alphabet`: the answer letters.
- `Summary`: the answered, correct, incorrect and "Sin evaluar" counters.
- `Decimal`: integer-to-text conversion and its inverse. `Json`: the parsed JSON value.
  `Maybe`: the optional value.

`JSON.parse` and `JSON.stringify` belong to the browser, so the sheet receives them as two
functions when it is created. Lemmas that depend on them assume that the text of every
object whose properties are strings or booleans (the only values the sheet stores through
them) is non-empty and parses back to that object (`Persistence.FaithfulJson`). The storage
is a map from keys to texts; `Persistence.Lookup` is `localStorage.getItem`, with None
standing for null.

Where this model and the prose description of the system differ, the model follows the
code:

- `clearAllAnswers` removes the two record keys, but once writes are enabled the
  write-through effects store the empty records under them again. The keys are therefore
  not left absent (`ClearAllAnswers`).
- The range invariant "every question number is in 1..count" does not hold. Hydration
  adopts a stored record without comparing its question numbers with the count
  (`HydrationIgnoresQuestionCount`).
- The handlers do not check their question number or option. The model's methods do not
  require either.

## Model

| member | source | states |
|---|---|---|
| `AnswerSheet.ExamAnswerSheet.constructor` | src/components/ExamAnswerSheet.jsx:5-9 | The sheet starts with 20 questions, 4 options, no answers, no flags and writes disabled. Storage holds what the browser already had. |
| `AnswerSheet.ExamAnswerSheet.Hydrate` | src/components/ExamAnswerSheet.jsx:34-69 | Each field takes its stored value when validation accepts it and keeps its value otherwise. Nothing is written, and the settings stay within their bounds. |
| `AnswerSheet.ExamAnswerSheet.EnableWriteThrough` | src/components/ExamAnswerSheet.jsx:96-98 | Sets the flag that opens the write-through. |
| `AnswerSheet.ExamAnswerSheet.Save` | src/components/ExamAnswerSheet.jsx:72-93 | One write-through effect. It writes its own key only, and only once writes are enabled. |
| `AnswerSheet.ExamAnswerSheet.HandleAnswerChange` | src/components/ExamAnswerSheet.jsx:108-113 | Only key q of the answers changes. The flags and settings are untouched, and only the answers key is written (gated). |
| `AnswerSheet.ExamAnswerSheet.HandleCorrectnessChange` | src/components/ExamAnswerSheet.jsx:116-121 | Only key q of the flags changes. The answers and settings are untouched, and only the correctness key is written (gated). |
| `AnswerSheet.ExamAnswerSheet.ClearIndividualAnswer` | src/components/ExamAnswerSheet.jsx:124-130 | Removes only key q from the answers, and does nothing to them when q is absent. The flag for q survives. |
| `AnswerSheet.ExamAnswerSheet.ClearIndividualCorrectness` | src/components/ExamAnswerSheet.jsx:133-139 | Removes only key q from the flags. The answers are untouched. |
| `AnswerSheet.ExamAnswerSheet.IncreaseQuestions` | src/components/ExamAnswerSheet.jsx:142-144 | The count grows by exactly 5 with no upper bound. Both records are unchanged, and only the count key is written. |
| `AnswerSheet.ExamAnswerSheet.DecreaseQuestions` | src/components/ExamAnswerSheet.jsx:147-167 | Above 5 questions, the count drops by 5 and exactly questions old-4..old are deleted from both records. Every other entry is kept and three keys are written. At 5 or fewer, nothing changes. |
| `AnswerSheet.ExamAnswerSheet.ChangeOptionsPerQuestion` | src/components/ExamAnswerSheet.jsx:243-247 | Sets the options value and empties both records. The options key is written only when the value changed; both record keys are written. |
| `AnswerSheet.ExamAnswerSheet.ClearAllAnswers` | src/components/ExamAnswerSheet.jsx:170-176 | Empties both records and leaves the settings unchanged. Before hydration the two keys are removed from storage; after it, they hold the empty records. |
| `AnswerSheet.ExamAnswerSheet.ExportAnswers` | src/components/ExamAnswerSheet.jsx:179-187 | Its loop builds exactly the records of `ExportRecords.Export` for the current state. |
| `AnswerSheet.DeleteRange` | src/components/ExamAnswerSheet.jsx:151-165 | The deletion loop leaves the map without keys lo..hi and with every other entry unchanged. |
| `AnswerSheet.WithoutRange` | src/components/ExamAnswerSheet.jsx:153-155 | A key is kept exactly when it was present and lies outside lo..hi, and its value is kept with it. |
| `Persistence.ValidateLocalStorageData` | src/components/ExamAnswerSheet.jsx:12-31 | Accepts a stored text exactly when it is non-empty and parses to an object (not null, not an array) whose every property name is a positive integer. Then it returns that object's fields. |
| `Persistence.StoredNumber` | src/components/ExamAnswerSheet.jsx:53-66 | A stored setting is accepted only when its text reads as an integer within the bounds: 1..200 for the count, 3..6 for the options. |
| `Persistence.HydratedNumber` | src/components/ExamAnswerSheet.jsx:53-66 | After hydration a setting is either unchanged or within its bounds. |
| `Persistence.StoredNumberRoundTrip` | src/components/ExamAnswerSheet.jsx:84-93 | A setting written with `toString()` is read back exactly when it lies within the bounds (both directions). |
| `Persistence.LargeCountIsForgotten` | src/components/ExamAnswerSheet.jsx:53-58 | A stored count above 200, which the increase allows, is replaced by 20 on the next start. |
| `Persistence.RecordJson` | src/components/ExamAnswerSheet.jsx:72-81 | The stored object has each question number, written in decimal, as a property name carrying that question's encoded value. |
| `Persistence.RecordJsonNames` | src/components/ExamAnswerSheet.jsx:72-81 | Every property name of a stored record comes from one of its question numbers. |
| `Persistence.RecordOf` | src/components/ExamAnswerSheet.jsx:41-50 | Each question held after adoption has an entry under its decimal name that decodes to the held value. |
| `Persistence.HydrateRecord` | src/components/ExamAnswerSheet.jsx:40-50 | One record of the loading effect: the decoded stored record replaces the current one when the validator accepts it, and the current one is kept otherwise. |
| `Persistence.RecordJsonFlat` | src/components/ExamAnswerSheet.jsx:72-81 | A record whose values are stored as strings or booleans is written as an object with only string and boolean properties. |
| `Persistence.RecordJsonAccepted` | src/components/ExamAnswerSheet.jsx:20-24 | A record the sheet writes passes the validator exactly when all its question numbers are positive. |
| `Persistence.RecordRoundTrip` | src/components/ExamAnswerSheet.jsx:41-50 | Decoding the object a record is written as gives back that record. |
| `Persistence.HydratedRecordRoundTrip` | src/components/ExamAnswerSheet.jsx:41-50 | Hydrating from a written record restores it when its numbers are positive. Otherwise the whole record is rejected and the current one is kept. |
| `Persistence.AnswersRoundTrip` | src/components/ExamAnswerSheet.jsx:72-75 | Answers with positive question numbers survive a write and a reload unchanged. |
| `Persistence.CorrectnessRoundTrip` | src/components/ExamAnswerSheet.jsx:78-81 | Flags with positive question numbers survive a write and a reload unchanged. |
| `Persistence.PersistedRoundTrip` | src/components/ExamAnswerSheet.jsx:34-93 | Reloading from the four written keys restores both records. The count and options are restored when within bounds, and replaced by the defaults otherwise. |
| `Persistence.KeysDistinct` | src/components/ExamAnswerSheet.jsx:35-38 | The four storage keys are pairwise distinct, so each field writes its own entry. |
| `Persistence.HydrationIgnoresQuestionCount` | src/components/ExamAnswerSheet.jsx:40-44 | A stored answer for question 500 is adopted even though a hydrated count is at most 200. |
| `Persistence.ZeroKeyRejectsRecord` | src/components/ExamAnswerSheet.jsx:20-24 | One property name that is not positive discards the whole stored record. |
| `Persistence.ArrayOrNullRejected` | src/components/ExamAnswerSheet.jsx:17-19 | A stored array or null is never accepted as a record. |
| `Persistence.AnswerCodec` | src/components/ExamAnswerSheet.jsx:108-113 | A one-letter answer is read back as the same letter. |
| `Persistence.FlagCodec` | src/components/ExamAnswerSheet.jsx:116-121 | A boolean flag is read back as the same flag. |
| `Decimal.ParseIntOfIntToString` | src/components/ExamAnswerSheet.jsx:54 | `parseInt` of the text `toString` writes for an integer gives that integer. |
| `Decimal.IntToStringInjective` | src/components/ExamAnswerSheet.jsx:111 | Distinct question numbers get distinct property names. |
| `Decimal.IntToString` | src/components/ExamAnswerSheet.jsx:86-92 | `toString` of an integer is non-empty. It is all digits exactly when the integer is not negative, and otherwise a minus sign followed by digits. |
| `Decimal.ParseInt` | src/components/ExamAnswerSheet.jsx:54-66 | `parseInt` of a stored count (and of a property name, line 21) reads a number only from a non-empty text. A digit string reads as its value, and a positive number is read only from a text of digits. |
| `Decimal.NatToString` | src/components/ExamAnswerSheet.jsx:86 | The text of a number is a non-empty string of digits without a leading zero. |
| `Alphabet.GenerateOptions` | src/components/ExamAnswerSheet.jsx:101-105 | The alphabet has length n, and letter i has code 65 + i. |
| `Alphabet.OfferedLetters` | src/components/ExamAnswerSheet.jsx:101-105 | A character is offered exactly when its code lies in 65..64+n. |
| `Alphabet.OptionsDistinct` | src/components/ExamAnswerSheet.jsx:101-105 | No letter is offered twice. |
| `Alphabet.OptionsPrefix` | src/components/ExamAnswerSheet.jsx:101-105 | With fewer options, the alphabet is a prefix of the one with more. |
| `Alphabet.SelectorAlphabets` | src/components/ExamAnswerSheet.jsx:250-253 | The selector's values 3 and 6 give "ABC" and "ABCDEF". |
| `ExportRecords.Export` | src/components/ExamAnswerSheet.jsx:179-187 | The export has exactly n records, with record i for question i+1 in ascending order. |
| `ExportRecords.ExportAnswersReadBack` | src/components/ExamAnswerSheet.jsx:184 | Reading answers back from the export gives exactly the answers for questions 1..n. |
| `ExportRecords.ExportFlagsReadBack` | src/components/ExamAnswerSheet.jsx:185 | Reading "Sí" and "No" back from the export gives exactly the flags for questions 1..n. |
| `ExportRecords.ExportReadBack` | src/components/ExamAnswerSheet.jsx:179-187 | The export is lossless on questions 1..n and ignores entries for any other question. |
| `ExportRecords.ExportOfThree` | src/components/ExamAnswerSheet.jsx:181-186 | Three questions, with 1 answered "A" and marked correct, export as (1, "A", "Sí") and twice (q, "Sin respuesta", "No evaluada"). |
| `ExportRecords.RecordFor` | src/components/ExamAnswerSheet.jsx:182-186 | The record of question q shows "Sin respuesta" exactly when q has no answer, and "No evaluada", "Sí" or "No" exactly when q has no flag, a true flag or a false flag. |
| `ExportRecords.ExportMissesLaterAnswers` | src/components/ExamAnswerSheet.jsx:181-186 | Answers only for questions beyond n appear nowhere in the export of n questions. |
| `ExportRecords.Within` | src/components/ExamAnswerSheet.jsx:181 | The entries of a record for questions 1..n. |
| `Summary.VerdictsPartition` | src/components/ExamAnswerSheet.jsx:431-437 | The "Correctas" and "Incorrectas" counts add up to the number of flags. |
| `Summary.UnevaluatedWhenFlagsAreAnswered` | src/components/ExamAnswerSheet.jsx:443 | When every flagged question is answered, "Sin evaluar" is the number of answered questions without a flag, so it is not negative. |
| `Summary.ClearedAnswerLeavesNegativeUnevaluated` | src/components/ExamAnswerSheet.jsx:427-443 | On a sheet where every answer has a flag and at least two answers exist, clearing one answer keeps the statistics on screen and makes "Sin evaluar" -1. |
| `Summary.ClearedFirstOfTwo` | src/components/ExamAnswerSheet.jsx:427-443 | Answers {1: A, 2: B} with both flagged correct, then question 1 cleared: one answer remains and "Sin evaluar" is -1. |
| `Summary.AnsweredCount` | src/components/ExamAnswerSheet.jsx:278 | The answered count is 0 exactly when there are no answers, the condition under which the statistics are hidden (line 427). |
| `Summary.CorrectCount` | src/components/ExamAnswerSheet.jsx:431 | At most the number of flags, and positive exactly when some question is flagged correct. |
| `Summary.IncorrectCount` | src/components/ExamAnswerSheet.jsx:437 | At most the number of flags, and positive exactly when some question is flagged incorrect. |
| `Summary.Unevaluated` | src/components/ExamAnswerSheet.jsx:443 | "Sin evaluar" is negative only when some flagged question has no answer. |
| `AnswerSheet.AnsweredBeyondCount` | src/components/ExamAnswerSheet.jsx:40-66 | With a stored answer for question 500 and any stored count, hydration yields one answered question ("1 / n" at line 278). The hydrated count n is below 500, and no record of the export for n questions carries that answer. |
| `AnswerSheet.OnlyQuestion500` | src/components/ExamAnswerSheet.jsx:179-187 | A sheet answered only on question 500 counts one answer, and its export for fewer than 500 questions has "Sin respuesta" everywhere. |
| `AnswerSheet.ClearedAnswerKeepsFlag` | src/components/ExamAnswerSheet.jsx:124-130 | A session that answers q, flags it correct and clears its answer leaves q unanswered but flagged correct, and exports (q, "Sin respuesta", "Sí"). Nothing is stored before writes are enabled. |
| `AnswerSheet.ExamAnswerSheet.Options` | src/components/ExamAnswerSheet.jsx:199 | The letters offered on every question are the first `optionsPerQuestion` letters of "ABCDEF". |

## Left out

- Rendering, CSS classes, icons and the answer summary list: these are presentation only.
- The download itself (the JSON text of the results, `Blob`, the object URL, the link
  click). This is browser I/O; the export is modelled as its sequence of records.
- `JSON.parse` / `JSON.stringify` text handling. The sheet receives these as functions,
  and only the lemmas that need a faithful library assume it (`FaithfulJson`).
- `Decimal.ParseInt`: accepts only an optional minus sign followed by digits. JavaScript's
  `parseInt` also skips leading blanks, accepts '+' and stops at the first non-digit, so it
  also accepts names like "3a" or " 3", which the model rejects. Precision loss for very
  long digit strings is not modelled either.
- `Persistence.RecordOf`: within an accepted stored record, the model drops entries whose
  property name is not the plain decimal text of a number (such as "01"), and entries whose
  value is not a one-letter string (answers) or a boolean (flags). The source keeps such
  entries as they are. Entries under names that are not plain decimal count in
  "Respuestas completadas" but are never found by question number. Ill-typed values under
  plain names are found: a stored answer "AB" for question 1 is shown as "Respuesta: AB"
  and exported as "AB", and a stored flag "x" exports as "No evaluada". The model's records
  are maps from numbers to letters or booleans, so they cannot hold such entries.
- JSON numbers are integers; fractions and the floating-point progress-bar percentage are
  not modelled.
- `console.error` on a parse failure: logging.
- React's effect scheduling beyond the one `hasHydrated` gate. In particular, the
  re-render that follows hydration writes the hydrated fields back to storage, and this
  write-back is not modelled.
- The branch of `validateLocalStorageData` for other value types returns the parsed value
  unchecked. Nothing calls it with another type, so it is not modelled.
- `Alphabet.GenerateOptions`: requires n <= 0xD800 - 65. Beyond that bound
  `String.fromCharCode` yields surrogate code units or wraps around, and a Dafny `char`
  cannot hold these. The sheet only asks for 3 to 6 letters.
- `AnswerSheet.ExamAnswerSheet.ChangeOptionsPerQuestion`: requires a value in 3..6, the
  only values the selector offers.
- The dark-mode toggle and the application wrapper. They hold no state of the sheet, and
  the theme context they use is not part of this model.
