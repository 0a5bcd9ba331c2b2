# Family-reunification matching pipeline: a Dafny model

This project models the matching core of a family-reunification backend. A user files a
free-text description of the relatives they are looking for, and a background task then
does three things:

- It clears the user's old matches and marks the user as "processing" (`is_processed = 0`).
- It scores the user's description against every other user's description with a
  language model, keeps the scores above 0.29, sorts them in descending order and stores
  the best ten as rows of the `matches` table.
- Whatever happens, it marks the user as processed (`is_processed = 1`).

The model follows `app/services/matching_service.py` function by function:

- `pystr.dfy` (`PyStr`) holds the Python string operations the reply cleaning relies on:
  `str.strip()`, with Python's whitespace set, plus `find`, `rfind`, the `in` test and
  slicing `s[a:b]`. A slice whose start is past its end is empty.
- `scoring.dfy` (`Scoring`) models `get_similarity_score`. The language-model call,
  `json.loads` and `float()` on a string are foreign code. They are the three functions
  of an `Oracle` value, passed in as a parameter:
  - `generate` returns a reply whose `.text` property yields a text or raises. Reading
    it twice gives the same outcome. The call itself can also raise.
  - `loads` returns a decoded JSON value, or None where `json.loads` raises.
  - `floatOfString` returns a real, or None where `float()` raises.

  The result is a `ScoreOutcome`: a score, or an exception that escapes the function.
- `ranking.dfy` (`Ranking`) models the ranking half of `find_and_store_top_matches`:
  - the scoring loop, as the method `CollectMatches`, proved against the function
    `Passing`;
  - the filter that keeps scores strictly above 0.29;
  - Python's stable `sorted(..., reverse=True)`, as an insertion sort `SortDesc`;
  - the `[:10]` cut;
  - the construction of the `matches` rows.
- `datastore.dfy` (`Store`) models the two Supabase tables as a class `Datastore`:
  - Its fields are the users, the `is_processed` flags by id, the match rows, and the
    list of requests the store was sent, in order.
  - Each of its four methods takes a `fails` flag that decides whether that call raises.
    This lets every failure path of the pipeline be followed.
  - Each method is proved against a function on the value `Snapshot`.
- `matching.dfy` (`Matching`) models `find_and_store_top_matches` and
  `run_matching_process` as methods on the `Datastore`. The record `Faults` says which of
  the five datastore calls raise during a run. Each method is proved against a function:
  - `FindAndStore` and `RunMatching` are those functions.
  - `StoreTop` and `RunWith` are the same functions with the ranking outcome as a
    parameter.
  - The lemmas about the datastore side are stated for every ranking outcome.

The prompt asks the language model for a score between 0.0 and 1.0
(`app/services/matching_service.py:72-77` and `:91-93`), and the docstring says the
reply is parsed "robustly" (`:97`). The code itself behaves as follows, and so does the
model:

- Only a Markdown ```` ```json ```` fence is removed from the reply. There is no search for
  the first well-formed JSON object.
- The score is not clamped to [0, 1]. Whatever real number `float()` produces is returned
  (`ParsedScoreNotClamped`).
- `get_similarity_score` does not always return. Its first handler, at line 117, reads
  `response` and `response.text` again. When the model call itself raised `ValueError` or
  `AttributeError`, `response` was never assigned, so an exception escapes. When reading
  `.text` raised one of those, reading it again raises again. In both cases the exception
  escapes the scoring loop and `find_and_store_top_matches`, and `run_matching_process`
  catches it (`EscapesExactly`, `RankedOutcome`).
- A failure to list the other users is caught inside `find_and_store_top_matches`, which
  then simply returns.
- The flag ends at 1 unless the final write itself fails. In that case it stays 0 when the
  run got past the flag-0 write, and otherwise keeps its old value (`RunWithFlags`).
- The flags are the integers 0 and 1.
- Updating the flag of an id that has no row changes nothing.

## Model

| member | source | states |
|---|---|---|
| PyStr.SkipSpace | app/services/matching_service.py:103 | the index where leading whitespace ends: everything before it is whitespace, and the character at it is not |
| PyStr.SkipSpaceBack | app/services/matching_service.py:103 | the index where trailing whitespace starts: everything from it on is whitespace, and the character before it is not |
| PyStr.Strip | app/services/matching_service.py:103 | `strip()` returns a result with no whitespace at either end, found inside the input with only whitespace before and after it |
| PyStr.StripUnpads | app/services/matching_service.py:103 | stripping a text padded with whitespace on both sides returns exactly that text, provided the text has no whitespace at its ends |
| PyStr.StripIdempotent | app/services/matching_service.py:103 | stripping twice gives the same as stripping once |
| PyStr.Find | app/services/matching_service.py:107 | `find` returns the first index where the pattern occurs, or -1 when it occurs nowhere |
| PyStr.FindFrom | app/services/matching_service.py:107 | the first occurrence at or after a start index, or -1 when there is none |
| PyStr.RFind | app/services/matching_service.py:108 | `rfind` returns the last index where the pattern occurs, or -1 when it occurs nowhere |
| PyStr.RFindAtOrBelow | app/services/matching_service.py:108 | the last occurrence at or below an index, or -1 when there is none |
| PyStr.Contains | app/services/matching_service.py:106 | the `in` test holds exactly when the pattern occurs at some index |
| PyStr.Slice | app/services/matching_service.py:109 | `s[a:b]` clips both bounds to the text and is empty when the start is at or past the end |
| Scoring.ExtractJson | app/services/matching_service.py:105-109 | without "```json" the text is unchanged; with it, the result is stripped and no longer than the text |
| Scoring.JsonFenceOpensFence | app/services/matching_service.py:106-108 | every "```json" begins with "```", so `rfind("```")` cannot be -1 on the fenced path |
| Scoring.FencedBodyExtracted | app/services/matching_service.py:105-109 | a reply of the form "```json" + body + "```" yields the stripped body |
| Scoring.OpeningFenceOnlyExtractsNothing | app/services/matching_service.py:107-109 | with an opening "```json" and no other "```", the slice runs backwards and the extracted text is empty |
| Scoring.ToFloat | app/services/matching_service.py:112 | `float()` of a JSON number is the number, of a boolean 1.0 or 0.0; null, arrays and objects raise |
| Scoring.EmptyParagraphSkipsModel | app/services/matching_service.py:98-99 | an empty paragraph scores 0.0 whatever the model would answer |
| Scoring.EscapesExactly | app/services/matching_service.py:101-121 | an exception escapes exactly when both paragraphs are non-empty and the model call or the read of `.text` raises ValueError or AttributeError; every other exception gives 0.0 |
| Scoring.NonZeroScoreIsParsedField | app/services/matching_service.py:102-114 | a non-zero score is `float` of the "similarity_score" field of the reply decoded after stripping and fence removal |
| Scoring.ParsedScoreNotClamped | app/services/matching_service.py:111-114 | a decoded object holding "similarity_score" scores exactly `float` of that field, whatever other fields it has and whatever real that is; no clamping to [0, 1] |
| Scoring.MissingFieldScoresZero | app/services/matching_service.py:112 | a decoded object without "similarity_score" scores 0.0, the default of `.get` |
| Scoring.UnconvertibleScoresZero | app/services/matching_service.py:111-118 | undecodable text, a decoded value that is not an object, or a field `float` rejects all score 0.0 |
| Scoring.OpeningFenceOnlyScoresZero | app/services/matching_service.py:106-118 | a reply with an opening fence and no closing one scores 0.0 when the decoder rejects the empty text |
| Scoring.ScoreOfJson | app/services/matching_service.py:112 | a non-zero score is `float` of the "similarity_score" field of a decoded object; a non-object value, a missing field or a field `float` rejects gives 0.0 |
| Scoring.ScoreOfText | app/services/matching_service.py:103-118 | the score of a readable reply: strip, fence removal, `json.loads`, then `.get` and `float`; its outcomes are stated by `NonZeroScoreIsParsedField`, `ParsedScoreNotClamped`, `MissingFieldScoresZero` and `UnconvertibleScoresZero` |
| Scoring.SimilarityScore | app/services/matching_service.py:96-121 | `get_similarity_score`: 0.0 for an empty paragraph (`EmptyParagraphSkipsModel`), an escaping exception exactly in the cases of `EscapesExactly`, otherwise the score of the reply text |
| Ranking.ScoreAll | app/services/matching_service.py:142-144 | scoring every candidate gives one entry per candidate, or fails |
| Ranking.ScoreAllFailsOnEscape | app/services/matching_service.py:142-144 | the scoring run fails exactly when some candidate's scoring call lets an exception escape |
| Ranking.ScoreAllPointwise | app/services/matching_service.py:142-144 | when no scoring call escapes, entry j is candidate j's id with its score, in candidate order |
| Ranking.AboveThreshold | app/services/matching_service.py:145-146 | exactly the entries scoring strictly above 0.29 are kept, and none is added |
| Ranking.AboveThresholdKeepsOrder | app/services/matching_service.py:145-146 | entries with equal scores keep their relative order, and nothing at or below 0.29 survives |
| Ranking.PassingStep | app/services/matching_service.py:142-146 | one loop iteration: stop on an escape, append the candidate when its score is above 0.29, otherwise keep the list |
| Ranking.Passing | app/services/matching_service.py:141-146 | `all_matches` after the loop, or None when a scoring call escapes; `CollectMatches` is proved equal to it, and `PassingStep` gives one iteration |
| Ranking.CollectMatches | app/services/matching_service.py:141-146 | the loop returns the candidates scoring above 0.29 in candidate order, or fails when a scoring call escapes |
| Ranking.InsertBack | app/services/matching_service.py:149 | inserting adds exactly the one entry |
| Ranking.InsertBackSorted | app/services/matching_service.py:149 | inserting into a descending list keeps it descending |
| Ranking.InsertBackAbove | app/services/matching_service.py:149 | inserting never brings in a score below a bound that every entry and the new one meet |
| Ranking.InsertBackStable | app/services/matching_service.py:149 | the inserted entry goes behind every entry with the same score |
| Ranking.SortDesc | app/services/matching_service.py:149 | the sort returns the same entries, descending by score |
| Ranking.SortIsStable | app/services/matching_service.py:149 | entries with equal scores keep their input order |
| Ranking.TopMatches | app/services/matching_service.py:149-150 | the top list has min(10, n) entries, is the front of the sorted list, and is descending |
| Ranking.TopMatchesAreBest | app/services/matching_service.py:149-150 | every entry cut off scores no more than every entry kept |
| Ranking.TopMatchesFromInput | app/services/matching_service.py:149-150 | the top list holds only entries of its input, none repeated beyond its input |
| Ranking.TopMatchInInput | app/services/matching_service.py:149-150 | every top entry comes from the input |
| Ranking.ScoredEntryIsCandidate | app/services/matching_service.py:142-146 | every scored entry is some candidate with exactly that candidate's score |
| Ranking.TopMatchIsScoredCandidate | app/services/matching_service.py:142-150 | every top entry scores above 0.29 and is some candidate with exactly that candidate's score |
| Ranking.BuildRows | app/services/matching_service.py:158-165 | one row per top entry, in the same order, with the subject as `user1_id` |
| Store.OthersOf | app/services/matching_service.py:131-132 | the listing holds exactly the users whose id differs from the subject's |
| Store.MatchesOf | app/services/matching_service.py:183 | exactly the rows whose `user1_id` is the given id |
| Store.WithoutMatchesOf | app/services/matching_service.py:183 | the deletion leaves exactly the rows whose `user1_id` is not the given id |
| Store.SetFlag | app/services/matching_service.py:185 | the flag update sets the subject's flag when the subject has a row and changes no other flag |
| Store.ReplaceGivesNewSet | app/services/matching_service.py:183-188 | after the deletion and an insert of rows for the subject, the subject's rows are exactly the inserted ones |
| Store.NoneLeftAfterDelete | app/services/matching_service.py:183 | after the deletion the subject has no rows |
| Store.ReplaceKeepsOthers | app/services/matching_service.py:183-188 | deleting and re-inserting the subject's rows leaves every other subject's rows as they were |
| Store.DeleteKeepsOthers | app/services/matching_service.py:183 | the deletion leaves every other subject's rows as they were |
| Store.Delete | app/services/matching_service.py:183 | the snapshot after the delete: the request is recorded and, unless it raises, the subject's rows are gone and other rows kept (`NoneLeftAfterDelete`, `DeleteKeepsOthers`) |
| Store.Update | app/services/matching_service.py:185 | the snapshot after a flag write: the request is recorded and, unless it raises, the flags are `SetFlag` of the old ones |
| Store.List | app/services/matching_service.py:131 | the snapshot after the listing: only the request is recorded |
| Store.Insert | app/services/matching_service.py:169 | the snapshot after the insert: the request is recorded and, unless it raises, the rows are appended |
| Store.Datastore.DeleteMatchesOf | app/services/matching_service.py:183 | the delete request is recorded; unless it raises, the subject's rows are removed |
| Store.Datastore.UpdateProcessed | app/services/matching_service.py:185 | the flag update is recorded; unless it raises, the flag is set |
| Store.Datastore.ListOthers | app/services/matching_service.py:131-132 | the listing is recorded and returns the other users, or nothing when it raises |
| Store.Datastore.InsertMatches | app/services/matching_service.py:169 | the insert is recorded; unless it raises, the rows are appended as one batch |
| Matching.FindAndStoreTopMatches | app/services/matching_service.py:123-172 | the datastore and the raised flag end as the specification function says, on every failure path |
| Matching.Ranked | app/services/matching_service.py:133-150 | the ranking outcome: None on an escape, else the top ten passing matches, empty when there are no other users (`RankedOutcome`) |
| Matching.StoreTop | app/services/matching_service.py:130-172 | `find_and_store_top_matches` given the ranking outcome; its effect on the tables is `StoreTopEffect` and its requests are `StoreTopRequests` |
| Matching.FindAndStore | app/services/matching_service.py:123-172 | `find_and_store_top_matches` with the ranking of the stored users; `FindAndStoreTopMatches` is proved equal to it and `FindAndStoreEffect` states its effect |
| Matching.RowsOf | app/services/matching_service.py:155-172 | the rows appended to `matches` given the ranking outcome: the top rows unless the listing or the insert raised (`StoreTopEffect`) |
| Matching.InsertedRows | app/services/matching_service.py:130-172 | the rows a run stores; `InsertedRowsAreTopMatches`, `InsertedRowsNameScoredUsers` and `NothingInsertedExactly` state what they are |
| Matching.InsertSent | app/services/matching_service.py:155-169 | the insert request, sent exactly when the listing worked and the top list is non-empty, carrying `BuildRows` of the top list (`StoreTopRequests`) |
| Matching.RankedOutcome | app/services/matching_service.py:133-150 | the ranking fails exactly when some other user's scoring call escapes; otherwise it is the top ten of the passing matches, and empty when there are no other users |
| Matching.StoreTopEffect | app/services/matching_service.py:130-172 | users and flags are untouched, `matches` only gains the inserted rows, and the function raises exactly when the listing worked and the ranking failed |
| Matching.FindAndStoreEffect | app/services/matching_service.py:130-172 | the same, for the ranking of the stored users |
| Matching.StoreTopRequests | app/services/matching_service.py:130-172 | the listing request is sent first, then the insert of the top rows exactly when the listing worked and the top list is non-empty |
| Matching.InsertedRowsAreTopMatches | app/services/matching_service.py:145-165 | the stored rows number at most ten, belong to the subject, score above 0.29 and descend; when any are stored, they number min(10, passing) |
| Matching.InsertedRowsNameScoredUsers | app/services/matching_service.py:131-165 | every stored row names another user whose description scored exactly the stored score |
| Matching.NothingInsertedExactly | app/services/matching_service.py:130-172 | nothing is stored exactly when the listing or the insert fails, a scoring call escapes, or no score passes |
| Matching.RunMatchingProcess | app/services/matching_service.py:174-202 | the datastore ends as the specification function says; when the final write succeeds, the flags are the old ones with the subject's set to 1 |
| Matching.RunWith | app/services/matching_service.py:180-201 | `run_matching_process` given the ranking outcome; its flags, requests and match rows are stated by `RunWithFlags`, `RunWithSends`, `RunWithRequestOrder` and `RunWithReplacesMatchSet` |
| Matching.RunMatching | app/services/matching_service.py:174-202 | `run_matching_process` with the ranking of the stored users; `RunMatchingProcess` is proved equal to it (`FlagEndsProcessed`, `RunMatchingReplacesMatchSet`) |
| Matching.RunWithFlags | app/services/matching_service.py:180-201 | the flag ends at 1 whenever the final write succeeds; if it fails, the flag is 0 after the flag-0 write and unchanged otherwise; users never change |
| Matching.FlagEndsProcessed | app/services/matching_service.py:193-201 | a subject with a row has flag 1 after every run whose final write succeeds |
| Matching.RunWithSends | app/services/matching_service.py:180-201 | the exact request sequence of a run on every fault path: delete; flag 0 unless the delete raised; the listing and the insert of `BuildRows` of the top list when it is sent; flag 1 last |
| Matching.RunWithRequestOrder | app/services/matching_service.py:180-201 | the delete comes first, the flag-0 write second, an insert only fourth, and the flag-1 write last |
| Matching.RunWithReplacesMatchSet | app/services/matching_service.py:180-188 | a failed delete leaves the table as it was; otherwise the subject's rows are exactly the new ones and other subjects' rows are unchanged |
| Matching.RunMatchingReplacesMatchSet | app/services/matching_service.py:180-188 | after a run whose delete and flag-0 write succeed, the subject's rows are exactly the rows of its top matches |

## Left out

- `build_prompt` (lines 20-94) builds a fixed prompt text. It is folded into the oracle's
  `generate` function, which takes the two paragraphs directly.
- The model client configuration (lines 11-13), the contents of the model's replies,
  `json.loads` and `float()` on strings are foreign code. They are parameters (`Oracle`).
  The model only states how their outcomes are combined.
- Logging (lines 113, 117, 120, 128, 134, 137, 143, 152, 170, 172, 179, 182, 191, 196, 199,
  201, 202) has no effect on the data and is not modelled. One exception: the read of
  `response` and `response.text` at line 117 can raise, and that is modelled.
- Scores are exact reals. Floating-point rounding, NaN, infinities and `OverflowError` are
  not modelled. A NaN score compares false against 0.29 at line 145, so it would be
  dropped before the sort; the model has no such value.
- Scoring.SimilarityScore: the oracle's `generate` is a function of the two paragraphs, so
  two candidates with equal descriptions always get the same reply in the model, while the
  real language model can answer each call differently.
- Exceptions that are not subclasses of `Exception` (such as `KeyboardInterrupt`) are not
  modelled. Neither are `KeyError` from a listed row without `id` or `description`, nor a
  `None` description. Listed rows are assumed to carry an integer id and a text
  description.
- Each datastore call either fully succeeds or fully raises. A partial insert and the
  network are not modelled. The listing is the store's users in store order; ordering
  and paging on the server side are not modelled.
- The scheduling of `run_matching_process` as a background task, and concurrent runs for
  different users interleaving on the same tables, are not modelled. Each run is
  sequential against one datastore.
- Scoring.SimilarityScore: each `.text` read is assumed to have the same outcome, so the
  re-read at line 117 either yields the text or raises the same exception class again.
- The routers, configuration, the Supabase client setup and the application entry point
  are not part of this model.
