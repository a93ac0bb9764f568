# Disease Treatment Game: the backend's patient store, in Dafny

The backend of the Disease Treatment Game (`backend/index.js`) serves a
quiz. `GET /patient` invents a virtual patient: a disorder drawn from a
fixed catalog, three different symptoms of it, a display name and the list
of medications to choose from. `POST /treat` takes the patient's id and the
player's chosen medication. It says whether the choice is the disorder's
recommended treatment, compared without case and without the whitespace
around the choice. Then it forgets the patient.

This project models that logic and proves what it promises:

- `Text.dfy`: JavaScript's `trim` and `toLowerCase`. `trim` is modelled
  exactly, on strings without lone surrogates. `toLowerCase` is modelled for ASCII letters.
- `Random.dfy`: `chooseRandom`. Each sample `Math.random()` would return is
  supplied by the caller as a real number in [0, 1).
- `Catalog.dfy`: the seven disorder records and the patient names.
  `FirstSeen` is the de-duplication `Array.from(new Set(...))` performs.
  `MedicationOptions` is the options list derived with it.
- `Sessions.dfy`:
  - the symptom-drawing rejection loop;
  - the verdict and message of `POST /treat`;
  - the store (`nextId` and the `patients` map), once as the class
    `SessionStore` that updates its two fields in place, and once as values
    (`Admit`, `Discharge`, `Run`) for the properties that span many requests.

The main results:

- The symptom loop can finish exactly when the record has at least three
  distinct symptoms, repeats allowed: this is proved in both directions.
  Every record in the catalog qualifies.
- The loop returns the first three distinct symptoms drawn, in draw order.
- The options list has no repeats, holds every record's medication and
  nothing else, and is in first-seen order. These three properties
  determine it uniquely.
- Ids are issued as 1, 2, 3, ..., with no gaps or repeats, whatever
  treatments happen in between. This holds until the counter reaches 2^53.
  `nextId` is a JavaScript number, and `nextId++` cannot get past 2^53, so
  from then on every patient gets the id 2^53. The model keeps that limit.
- A treated patient is gone for good: any later treatment of the same id
  below 2^53 is rejected with "Invalid patient ID" (status 400).
- The verdict is true exactly when the choice is a string that equals the
  recommendation up to ASCII case once its surrounding whitespace is
  removed. Both messages have their texts pinned down, and worked examples
  spell them out in full.

Some points of the handler's behaviour:

- An empty choice is a string that does not match any medication.
- The verdict is computed before the entry is deleted. The message is
  built after the delete.
- If rendering the choice into the wrong-choice message throws, Express
  answers with status 500, and the patient has already been removed.
- The lookup and the delete are not one atomic step. Node runs each
  handler to completion on one thread, so no other request can come in
  between them.

## Model

| member | source | states |
|---|---|---|
| `Text.Trim` | backend/index.js:171 | the result of `trim` is empty or begins and ends with a non-whitespace character, and is no longer than the input |
| `Text.TrimDecomposes` | backend/index.js:171 | `trim` removes only whitespace, and only from the two ends: the input is a whitespace prefix, the result, then a whitespace suffix |
| `Text.TrimOfPadded` | backend/index.js:171 | any whitespace around a trimmed string is removed and the string itself is returned unchanged; with TrimDecomposes this determines `trim` completely |
| `Text.TrimOfTrimmed` | backend/index.js:171 | a string without surrounding whitespace is its own trim |
| `Text.TrimIdempotent` | backend/index.js:171 | trimming twice gives the same as trimming once |
| `Text.LowerChar` | backend/index.js:171 | `toLowerCase` on one character: an ASCII capital moves to its small letter, every other character is kept, and the result is never an ASCII capital |
| `Text.ToLower` | backend/index.js:171 | `toLowerCase` keeps the length and lower-cases each character in place |
| `Text.ToLowerEqualIff` | backend/index.js:171 | two strings are equal after lower-casing if and only if they have the same length and agree position by position up to ASCII case |
| `Random.IndexOf` | backend/index.js:128 | `Math.floor(u * n)` for a sample u in [0, 1) is an index below n, and it is the floor of u·n |
| `Random.ChooseRandom` | backend/index.js:127-129 | `chooseRandom` always returns an element of the array |
| `Random.ChooseRandomCovers` | backend/index.js:127-129 | every element can be chosen: for each index some sample selects it |
| `Catalog.CatalogWellFormed` | backend/index.js:22-100 | there are seven records, each has at least three symptoms with no repeats, and no two records share a name |
| `Catalog.FirstSeen` | backend/index.js:103 | de-duplication returns no repeats and exactly the elements of the input, and is no longer than the input |
| `Catalog.FirstSeenPrefix` | backend/index.js:103 | adding input at the end only appends to the result: what was collected stays in place |
| `Catalog.FirstSeenOrder` | backend/index.js:103 | the result lists elements in the order of their first occurrence in the input |
| `Catalog.FirstSeenUnique` | backend/index.js:103 | a list with no repeats, the input's elements and first-occurrence order is the result of `FirstSeen`, so the three properties define it |
| `Catalog.FirstSeenOfDistinct` | backend/index.js:103 | a list without repeats is returned unchanged |
| `Catalog.FirstSeenLength` | backend/index.js:103 | the result has one element per distinct value of the input |
| `Catalog.Medications` | backend/index.js:103 | `diseases.map(d => d.medication)`: one medication per record, in catalog order |
| `Catalog.MedicationOptionsSound` | backend/index.js:103 | the options have no repeats, include every record's medication, contain only record medications and are no more than the records |
| `Catalog.MedicationOptionsValue` | backend/index.js:22-103 | the options are the seven medications in catalog order |
| `Sessions.PickSymptoms` | backend/index.js:138-144 | the loop returns three pairwise distinct symptoms of the disease, namely the first three distinct ones the samples pick, in draw order |
| `Sessions.SelectionCanFinish` | backend/index.js:139-144 | for any symptom list with at least three distinct entries, repeats allowed, one sample per position lets the loop finish |
| `Sessions.EveryDiseaseCanFinish` | backend/index.js:136-144 | whatever disease is drawn from the catalog, one sample per symptom lets the symptom loop finish |
| `Sessions.SelectionNeedsThreeDistinct` | backend/index.js:139-144 | no stream of samples finishes the loop on a disease with fewer than three distinct symptoms |
| `Sessions.Shown` | backend/index.js:178 | `${medication}` in the template: a string appears as received, untrimmed and in its own case; a missing field appears as `undefined` |
| `Sessions.IsCorrect` | backend/index.js:171 | only a string can be correct; a correct choice, once trimmed, is as long as the recommendation; a string that trims to exactly the recommendation is always correct |
| `Sessions.CorrectMessage` | backend/index.js:176 | the right-choice text is `You chose the recommended treatment (`, then the recommendation in double quotes, then `). The patient reports improvement!` |
| `Sessions.IncorrectMessage` | backend/index.js:178 | the wrong-choice text is `The recommended treatment was `, then the recommendation in double quotes, then `. Your choice `, the rendered choice in double quotes and ` was not ideal.` |
| `Sessions.CorrectMessageNames` | backend/index.js:176 | the right-choice message starts with its fixed prefix, contains the quoted recommendation, and the quote is followed directly by `). The patient reports improvement!` |
| `Sessions.IncorrectMessageNames` | backend/index.js:178 | the wrong-choice message does not start with the right-choice prefix, quotes the recommendation and the raw choice, and ends with `. Your choice "<choice>" was not ideal.`, which it also contains |
| `Sessions.Evaluate` | backend/index.js:170-180 | a choice whose rendering throws gives the status-500 reply, and only such a choice does; otherwise the reply carries the recommendation, and `correct` holds if and only if the choice is a string matching after trim and lower-casing; a right choice gets `CorrectMessage`, a wrong one `IncorrectMessage`, which quotes the raw choice; the prefix tells the two apart |
| `Sessions.CorrectUpToCaseAndPadding` | backend/index.js:171 | a choice equal to the recommendation up to ASCII case, with any whitespace around it, is correct |
| `Sessions.CorrectIff` | backend/index.js:171 | a string choice is correct if and only if its trimmed form has the recommendation's length and agrees with it position by position up to ASCII case |
| `Sessions.AntidepressantLowerCased` | backend/index.js:171 | lower-casing "Antidepressant", "antidepressant" and "ANTIDEPRESSANT" gives "antidepressant" |
| `Sessions.LowerCaseMatches` | backend/index.js:171 | "antidepressant" is a correct answer for "Antidepressant" |
| `Sessions.PaddedUpperCaseMatches` | backend/index.js:171 | "  ANTIDEPRESSANT " is a correct answer for "Antidepressant" |
| `Sessions.RightChoiceText` | backend/index.js:170-180 | the whole reply to "antidepressant" for "Antidepressant": correct, with the message `You chose the recommended treatment ("Antidepressant"). The patient reports improvement!` |
| `Sessions.WrongChoiceText` | backend/index.js:170-180 | the whole reply to "Stimulant" for "Antidepressant": wrong, with the message `The recommended treatment was "Antidepressant". Your choice "Stimulant" was not ideal.` |
| `Sessions.RightChoiceMessage` | backend/index.js:176 | the right-choice text for "Antidepressant", in full |
| `Sessions.WrongChoiceMessage` | backend/index.js:178 | the wrong-choice text for "Antidepressant" and "Stimulant", in full |
| `Sessions.QuotedContains` | backend/index.js:176-178 | a quoted value contains the value |
| `Sessions.StimulantIsWrong` | backend/index.js:170-180 | "Stimulant" is wrong for "Antidepressant", and the message names both |
| `Sessions.OnlyChoiceIsTrimmed` | backend/index.js:171 | the recommendation itself is not trimmed, so " Stimulant" would not match itself |
| `Sessions.Bump` | backend/index.js:145 | `nextId++` on a JavaScript number: one more below 2^53, and stuck at 2^53, where the sum rounds back; never above 2^53 |
| `Sessions.Admit` | backend/index.js:145-148 | a new patient gets id `nextId`, at least 1; below 2^53 that id is not yet stored and `nextId` goes up by one, while at 2^53 `nextId` stays; the entry for the id is set to the drawn disease, and every other entry is unchanged; the store stays consistent |
| `Sessions.Discharge` | backend/index.js:165-173 | an id that is not stored gives the status-400 "Invalid patient ID" reply and leaves the store as it was; a stored id is removed, whatever the verdict, with every other entry and `nextId` unchanged, and the reply is the verdict on its disease's medication |
| `Sessions.DischargeKeepsConsistent` | backend/index.js:173 | treating keeps every stored id within [1, nextId), or equal to a counter stuck at 2^53 |
| `Sessions.Run` | backend/index.js:145-181 | serving any sequence of requests keeps the store consistent, never moves `nextId` back, and issues exactly one id per `GET /patient` and none per `POST /treat` |
| `Sessions.RunIssuesConsecutiveIds` | backend/index.js:145 | across any sequence of requests the issued ids are nextId, nextId+1, ... in order, capped at 2^53, and `nextId` ends up that many `GET /patient` requests past where it started, capped the same way |
| `Sessions.IdsFromStart` | backend/index.js:120-145 | from a fresh process the ids issued are 1, 2, 3, ..., one per `GET /patient`, capped at 2^53, and strictly increasing below 2^53 |
| `Sessions.IdsRepeatAtLimit` | backend/index.js:145-148 | once the counter is at 2^53, two patients in a row both get the id 2^53, and the second replaces the first in the map |
| `Sessions.GoneStaysGone` | backend/index.js:145-173 | an id that was issued and then removed is never stored again, whatever requests follow |
| `Sessions.TreatedOnce` | backend/index.js:166-173 | the first treatment of a stored patient is not rejected and removes it; any later treatment of the same id below 2^53 is rejected, whatever requests come in between |
| `Sessions.SessionStore.constructor` | backend/index.js:120-121 | the store starts with `nextId` 1 and no patients |
| `Sessions.SessionStore.GeneratePatient` | backend/index.js:135-155 | `generatePatient` changes the fields as `Admit` describes for the drawn disease: it returns the old `nextId` as the id, adds the one entry, and bumps the counter as `Bump` does; the patient has three pairwise distinct symptoms of that disease, the first three distinct ones drawn, the drawn name and the options list |
| `Sessions.SessionStore.Treat` | backend/index.js:164-181 | the handler body changes the fields and replies exactly as `Discharge` describes: an unknown id gets the 400 reply with the store untouched, and a known id is removed and gets `Evaluate`'s reply, the status-500 one included; like `GeneratePatient`, it keeps the store consistent |

## Left out

- The Express application, CORS, JSON body parsing, route registration, `res.status(...).json(...)` and `app.listen` (backend/index.js:12-19, 157-161, 184-186) are transport. The model returns the reply as a value. The status-500 reply stands for Express's default error response, whose body is not modelled.
- `Math.random()`: each sample it would return is a parameter (`Random.Sample`). No distribution or uniformity is modelled. `Math.random() * arr.length` is computed on reals, not on IEEE doubles. At isolated samples the two floors differ by one: for u = 2573485501354569 * 2^-52 and 7 records the double product rounds up to 4.0, while the real product has floor 3. In both, every index is reached by some sample. No property proved here depends on which sample picks which index.
- Random.ChooseRandom: requires a non-empty array. In JavaScript an empty array would yield `undefined`, but no caller passes one.
- Sessions.PickSymptoms: the source's loop runs for as long as `Math.random()` takes to produce three distinct symptoms. The model takes a finite stream of samples and requires it to contain three distinct picks (`Completes`). A run in which the random source never does so is not modelled. `SelectionCanFinish` and `SelectionNeedsThreeDistinct` show when such a stream exists.
- Sessions.SessionStore.GeneratePatient: `medicationOptions` is the same array object in every response. The model returns it as a value, so the sharing is not modelled.
- Text.ToLower: lower-cases the ASCII letters only. JavaScript's `toLowerCase` also maps other Unicode capitals, including ones whose lower case is longer. The catalog's medications are ASCII apart from U+2011, which both leave alone. The player's choice can hold any characters, though. For example, "Serotonin Reupta\u212Ae Inhibitor", with U+212A KELVIN SIGN, lower-cases in JavaScript to "serotonin reuptake inhibitor", so the source counts it as correct while `IsCorrect` does not.
- Text.Trim: a string here is a sequence of Unicode scalar values, while a JavaScript string is a sequence of UTF-16 code units, and JSON parsing keeps a lone surrogate. So a choice such as `"\ud800"` is a string in the source but has no `Str` value in the model. For such a choice the source's verdict is still false and the patient is still removed; only that choice and the message text quoting it cannot be represented.
- The request body's `id` is an integer here. A JSON string such as "1" would not find the numeric key in the source either. Fractional or very large JSON numbers, and other JSON typing quirks, are not modelled.
- Sessions.Shown: the request body's `medication` is absent, a string, a value whose rendering throws (`Throwing`), or another JSON value carried with the text a template literal renders it as (`NonString`). How JavaScript computes that text, for example `[object Object]` or a call to a custom `toString`, is not modelled.
- Concurrency: Node runs each handler to completion on one thread, so the lookup and the delete cannot interleave with another request.
- The patient names appear only as a constant list indexed by a sample (backend/index.js:106-117, 146).
- frontend/script.js is not part of this model: DOM updates, `fetch` calls, alerts and the client-side score tally.
