# MediQueue+ core, modelled in Dafny

MediQueue+ is a clinic web application. Patients describe their symptoms, get
a recommended specialty and a doctor of that specialty, register with a
payment screenshot, and get a per-doctor token in a waiting queue. Doctors
reset and advance the queues and handle emergency alerts. This project
models the three pieces of logic inside that application and proves their
properties:

- **The specialty recommender** (`recommender.dfy`, module `Recommender`).
  `fallback_recommendation` searches an ordered table of 51 symptom phrases.
  It runs a first pass on substrings of the lower-cased text, then a word
  pass, and otherwise answers "General Physician". `recommend_specialty`
  prefers a confident classifier answer, with the "🚨 " marker for
  emergencies, and uses the fallback for everything else. `recommend` strips
  the marker before it looks up doctors among the seeded ones.
- **The classifier adapter** (`predictor.dfy`, module `ModelPredictor`).
  `clean_medical_text` is modelled as a loop over the abbreviation table.
  `predict` turns the network's ranked output into labelled predictions, and
  `ai_recommend` makes the 0.5-threshold decision. The network itself is an
  input.
- **The training-side preprocessing** (`training.dfy`, module `Training`).
  Its own copy of `clean_medical_text` is proved equal to the inference-time
  one for every input. The label numbering by first appearance is a
  bijection with the ids 0..n-1.
- **The queue bookkeeping** (`queue.dfy`, module `Queue`). `allowed_file`
  is modelled. The appointment, patient and alert tables are sequences held
  by a `Clinic` object whose methods are `register`, `reset_tokens`,
  `complete_appointment`, `handle_emergency` and `trigger_emergency`.

`text.dfy` (module `Text`) models the Python string built-ins the code uses:
`lower`, `in`, `replace`, `strip`, `split()`, `' '.join` and the `re`
classes `\w` and `\s`. `wrappers.dfy` holds an `Option` type.

Behaviour the model records rather than fixes:

- **"Flu" has no doctor.** The classifier can answer "Flu"
  (model_predictor_enhanced.py:23). No fallback entry and no seeded doctor
  carries that label. A confident "Flu" answer is therefore shown to the
  patient, and the doctor lookup finds nobody (`FluFindsNoDoctor`).
- **Tokens can repeat.** Registration numbers a new appointment as the
  doctor's waiting count plus one. After an earlier waiting appointment is
  completed, the next registration reuses a token that another waiting
  patient still holds (`TokenReuseAfterCompletion`). Tokens are 1..n and
  distinct right after `reset_tokens` (`ResetNumbersOneToN`). Registration
  keeps them distinct whenever the doctor's waiting tokens are increasing
  and within 1..n beforehand (`RegisterKeepsTokensApart`). A completion
  that leaves a waiting token above the new count breaks that condition.
- **The word pass runs in one direction.** It asks whether a word of the
  input lies inside a phrase, not whether a phrase word lies in the input.
  The model keeps that direction.
- **Abbreviations expand inside words.** The expansion replaces raw
  substrings, so "have" becomes "headacheve". Cleaning is not idempotent:
  "temp" becomes "temperature", which becomes "temperatureerature".
- **The result is a plain label string.** `recommend_specialty` returns
  only the label string, marked or not. It carries no confidence and does
  not say which path produced it. The model returns the same string.

## Model

| member | source | states |
|---|---|---|
| Text.Lower | model_predictor_enhanced.py:39 | each ASCII capital becomes its lower-case letter and every other character is kept, so the length is kept and no upper-case letter remains |
| Text.Contains | app.py:172 | no contract of its own: `phrase in text` as an occurrence at some position; the first pass's lemmas (`PassesEarliestPhrase`, `ChestPainAnyCase`) state what it decides |
| Text.Replace | model_predictor_enhanced.py:49 | no contract of its own: `str.replace`, left to right without overlaps; `ReplaceMissingChar` states that a pattern with a character absent from the text changes nothing, and `ReplaceEachStep` and `ReplaceEachOneHit` state how one hit is expanded |
| Text.ReplaceEach | model_predictor_enhanced.py:48-49 | no contract of its own: the replacements applied in table order, each to the previous result; `ReplaceEachNoUpper` and `ReplaceEachOneHit` state its properties |
| Text.Strip | model_predictor_enhanced.py:39 | no contract of its own: leading and trailing whitespace removed; `StripNoOuterSpace` states that text without outer whitespace is unchanged and `CollapseIgnoresOuterSpace` that stripping before split-and-join changes nothing |
| Text.Words | model_predictor_enhanced.py:53 | no contract of its own: `split()`, the maximal runs of non-whitespace; `CleanedShape` states the shape it gives after joining |
| Text.Join | model_predictor_enhanced.py:53 | no contract of its own: `' '.join`; `CleanedShape` states that joining the words gives single-spaced text |
| Text.CollapseWhitespace | model_predictor_enhanced.py:53 | no contract of its own: `' '.join(s.split())`; `CleanedShape` and `CollapseIgnoresOuterSpace` state its properties |
| Text.ReplaceNonWord | model_predictor_enhanced.py:52 | every output character is a word character or whitespace; a character is kept exactly when it is one, and every other character becomes a space |
| Text.CleanedShape | model_predictor_enhanced.py:52-53 | after the punctuation and whitespace steps, the text holds only word characters and single spaces, none at either end |
| Text.ReplaceEachNoUpper | model_predictor_enhanced.py:42-49 | expanding lower-case text with lower-case replacements gives lower-case text |
| Text.CollapseIgnoresOuterSpace | model_predictor_enhanced.py:53 | whitespace around a text does not change what split-and-join makes of it |
| ModelPredictor.AbbrTableShape | model_predictor_enhanced.py:42-46 | every abbreviation is non-empty and free of whitespace; every expansion is lower-case |
| ModelPredictor.AbbrPatterns | model_predictor_enhanced.py:42-46 | the expansion order is hr, bp, temp, c/o, sob, cp, ha, n/v |
| ModelPredictor.CleanedText | model_predictor_enhanced.py:37-55 | no contract of its own: lower, strip, the table's replacements in order, punctuation to spaces, whitespace collapse; `CleanMedicalText` is proved to compute it, and `CleanedShape`, `CleanedNoUpper` and `TrainingMatchesInference` state its properties |
| ModelPredictor.CleanMedicalText | model_predictor_enhanced.py:37-55 | the loop computes lower, strip, the table's replacements in order, punctuation to spaces and whitespace collapse; the result is single-spaced, lower-case and made of word characters and spaces only |
| ModelPredictor.ExpansionInsideWords | model_predictor_enhanced.py:48-49 | "have" is cleaned into "headacheve", because "ha" matches inside the word |
| ModelPredictor.TempGrows | model_predictor_enhanced.py:48-49 | "temp" followed by letters that no other abbreviation can hit is cleaned into "temperature" followed by the same letters |
| ModelPredictor.TempExpands | model_predictor_enhanced.py:48-49 | "temp" is cleaned into "temperature" |
| ModelPredictor.TemperatureExpands | model_predictor_enhanced.py:48-49 | "temperature" is cleaned into "temperatureerature" |
| ModelPredictor.CleaningNotIdempotent | model_predictor_enhanced.py:37-55 | cleaning "temp" twice differs from cleaning it once |
| ModelPredictor.Predict | model_predictor_enhanced.py:81-97 | every prediction carries a known label, flagged as an emergency exactly when the label is Heart Attack, Stroke or COVID-19; a readable ranking gives top_k predictions in rank order; any failure gives the empty list |
| ModelPredictor.AiRecommendFromNetwork | model_predictor_enhanced.py:99-103 | `ai_recommend` runs `predict` with top_k = 3: the predictions are labelled, empty exactly when the network's ranking is unreadable and otherwise the top 3 in rank order, and the answer is `AiRecommend` on them, always a classifier label |
| ModelPredictor.AiRecommend | model_predictor_enhanced.py:99-147 | success exactly when the top confidence is at least 0.5; an error or no predictions gives "General Physician" with confidence 0.0; success carries the top condition, its emergency flag and the rest as alternatives; low confidence carries the top condition and the whole list as suggestions |
| Training.CleanedText | training_enhanced.py:78-96 | no contract of its own: the training pipeline without `strip`; `Training.CleanMedicalText` is proved to compute it, and `TrainingMatchesInference` proves it equal to the inference-time cleaning |
| Training.CleanMedicalText | training_enhanced.py:78-96 | the loop computes lower, the table's replacements in order, punctuation to spaces and whitespace collapse; the result is single-spaced, lower-case and made of word characters and spaces only |
| Training.TrainingMatchesInference | training_enhanced.py:78-96 | for every input, the training-time cleaning equals the inference-time cleaning |
| Training.FirstIndex | training_enhanced.py:102 | the position where a value first appears in the column |
| Training.Unique | training_enhanced.py:102 | `unique()` lists each value of the column once, and no other value |
| Training.UniqueFirstAppearanceOrder | training_enhanced.py:102 | `unique()` lists the values in order of first appearance |
| Training.LabelToId | training_enhanced.py:103 | each label maps to its position, the keys are exactly the labels, and distinct labels get distinct ids |
| Training.IdToLabel | training_enhanced.py:104 | the inverse map is keyed by the ids and sends each label's id back to the label |
| Training.LabelNumberingBijection | training_enhanced.py:102-104 | the ids are exactly 0..n-1, and the two maps are inverse to each other |
| Training.Labels | training_enhanced.py:106 | every row gets an id, and that id names the row's own disease |
| Training.LabelsAgreeWithPredictor | training_enhanced.py:102-106 | if the data lists its diseases first in the classifier's label order, every row's id decodes to the row's disease at inference time |
| Training.Frame.CleanSymptoms | training_enhanced.py:99 | every symptom text is replaced by its cleaned form; the other columns are unchanged |
| Training.Frame.AssignLabels | training_enhanced.py:106 | the label column holds the ids of the disease column, each decoding to the row's disease |
| Recommender.FirstPhraseFrom | app.py:171-173 | from entry k on, the earliest entry whose phrase occurs in the text, or none if there is none |
| Recommender.FirstPhrase | app.py:171-173 | the first pass finds nothing exactly when no phrase occurs in the text |
| Recommender.WordFits | app.py:179 | no contract of its own: the word lies inside the phrase and is longer than 4 characters; `ShortWordsNeverMatch` and `PassesWordPass` state what it decides |
| Recommender.WordMatchFrom | app.py:178-180 | from entry k on, the earliest phrase that holds the word, for a word longer than 4 characters |
| Recommender.WordPassFrom | app.py:176-180 | the first word in order, with the first phrase in order, such that the word lies inside the phrase and is longer than 4 characters |
| Recommender.Passes | app.py:171-182 | the answer is a specialty of the table or the default |
| Recommender.FallbackRecommendation | app.py:77-182 | the fallback always answers with a table specialty or "General Physician" |
| Recommender.PassesEarliestPhrase | app.py:171-173 | when some phrase occurs, the earliest such phrase decides |
| Recommender.PassesWordPass | app.py:176-180 | when no phrase occurs, the first fitting word and its first fitting phrase decide |
| Recommender.PassesDefault | app.py:170-182 | "General Physician" is the answer exactly when neither pass finds anything |
| Recommender.ShortWordsNeverMatch | app.py:179 | words of 4 characters or fewer never match |
| Recommender.ChestPainAnyCase | app.py:82-173 | any text holding "chest pain" in any mix of case gets "Heart Attack" |
| Recommender.KnownGroups1 | app.py:86-111 | the emergency, respiratory, skin and neurological entries name classifier labels other than "Flu" and the default |
| Recommender.KnownGroups2 | app.py:112-132 | the same for the gastrointestinal, kidney, blood and joint entries |
| Recommender.KnownGroups3 | app.py:133-149 | the same for the infectious, diabetes, vein and hypertension entries |
| Recommender.KnownGroups4 | app.py:150-167 | the same for the COVID, tuberculosis, allergy and mental-health entries |
| Recommender.TableValuesAreLabels | app.py:85-168 | every specialty of the table is a classifier label, never "Flu" and never the default |
| Recommender.DoctorsFor | app.py:468 | the lookup returns exactly the doctors of that specialty |
| Recommender.DoctorsForNone | app.py:468 | the lookup is empty when no doctor has the specialty |
| Recommender.SeededSpecialties | app.py:1524-1545 | the seeded specialties are the classifier labels in order, with a second general physician in place of "Flu" |
| Recommender.SeededWithoutFlu | app.py:1524-1545 | no seeded doctor has the "Flu" specialty |
| Recommender.FluHasNoDoctor | app.py:1524-1545 | the lookup for "Flu" among the seeded doctors is empty |
| Recommender.DoctorsForLabel | app.py:1524-1545 | a classifier label finds no seeded doctor exactly when it is "Flu" |
| Recommender.FallbackHasDoctor | app.py:85-182 | every fallback answer is a classifier label with at least one seeded doctor |
| Recommender.CleanSpecialty | app.py:448 | no contract of its own: the sign removed, then the text stripped; `MarkerRoundTrip` states that it gives back a plain name, marked or not |
| Recommender.MarkerRoundTrip | app.py:448 | removing the sign and stripping gives back a plain name, whether or not "🚨 " was put in front of it |
| Recommender.LabelsArePlain | model_predictor_enhanced.py:20-26 | no classifier label holds the sign or outer whitespace |
| Recommender.RecommendSpecialty | app.py:185-225 | on classifier success, the condition, marked exactly when flagged as an emergency; on import failure, any exception or no success, the fallback |
| Recommender.RecommendConfident | app.py:195-207 | a confident top prediction is the answer, marked exactly when it is an emergency condition |
| Recommender.RecommendFallsBack | app.py:208-225 | import failure, exceptions, failed prediction and low confidence all give the fallback |
| Recommender.RecommendationFindsDoctor | app.py:445-468 | after the marker is removed, the answer is a classifier label, and the doctor lookup is empty exactly for "Flu" |
| Recommender.FluFindsNoDoctor | app.py:445-468 | a confident "Flu" answer is shown unmarked and finds no doctor |
| Recommender.RecommendFromNetwork | app.py:192-207 | with the classifier running, its predictions come from `predict` with top_k = 3, the answer is `recommend_specialty`'s, and after the marker is removed it is a classifier label whose doctor lookup is empty exactly for "Flu" |
| Queue.AllowedFile | app.py:28-29 | an accepted name holds a '.' and does not end in one; `AllowedFileSplit` and `NoDotRejected` state exactly which names are accepted |
| Queue.LastDot | app.py:29 | the position of the last '.', with no '.' after it |
| Queue.AllowedFileSplit | app.py:28-29 | a name stem + "." + extension (no '.' in the extension) is accepted exactly when the lower-cased extension is png, jpg, jpeg, gif or pdf |
| Queue.NoDotRejected | app.py:29 | a name without '.' is refused |
| Queue.UpperCaseExtensionAccepted | app.py:28-29 | "x.PNG" is accepted |
| Queue.LastExtensionDecides | app.py:28-29 | "x.png.exe" is refused |
| Queue.BareExtensionRejected | app.py:28-29 | "png" is refused |
| Queue.WaitingCount | app.py:607 | the number of the doctor's waiting appointments, at most the table's size |
| Queue.WithRegistration | app.py:607-619 | registration keeps the old records, gives the new one the doctor's waiting count plus one, and raises that count by one |
| Queue.CompletedApp | app.py:1462-1465 | the record with that id gets status completed and keeps every other field; every other record is unchanged |
| Queue.ResetToken | app.py:844-845 | the token a waiting appointment gets is at least 1 and at most its doctor's waiting count |
| Queue.Renumbered | app.py:836-845 | the reset changes tokens only, and never touches a completed appointment |
| Queue.RenumberedStep | app.py:836-845 | renumbering one more doctor changes only that doctor's waiting appointments |
| Queue.HandledAlerts | app.py:1447-1453 | "accepted" sets the alert with that id to accepted and "completed" sets it to completed; only that alert's status changes; any other action leaves all alerts as they were |
| Queue.WaitingCountIgnoresTokens | app.py:836-845 | renumbering tokens does not change any doctor's waiting count |
| Queue.RenumberedPrefixTokens | app.py:844-845 | over every prefix, the renumbered waiting tokens of the doctor are 1..(number waiting in the prefix) |
| Queue.ResetNumbersOneToN | app.py:836-845 | right after a reset, each listed doctor's waiting tokens are exactly 1, 2, ..., n in id order, so they are distinct and increasing |
| Queue.RegisterKeepsTokensApart | app.py:607-608 | while a doctor's waiting tokens are increasing and within 1..n, registration keeps them so |
| Queue.CompleteLowersCount | app.py:1462-1465 | completing a waiting appointment lowers its doctor's waiting count by one; anything else leaves the counts unchanged |
| Queue.TokenReuseAfterCompletion | app.py:607-608 | with tokens 1 and 2 waiting for one doctor, completing the first and registering again hands out token 2 while the second appointment still waits with token 2 |
| Queue.Clinic.Register | app.py:544-619 | no file part, an empty file name and a refused extension each return their error and change nothing; otherwise a patient and an appointment with token waiting count + 1 are added |
| Queue.Clinic.ResetTokens | app.py:834-845 | the appointments become the renumbered table; nothing else changes |
| Queue.Clinic.RenumberDoctor | app.py:838-845 | one doctor's waiting appointments, in id order, get the tokens 1, 2, 3, ...; the rest stay as they were |
| Queue.Clinic.CompleteAppointment | app.py:1462-1465 | the appointments become the completed table; an unknown id changes nothing |
| Queue.Clinic.HandleEmergency | app.py:1447-1453 | "accepted" and "completed" set the alert's status; anything else changes nothing |
| Queue.Clinic.TriggerEmergency | app.py:1395-1408 | an active alert with the next id is appended |

## Left out

- Unicode case mapping and the Unicode meaning of `\w` are not modelled. `lower` maps only ASCII letters. `\w` is ASCII letters, digits and underscore. Whitespace is Python's full `isspace` set.
- `str(text)` in `clean_medical_text` is not modelled. The input is already a string.
- The tokenizer, the network, softmax and `topk` are not modelled. Their result is an input: a failure, or a ranked list of (label index, confidence). Confidences are reals.
- `round(confidence, 2)` in `ai_recommend` is not modelled. Rounding floating-point values is outside the model.
- `print` logging is left out. An exception from the logging inside `ai_recommend`'s try block is an input (`PredictRun.Raised`).
- Model loading at import is left out. It is foreign I/O. An import failure is an input (`AiCall.ImportFailed`).
- The emergency warning in `recommend` (app.py:453-466) is left out. It only adds HTML.
- HTML pages, Flask routing, forms, sessions and login are left out.
- The database is left out. Each table is a sequence whose record ids are their positions plus one. `query.get(id)` is modelled by position.
- `reset_tokens` queries each doctor's waiting appointments by id. The model scans the whole table in id order and skips the rest. The result is the same.
- Saving the upload, `uuid`, `secure_filename` and `os.makedirs` are left out. The stored file name is a parameter of `Register`.
- Socket.IO broadcasts, timestamps and time zones are left out.
- Reading the CSV, augmentation, splitting and training are left out. They involve I/O, randomness and library calls.
- Training.LabelsAgreeWithPredictor: takes as a hypothesis that the data lists its diseases first in the classifier's label order. The code does not check this, and it cannot be proved without the data.
- Concrete fallback examples are computed only for "chest pain". Each other example would need its text checked against all 51 phrases.
