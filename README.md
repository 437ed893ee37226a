# CSTD Analyzer: a verified model of its core

CSTD Analyzer labels network-flow records (CIC-flow style CSV rows) as
`NAP` (not a packet), `Benign` or `Malicious`. It has three parts.

- A browser portal (`src/predictionPortel.js`). It keeps a local account
  store and a login session, routes between the home page, the analysis
  portal and an admin-only listing, uploads a CSV for analysis, and names
  the classified file that comes back.
- A Flask server (`app.py`). It rejects implausible rows as `NAP`, labels
  the rest with a trained model, and lists the classified files it has
  saved.
- An offline labeller (`NAP_Code.py`). It uses the same validity check,
  followed by a rule-based suspicion score instead of the model.

The Dafny project models these modules:

| module | file | what it holds |
|---|---|---|
| `Wrappers` | wrappers.dfy | `Option` |
| `Text` | text.dfy | suffix and substring tests, JavaScript line terminators, decimal rendering |
| `Numeric` | numeric.dfy | `Num` (NaN, ±infinity, finite reals) with float64 comparisons, `+`, `/` and Python's `x or 0` |
| `FlowFields` | flow_fields.dfy | rows as `map<string, Num>`, the column names, `g(col)` (absent reads as NaN), the labels |
| `AppValidation` | app_validation.dfy | app.py's `is_valid_packet`, with its guards as predicates and its loops as quantifiers |
| `NapCode` | nap_code.dfy | NAP_Code.py's validator, the scoring method `ClassifyBenignMalicious`, and the row loop |
| `AppPredict` | app_predict.dfy | the labelling steps of `predict_csv`, as methods over an array of rows and an array label column |
| `AppListing` | app_listing.dfy | `list_classified_files`: a filter loop, then an in-place descending insertion sort |
| `Accounts` | accounts.dfy | the account store and the register, reset and login lookups |
| `Portal` | portal.dfy | the session and view state machine: transition functions on `AppState` and the class `App` |
| `Upload` | upload.dfy | the class `UploadClient`, the download-name regex and the failure message |

The trained model is a parameter `predict: Row -> int`. The password
digest (`hashPassword`, SHA-256) and `String.prototype.trim` are
arbitrary functions held by `App`. No property of either is assumed,
not even injectivity. Each UI handler of the portal is given twice:
- as a pure transition on `AppState`, which the lemmas reason about;
- as a method of `App` that updates the fields in place and is proved
  equal to that transition.

The regex `/filename="?(.+)"?$/` is modelled exactly:
- the leftmost `filename=` whose rest is non-empty and free of line
  terminators;
- the opening quote is taken when something remains for `.+`;
- `.+` then runs to the end.

As a consequence, a quoted name keeps its closing quote.
`QuotedNameKeepsClosingQuote` states this, and the rest of the model
uses that behaviour.

## Model

| member | source | states |
|---|---|---|
| Numeric.Add | NAP_Code.py:158 | NaN in gives NaN out; two finite values add as reals (the infinity rules of float64 are in the body) |
| Numeric.Div | NAP_Code.py:162 | NaN in gives NaN out; a finite value divided by a non-zero finite value is the real quotient |
| Numeric.OrZeroIsIdentity | NAP_Code.py:138-142 | `x or 0` returns every numeric value unchanged, NaN included |
| Numeric.LtStrict | app.py:47 | `<` is irreflexive and asymmetric; any comparison with NaN is false |
| AppValidation.TotalPkts | app.py:138-142 | absent counts add nothing: both absent gives 0; one finite count with the other absent gives that count; two finite counts give their sum |
| AppValidation.DurationRequired | app.py:46-48 | a valid row has a present, non-NaN, non-negative `Flow Duration` |
| AppValidation.OnlyDurationIsValid | app.py:42-156 | a row holding only a non-negative duration is valid, since every other guard skips absent columns |
| AppValidation.CappedPacketSizes | app.py:51-68 | the four `Pkt Len` columns and `Pkt Size Avg` fall under the 2000 cap |
| AppValidation.NotCappedWithoutP | app.py:67 | a column name with no `P` where `Pkt Len` or `Pkt Size` could start is not capped |
| AppValidation.UncappedTotalLengths | app.py:51-68 | the two `TotLen` columns have no upper cap |
| AppValidation.NegativeSizeInvalid | app.py:58-65 | any present size column below 0 makes the row invalid |
| AppValidation.OversizedPacketInvalid | app.py:66-68 | a capped size column above 2000 makes the row invalid |
| AppValidation.OrderViolationsInvalid | app.py:71-133 | a mean above its max by more than 1e-6, or `Flow IAT Min` above `Flow IAT Max`, makes the row invalid |
| AppValidation.CountAndRateViolationsInvalid | app.py:84-112 | a negative count, bytes in a direction with zero packets, or a negative or infinite rate makes the row invalid |
| AppValidation.NegativeIatInvalid | app.py:120-127 | any present inter-arrival-time column below 0 makes the row invalid |
| AppValidation.NegativeFlagInvalid | app.py:144-151 | any present flag column below 0 makes the row invalid |
| AppValidation.FlagAboveTotalInvalid | app.py:136-153 | a flag count above the summed packet counts makes the row invalid |
| AppValidation.FlagWithoutCountsInvalid | app.py:138-153 | with neither packet count present, any positive flag count rejects the row |
| NapCode.ValidatorsAgree | NAP_Code.py:6-124 | this validator accepts exactly the rows app.py's accepts; the extra absence skips there change nothing |
| NapCode.InfiniteRateInvalid | NAP_Code.py:72-82 | an infinite `Flow Pkts/s` or `Flow Byts/s` rejects the row |
| NapCode.SuspicionScore | NAP_Code.py:165-167 | the port rule adds at most 1, on top of the score of rules 1-4 |
| NapCode.ClassifyBenignMalicious | NAP_Code.py:129-173 | the step-by-step score returns only Benign or Malicious, and Malicious iff the final score is at least 2 |
| NapCode.StrongRuleMalicious | NAP_Code.py:149-159 | a forward-only flow, a rate above 10000, or 3+ packets with no bytes is Malicious on its own |
| NapCode.ExfilAlone | NAP_Code.py:161-167 | the exfiltration rule alone gives Benign, or Malicious when the port is at least 49152 |
| NapCode.HighPortAloneBenign | NAP_Code.py:165-167 | a high port with no other rule firing scores 0 and stays Benign |
| NapCode.AbsentCountsStopRules | NAP_Code.py:138-163 | an absent packet count (either direction) stops rules 1 and 3, an absent length (either direction) stops rules 3 and 4: `x or 0` does not default them to 0 |
| NapCode.AbsentBackwardCountIsNotZero | NAP_Code.py:138-151 | five forward packets with no backward column is Benign, with a backward count of 0 Malicious: an absent count is not read as 0 |
| NapCode.RowLabel | NAP_Code.py:183-186 | NAP exactly when the row is invalid; a valid row is Malicious exactly when its suspicion score reaches 2, otherwise Benign |
| NapCode.LabelRows | NAP_Code.py:178-189 | one label per row, in input order, each the row's label |
| AppPredict.ReplaceInf | app.py:184 | the same columns, no infinity left, each cell unchanged or an infinity turned NaN |
| AppPredict.PipelineLabel | app.py:188-222 | Benign or Malicious exactly when the row is valid, complete and the model says 0 or 1; an invalid row is NAP |
| AppPredict.ReplaceInfInPlace | app.py:184 | every cell of the frame is replaced by its cleaned row |
| AppPredict.MarkNap | app.py:188-196 | invalid rows get NAP, the others keep their label |
| AppPredict.StoreModelLabels | app.py:199-219 | valid rows that survive `dropna` get the mapped model code, the others keep their label |
| AppPredict.FillNap | app.py:222 | every unlabelled row gets NAP, labelled rows keep theirs |
| AppPredict.PredictCsv | app.py:183-222 | every input row is kept in order, cleaned, and labelled as `PipelineLabel` says |
| AppPredict.UnscoredRowsAreNap | app.py:209-222 | an invalid row, an incomplete row, or a code other than 0 or 1 ends NAP |
| AppPredict.InfiniteRateStillNap | app.py:184-207 | an infinite rate is NaN after cleaning, and the row still ends NAP through `dropna` |
| AppListing.StrLessTrichotomy | app.py:263 | Python's string `<` is a strict total order: exactly one of `<`, `==`, `>` |
| AppListing.StrLessTransitive | app.py:263 | Python's string `<` is transitive |
| AppListing.NotBelowTransitive | app.py:263 | `>=` on strings is transitive |
| AppListing.AdjacentToPairwise | app.py:263 | neighbours in non-increasing order give a list sorted non-increasing throughout |
| AppListing.CsvNames | app.py:257-260 | exactly the names ending in `.csv` are kept |
| AppListing.Swap | app.py:263 | two entries trade places; the multiset is unchanged |
| AppListing.SortDescending | app.py:263 | the array ends non-increasing and is a permutation of its old contents |
| AppListing.ListClassifiedFiles | app.py:256-265 | the `.csv` names, each as often as listed, latest (greatest) first |
| Accounts.FindByName | src/predictionPortel.js:110-111 | the first index with that username, `None` iff there is none |
| Accounts.FindLogin | src/predictionPortel.js:134-140 | the first record matching name and digest, `None` iff none matches |
| Accounts.ResetPassword | src/predictionPortel.js:108-128 | `None` iff the name is unknown; otherwise only the first record with that name gets the new digest |
| Accounts.RegisterKeepsNamesUnique | src/predictionPortel.js:86-104 | registration keeps usernames unique |
| Accounts.ResetKeepsNamesAndRoles | src/predictionPortel.js:118-123 | a reset keeps every username and role, hence uniqueness |
| Accounts.RegisterThenLogin | src/predictionPortel.js:86-150 | right after registering, the same credentials log in to the new record |
| Accounts.ResetThenLoginNew | src/predictionPortel.js:108-150 | after a reset, the new password logs in to the reset record |
| Accounts.ResetThenLoginOld | src/predictionPortel.js:108-150 | with unique names, the old password no longer logs in after a reset |
| Portal.NavDecision | src/predictionPortel.js:555-571 | home always switches; no user opens the login dialog; a non-admin is refused the admin listing; any switch goes to the target |
| Portal.GateAgreesWithRender | src/predictionPortel.js:555-586 | the router switches to a view exactly when the renderer would show that view |
| Portal.Startup | src/predictionPortel.js:519-526 | the store is the stored array or empty; the session is restored only when both stored keys are non-empty; the shell starts on home with the dialog closed |
| Portal.StepKeepsInv | src/predictionPortel.js:76-571 | every user action keeps user and role set together, a set user non-empty, and the view one the renderer shows |
| Portal.EmptyCredentialsChangeNothing | src/predictionPortel.js:80-83 | in any mode, an empty trimmed name or password changes nothing |
| Portal.RegisterSubmit | src/predictionPortel.js:86-104 | a taken name changes nothing; a new one appends one record, keeps the session, returns to login mode, keeps names unique |
| Portal.ResetSubmit | src/predictionPortel.js:108-128 | an unknown name changes nothing; otherwise only the first match's digest changes |
| Portal.LoginSubmit | src/predictionPortel.js:132-150 | login succeeds iff some record matches; the session and both stored keys then hold the first match and the view is the portal; a failure changes nothing |
| Portal.LogoutForgetsSession | src/predictionPortel.js:539-545 | logout ends the session and clears both keys, so a restart restores nothing |
| Portal.RegisterLoginNavigate | src/predictionPortel.js:86-150 | register, then log in: the portal is reachable and the admin listing is refused to role `user` |
| Portal.App.constructor | src/predictionPortel.js:512-526 | the fields are the start-up state, which satisfies the invariant |
| Portal.App.OpenAuth | src/predictionPortel.js:528-531 | opens the dialog in the given mode, nothing else changes |
| Portal.App.CloseAuth | src/predictionPortel.js:662 | closes the dialog, nothing else changes |
| Portal.App.SetMode | src/predictionPortel.js:664 | switches the dialog mode, nothing else changes |
| Portal.App.HandleLoginSuccess | src/predictionPortel.js:533-537 | sets user and role from the record and the view to the portal |
| Portal.App.HandleLogout | src/predictionPortel.js:539-545 | the logout transition, keeping the invariant |
| Portal.App.HandleStartAnalysis | src/predictionPortel.js:547-553 | login dialog without a user, otherwise the portal; keeps the invariant |
| Portal.App.HandleNavClick | src/predictionPortel.js:555-571 | the navigation transition, keeping the invariant |
| Portal.App.HandleSubmit | src/predictionPortel.js:76-151 | the submit transition and its outcome, keeping the invariant |
| Text.NatToDecimal | src/predictionPortel.js:369 | a non-empty string of decimal digits, at least two digits exactly from 10 up, with no leading zero except for 0 itself |
| Text.DecimalRoundTrip | src/predictionPortel.js:369 | the rendered digits denote the number rendered |
| Upload.FirstMatch | src/predictionPortel.js:337 | the leftmost position where the pattern matches, or `None` when it matches nowhere |
| Upload.CaptureIsPreferredSplit | src/predictionPortel.js:337 | the group is a valid split of the rest, takes the opening quote whenever possible and is the longest such split |
| Upload.NoMatchKeepsDefault | src/predictionPortel.js:334-339 | no header, or no match in it, leaves `classified_packets.csv` |
| Upload.FirstKeyFound | src/predictionPortel.js:337 | `filename=` after text without `=` is the leftmost match |
| Upload.UnquotedName | src/predictionPortel.js:334-339 | an unquoted name comes back whole |
| Upload.QuotedNameKeepsClosingQuote | src/predictionPortel.js:334-339 | `filename="n"` yields `n"`: the closing quote stays |
| Upload.HttpErrorMessage | src/predictionPortel.js:369 | the message starts `HTTP Error `, then the digits of the status (which denote the status), then `: `, then the status text unchanged |
| Upload.UploadClient.constructor | src/predictionPortel.js:296-301 | nothing selected, idle, the ready message |
| Upload.UploadClient.HandleFileChange | src/predictionPortel.js:303-315 | accepts a file iff its name ends in `.csv`, case-sensitive; otherwise nothing is selected and the error shows |
| Upload.UploadClient.StartUpload | src/predictionPortel.js:317-327 | a no-op without a file or while a request is in flight; otherwise loading, with no error or result |
| Upload.UploadClient.FinishUpload | src/predictionPortel.js:328-381 | always idle with nothing selected; success reports the download name, failure the error message |
| Upload.UploadRound | src/predictionPortel.js:303-381 | select, upload and settle: nothing selected afterwards, with the name or the failure reported |

## Left out

- Rendering, styles, the dialog's field-reset effect, `alert` and the admin listing client (`AdminFilesView`, `encodeURIComponent`): presentation and HTTP only.
- localStorage and JSON: the account store is a `seq<Account>`. What is stored under `cstd_users` is an `Option`, with `None` for absent, empty, unparseable or non-array. `App` keeps the store in a field, which equals what `loadUsersFromStorage` would reread as long as no other tab writes the key.
- SHA-256 and `trim`: arbitrary functions (`App.digest`, `App.trim`), with no property assumed.
- axios, FormData, Blob, FileReader and the DOM download link: a settled request is the value `Settled`, and the file is known by its name.
- Upload.ErrorMessage: a truthy `error` member that is not a string (a number, say) is not modelled; a parsed body's `error` is an optional string.
- Upload.UploadClient.HandleFileChange: requires that no request is in flight, because the file input is disabled then.
- The Flask routes and their status codes, `os.listdir` (its names are the input of `ListClassifiedFiles`), `send_file`, `datetime` and the output file name, `pd.read_csv`/`to_csv`, `joblib` and the training of the model.
- AppPredict.PredictCsv: `MODEL.predict` is a function of one row; a model whose answer for a row depends on the other rows is not modelled.
- Column-name stripping (app.py:183), object columns and string cells: every cell is a `Num`, so `dropna` keeps exactly the rows with no NaN (`Complete`).
- float64 rounding and signed zero: values are exact reals with NaN and ±infinity tags, and `1e-6` is exact.
- The import-time call at NAP_Code.py:195, and the file reading and writing of `label_csv_with_predictions`.
- Async timing: `isLoading` is a guard flag, and the request is split into `StartUpload` and `FinishUpload`.
