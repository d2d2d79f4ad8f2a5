# Clinic back office: reconciliation, payment merging and commissions

A Dafny model of the pure logic in the back office of a dental and aesthetic
clinic. The office compares the appointments booked on Doctoralia with the
treatments recorded in Cliniwin. It merges the payment rows of a month,
computes each doctor's commission, and selects the patients who still need a
reminder. It loads exported spreadsheets into SQLite, reads a Google Drive
folder id from a URL, and discovers the configured Drive folders in the
environment.

Every operation is a pure function over immutable data:

- a Python `dict` row is a `map` from column name to a cell (`Str`, `Num` or `Null`);
- a list is a `seq`;
- money is an exact `real`;
- a Python exception is a `Failure` carrying the exception class (`Wrappers.PyError`);
- things the model does not fix are function parameters: the similarity of
  `difflib`, `strptime`/`strftime`, the database query, and the iteration
  order of a Python `set`.

Modules, following the source files:

| module | file | what |
|---|---|---|
| `Wrappers` | wrappers.dfy | `Option`, `Result`, Python exception classes |
| `Text` | text.dfy | `str.strip`, `lower`, `title`, `split`/`join`, `replace`, `in`, string `<` |
| `Decimal` | decimal.dfy | `float()` on text, `"{:.2f}"`, rounding to cents (round-half-even on exact reals) |
| `Calendar` | calendar.dfy | the Spanish month tables, `calendar.monthrange`, `datetime` |
| `Dicts` | dicts.dfy | dicts built by iteration, `defaultdict(list)` grouping |
| `Fuzzy` | fuzzy.dfy | `difflib.get_close_matches` with an abstract similarity |
| `DailyChecks` | daily_checks.dfy | daily_checks.py |
| `Payments` | payments.dfy | `parse_number`, `is_matching_month`, `merge_entries_in_pairs` (commissions3.py) |
| `Criteria` | criteria.dfy | `merge_entries_by_month_and_criteria` (commissions3.py) |
| `MergeEntries` | merge_entries.dfy | `merge_entries` (commissions3.py) |
| `Commissions` | commissions.dfy | `perform_calculation`, `perform_calculation2`, the commission table and the month window |
| `Reminders` | reminders.dfy | appointment_reminders.py |
| `Loader` | loader.dfy | the pure fragments of `parse_html_to_db` and `parse_xlsx_to_db` (database_utils.py). Both clean the column names, drop `nan` columns, type columns by name and convert REAL cells the same way; those rows cite the HTML lines. They differ in three steps: only the HTML export takes its header from row 0 and drops the first two rows (`Loader.HtmlSlice`); only the HTML export renames a leading `Código` of `tratamientos` (the `html` flag of `Loader.ColumnNames`); and the HTML export tries one explicit date format where the XLSX export tries six (`HtmlDateFormats` and `XlsxDateFormats`, passed to `Loader.ConvertDate`, whose rows cite the XLSX lines) |
| `Drive` | drive.dfy | `extract_folder_id_from_url` (gdrive.py) |
| `Config` | config.dfy | `get_drive_sources` (config.py) |

Where the code and its documentation disagree, the model follows the code:

- `perform_calculation2` counts unique patients over every input payment,
  skipped ones included.
- `perform_calculation` passes the payment's `Código`, not a referral source,
  to the commission-type decision (`Commissions.NumericCodeNeverReferral`).
- A missing commission rule in `perform_calculation` is the `TypeError` of
  `None["commission"]`, not a precondition (`Commissions.RuleFor`).
- A merged pair built by `merge_entries_in_pairs` has a `Coste lab.` column
  but no `Costelab` column. `perform_calculation` skips a row whose gross
  reads as zero before it reads `Costelab`, so it raises `KeyError` on every
  merged pair whose gross is not zero (`Commissions.MergedPairLacksLabCost`,
  `Commissions.MergedPairRaises`).

## Model

| member | source | states |
|---|---|---|
| Text.Lower | daily_checks.py:171 | `str.lower()`; `Text.LowerShape` states that its result is lower-case and that it leaves a lower-case string alone |
| Text.LowerShape | daily_checks.py:171 | `lower()` yields a lower-case string, and a lower-case string is its own `lower()` |
| Text.LowerStrip | appointment_reminders.py:61 | lower-casing and stripping commute |
| Text.Strip | daily_checks.py:171 | `str.strip()`; `Text.TrimLeftShape` and `Text.TrimRightShape` state its result |
| Text.TrimLeftShape | daily_checks.py:171 | stripping the left end drops exactly the leading whitespace: the rest is a suffix that starts with no whitespace |
| Text.TrimRightShape | daily_checks.py:171 | stripping the right end drops exactly the trailing whitespace: the rest is a prefix that ends with no whitespace |
| Text.StripUnchanged | daily_checks.py:171 | a string with no whitespace at either end is its own `strip()` |
| Text.WordsOfJoin | daily_checks.py:171 | `" ".join(ws).split()` gives back `ws` for words that are non-empty and hold no whitespace |
| Text.JoinShape | daily_checks.py:171 | words joined by `' '` have no whitespace at either end, no whitespace but `' '`, and no two adjacent whitespace characters |
| Text.Words | daily_checks.py:171 | `str.split()` with no separator; `Text.WordsWellFormed`, `Text.WordsOfJoin` and `Text.WordsStrip` state what it yields |
| Text.WordsWellFormed | daily_checks.py:171 | `split()` yields non-empty words that hold no whitespace |
| Text.WordsStrip | daily_checks.py:171 | splitting ignores the whitespace that `strip()` removes, so `strip()` before `split()` changes nothing |
| Text.Join | daily_checks.py:171 | `" ".join(ws)`; `Text.WordsOfJoin` states that `split()` gives the words back and `Text.JoinShape` states its spacing |
| Text.EndsWith | config.py:22 | `str.endswith`; `Config.SourcesComplete` and `Config.SourcesSound` state that exactly the variables it accepts become sources |
| Text.StrLess | commissions3.py:247-248 | Python's `<` on strings, which `max` of two text cells uses; the four lemmas below state that it is a strict total order |
| Text.StrLessIrreflexive | commissions3.py:247-248 | no string is below itself |
| Text.StrLessTotal | commissions3.py:247-248 | of two different strings, one is below the other |
| Text.StrLessAsymmetric | commissions3.py:247-248 | two strings are never each below the other |
| Text.StrLessTransitive | commissions3.py:247-248 | a string below one that is below a third is below the third |
| Text.StrNotLessTransitive | commissions3.py:247-248 | "not below" is transitive, so repeated `max` of text cells keeps a greatest one |
| Text.Title | appointment_reminders.py:65 | `str.title()` keeps the length and changes only case: lower-casing the result gives the lower-cased input |
| Text.Capitalize | commissions3.py:161 | `str.capitalize()` keeps the length and changes only case: lower-casing the result gives the lower-cased input |
| Text.ReplaceBack | commissions3.py:23 | replacing `a` by `b` and back gives the input when `b` did not occur in it |
| Decimal.ReadFloat | commissions3.py:23 | `float()` on text; `Decimal.ReadFixed2` states that it reads back a `"{:.2f}"` rendering |
| Decimal.RoundHalfEven | calculate_commissions.py:167-175 | the nearest integer, the even one on a tie |
| Decimal.RoundHalfEvenMonotone | calculate_commissions.py:167-175 | rounding never reverses the order of two amounts |
| Decimal.Round2 | calculate_commissions.py:167-175 | `round(x, 2)` is within half a cent of `x` and is a whole number of cents |
| Decimal.Round2Monotone | calculate_commissions.py:167-175 | rounding to cents never reverses the order of two amounts |
| Decimal.Fixed2 | commissions3.py:125 | `"{:.2f}".format(x)`; `Decimal.ReadFixed2` and `Decimal.Fixed2NoComma` state its result |
| Decimal.ReadFixed2 | commissions3.py:125 | `float()` of a `"{:.2f}"` rendering is the amount rounded to cents: the two are inverse up to rounding |
| Decimal.Fixed2NoComma | commissions3.py:125 | a `"{:.2f}"` rendering holds no comma, so `parse_number`'s replacement leaves it alone |
| Calendar.MonthName | commissions3.py:217-221 | a number has a Spanish month name exactly when it is between 1 and 12 |
| Calendar.MonthNumberFrom | commissions3.py:5-18 | the table lookup from a position finds the index of the name, or proves that no later entry has that name |
| Calendar.MonthNumber | commissions3.py:5-18 | a month name's number is between 1 and 12 |
| Calendar.MonthTablesInverse | commissions3.py:5-18 | the number-to-name table and the name-to-number table are inverse to each other, in both directions |
| Calendar.UnknownMonthName | commissions3.py:212-221 | a name outside the twelve-name table is no month's name, so no date matches it |
| Calendar.DaysInMonth | calculate_commissions.py:114 | `monthrange` gives 28 to 31 days, 29 in February exactly in leap years, and 31 exactly for the seven long months |
| Dicts.MapOf | daily_checks.py:223-226 | the keys of a dict built by iteration are exactly the keys of its pairs |
| Dicts.KeysOf | daily_checks.py:237 | `list(d.keys())` lists each key of the dict once |
| Dicts.MapOfLastWins | daily_checks.py:223-226 | a later pair with the same key overwrites an earlier one: the last value of a key is the one kept |
| Dicts.GroupOfEmpty | commissions3.py:103-109 | a `defaultdict(list)` group is empty exactly when the key was never appended to |
| Fuzzy.Qualified | daily_checks.py:176 | the candidates kept before ranking are those scoring at least the cutoff, each with its own score |
| Fuzzy.MaxIndexFrom | daily_checks.py:176 | the position chosen holds a best-scoring tuple of the remaining candidates |
| Fuzzy.MaxIndex | daily_checks.py:176 | the position chosen holds a best-scoring tuple |
| Fuzzy.RemoveAt | daily_checks.py:176 | dropping the chosen tuple keeps every other tuple, in order |
| Fuzzy.Largest | daily_checks.py:176 | `nlargest(n, items)` returns `min(n, len(items))` tuples |
| Fuzzy.LargestStep | daily_checks.py:176 | `nlargest` takes a best tuple first, then the largest of the rest |
| Fuzzy.Origin | daily_checks.py:176 | every ranked tuple is one of the scored candidates (a witness index is given) |
| Fuzzy.LargestFrom | daily_checks.py:176 | every ranked tuple is one of the scored candidates |
| Fuzzy.LargestHead | daily_checks.py:176 | the first ranked tuple scores at least as much as every candidate |
| Fuzzy.LargestSorted | daily_checks.py:176 | the ranked tuples are in non-increasing score order |
| Fuzzy.Names | daily_checks.py:176 | the result lists the names of the ranked tuples, in order |
| Fuzzy.QualifiedCount | daily_checks.py:176 | one qualifying tuple per candidate scoring at least the cutoff, duplicates included |
| Fuzzy.LargestKeepsTheBest | daily_checks.py:176 | no candidate left out of the ranking scores more than one kept in it |
| Fuzzy.NotInTail | daily_checks.py:176 | a tuple absent from a list is absent from its tail |
| Fuzzy.CloseMatches | daily_checks.py:174-176 | `get_close_matches`; the `Fuzzy.CloseMatches…` lemmas below state its result |
| Fuzzy.CloseMatchesShape | daily_checks.py:174-176 | close matches: at most `n` results, each a qualifying candidate, best first; none exactly when no candidate reaches the cutoff; no candidate beats the first |
| Fuzzy.CloseMatchesCount | daily_checks.py:174-176 | there are as many close matches as qualifying candidates, capped at `n` |
| Fuzzy.CloseMatchesNone | daily_checks.py:174-176 | there are no close matches exactly when no candidate reaches the cutoff |
| Fuzzy.CloseMatchesSorted | daily_checks.py:174-176 | close matches come best first |
| Fuzzy.CloseMatchesFrom | daily_checks.py:174-176 | every close match is a candidate scoring at least the cutoff |
| Fuzzy.CloseMatchesBest | daily_checks.py:174-176 | no candidate scores more than the first close match |
| Fuzzy.Suggestions | daily_checks.py:174-176 | `generate_suggestions` gives at most three names, each a candidate with similarity at least 0.5, and none exactly when no candidate reaches 0.5 |
| Fuzzy.BestMatch | daily_checks.py:208-211 | `match_patient_name` is `None` exactly when every candidate scores below 0.5; otherwise it is a candidate scoring at least 0.5 that no candidate beats |
| DailyChecks.DoctorNumber | daily_checks.py:246 | a doctor's number is found exactly when the name is in the doctor table, and the number found belongs to that name |
| DailyChecks.DoctorNumberFrom | daily_checks.py:246 | the scan of the doctor table from a position finds a number of the name, or proves that none follows |
| DailyChecks.DoctorName | daily_checks.py:251 | a number's name is "Desconocido" exactly when the number is not in the table; otherwise it is the table's name for it |
| DailyChecks.DoctorNameFrom | daily_checks.py:251 | the scan of the doctor table from a position finds the name of the number, or proves that none follows |
| DailyChecks.NormalizeName | daily_checks.py:169-171 | `normalize_name`; `DailyChecks.NormalizeNameShape` and `DailyChecks.NormalizeNameIdempotent` state its result |
| DailyChecks.NormalizeNameShape | daily_checks.py:169-171 | a normalised name is lower-case, has no whitespace at either end, its only whitespace is `' '`, and no two whitespace characters are adjacent |
| DailyChecks.NormalizeNameIdempotent | daily_checks.py:169-171 | normalising twice is normalising once |
| DailyChecks.NormalizeNameStripped | daily_checks.py:185 | the extra `.strip()` before normalising changes nothing, so the treatment check and the doctor check build the same names |
| DailyChecks.ClinicNames | daily_checks.py:184-187 | one normalised name per treatment, in treatment order, duplicates kept |
| DailyChecks.ConcatAppend | daily_checks.py:158-166 | the alerts of two runs of appointments are the alerts of the first run followed by those of the second |
| DailyChecks.ConcatOne | daily_checks.py:158-166 | one appointment yields exactly its own alerts |
| DailyChecks.ConcatFrom | daily_checks.py:158-166 | every alert comes from one of the appointments |
| DailyChecks.ConcatSize | daily_checks.py:158-166 | at most one alert per appointment gives at most as many alerts as appointments |
| DailyChecks.CheckState | daily_checks.py:153-166 | at most one alert per appointment; each alert is an invalid-state alert about an input appointment whose state is not allowed |
| DailyChecks.CheckStateAppend | daily_checks.py:158-165 | the alerts keep input order: those of a run are followed by those of the next |
| DailyChecks.CheckStateOne | daily_checks.py:154-164 | one appointment gets an alert exactly when its state is not one of the three allowed states |
| DailyChecks.StateAlerts | daily_checks.py:158-164 | the alert of one appointment; `DailyChecks.CheckStateOne` states when there is one |
| DailyChecks.TreatmentAlerts | daily_checks.py:189-203 | the alert of one appointment; `DailyChecks.TreatmentAlertsAbout` and `DailyChecks.CheckTreatmentsOne` state when there is one and what it holds |
| DailyChecks.TreatmentAlertsAbout | daily_checks.py:189-203 | a treatment alert is about a finished visit whose normalised patient name is not a treatment name |
| DailyChecks.ClinicNamesHas | daily_checks.py:184-187 | a name is a treatment name exactly when some treatment has it as its normalised full name |
| DailyChecks.CheckTreatments | daily_checks.py:179-205 | at most one alert per appointment; each is about a finished visit whose patient is missing from the treatments, with at most three suggestions drawn from the treatment names |
| DailyChecks.CheckTreatmentsAppend | daily_checks.py:189-203 | the alerts keep input order |
| DailyChecks.CheckTreatmentsOne | daily_checks.py:189-203 | one appointment gets an alert exactly when it is a finished visit and no treatment carries its normalised patient name |
| DailyChecks.Keyed | daily_checks.py:223-226 | each treatment is paired with its normalised name, in treatment order |
| DailyChecks.Mapping | daily_checks.py:223-226 | the mapping's keys are exactly the normalised names of the treatments |
| DailyChecks.MappingKeys | daily_checks.py:237 | the list of keys holds each key of the mapping once |
| DailyChecks.MappingLastWins | daily_checks.py:223-226 | when several treatments share a normalised name, the mapping keeps the last of them |
| DailyChecks.DoctorAlerts | daily_checks.py:229-256 | the alert of one appointment; `DailyChecks.DoctorAlertsAbout`, `DailyChecks.CheckDoctorsSilent` and `DailyChecks.CheckDoctorsMatched` state when there is one and what it holds |
| DailyChecks.DoctorAlertsAbout | daily_checks.py:229-256 | a doctor alert is about a finished visit whose specialist is in the doctor table |
| DailyChecks.CheckDoctors | daily_checks.py:214-258 | at most one alert per appointment; each is a wrong-doctor alert about a finished visit whose specialist has a doctor number |
| DailyChecks.CheckDoctorsAppend | daily_checks.py:229-256 | the alerts keep input order |
| DailyChecks.CheckDoctorsSilent | daily_checks.py:229-250 | no alert for an appointment that is not a finished visit, that has no fuzzy match (or only the empty name), or whose specialist is not in the doctor table |
| DailyChecks.CheckDoctorsMatched | daily_checks.py:237-256 | for a matched finished visit, there is an alert exactly when the booked doctor's number differs from the recorded one and the recorded one is not `'18'`; the alert names the recorded doctor |
| DailyChecks.OfKind | daily_checks.py:142-150 | filtering alerts by kind never adds alerts |
| DailyChecks.OfKindAppend | daily_checks.py:147-149 | filtering by kind distributes over concatenation |
| DailyChecks.OfKindUniform | daily_checks.py:147-149 | a run of alerts of one kind is all kept by its own filter and all dropped by the others |
| DailyChecks.OfKindSplit | daily_checks.py:147-149 | the state, treatment and doctor alerts are recovered from their concatenation, each by its kind |
| DailyChecks.PerformChecks | daily_checks.py:142-150 | the alerts of a day are the state alerts, then the treatment alerts, then the doctor alerts: their number is the sum of the three checks' counts, each slice is exactly its check's result, and filtering by kind recovers each check; all are about the day's appointments, at most three per appointment |
| DailyChecks.PerformChecksHasState | daily_checks.py:142-150 | every state alert of a day's appointments is among the day's alerts |
| DailyChecks.Present | daily_checks.py:107-110 | appointments whose `Paciente` is `None` or empty are dropped, and every other row is kept; `DailyChecks.PresentAppend` and `DailyChecks.PresentOne` state that order and repeats are kept |
| DailyChecks.PresentAppend | daily_checks.py:107-110 | the comprehension keeps input order and repeats: the appointments of two runs of rows are those of the first run followed by those of the second |
| DailyChecks.PresentOne | daily_checks.py:107-110 | one row yields its appointment exactly when its `Paciente` is present and not empty, and nothing otherwise |
| DailyChecks.OnDay | daily_checks.py:124-130 | the group of a date holds input elements of that date only, and every input element of that date |
| DailyChecks.OnDayAppend | daily_checks.py:124-130 | grouping keeps input order: the group of two runs is the group of the first run followed by the group of the second |
| DailyChecks.OnDayOne | daily_checks.py:125-126 | one element joins the group of a date exactly when its normalised date is that date |
| DailyChecks.AppointmentsOn | daily_checks.py:113-126 | the appointments of a date are exactly the input appointments whose `Fecha` normalises to that date; with `DailyChecks.OnDayAppend` and `DailyChecks.OnDayOne`, they come in input order |
| DailyChecks.TreatmentsOn | daily_checks.py:117-130 | the treatments of a date are exactly the input treatments whose `Fecha realizado` normalises to that date; with `DailyChecks.OnDayAppend` and `DailyChecks.OnDayOne`, they come in input order |
| DailyChecks.RunDaysAppend | daily_checks.py:135-138 | the alerts of two runs of dates are the alerts of the first run followed by those of the second |
| DailyChecks.RunDaysBlock | daily_checks.py:135-138 | the alerts of the k-th date sit, contiguous and unchanged, right after the alerts of the dates before it |
| DailyChecks.RunDaysHas | daily_checks.py:135-138 | an alert of any visited date is in the result |
| DailyChecks.RunDaysFrom | daily_checks.py:135-138 | every alert of the result is an alert of some visited date |
| DailyChecks.DayAlertsSound | daily_checks.py:136-138 | an alert of a date is about an input appointment of that date |
| DailyChecks.ChecksByDaySound | daily_checks.py:132-139 | every alert of the date loop is about an input appointment whose date parsed |
| DailyChecks.PerformAppointmentChecks | daily_checks.py:103-139 | every alert is about an input row with a non-empty patient and a date that parses: rows dropped by the patient filter or by `normalize_date` never reach an alert |
| DailyChecks.PerformAppointmentChecksDay | daily_checks.py:132-139 | for each date of the iteration, `perform_checks` of that date's appointment group and treatment group appears, contiguous and unchanged, right after the alerts of the dates before it |
| DailyChecks.CheckStateHas | daily_checks.py:158-164 | an appointment whose state is not allowed gets its invalid-state alert |
| DailyChecks.DayAlertsFlagState | daily_checks.py:136-138 | an appointment of a date whose state is not allowed is flagged among that date's alerts |
| DailyChecks.DayVisited | daily_checks.py:124-135 | the loop visits the date of every appointment whose date normalises |
| DailyChecks.PerformAppointmentChecksFlagsState | daily_checks.py:103-139 | every row with a non-empty patient, a date that parses and a state that is not allowed yields its invalid-state alert |
| Payments.Max | commissions3.py:182 | `max` is at least both arguments and is one of them |
| Payments.ParseNumber | commissions3.py:21-25 | `parse_number` gives 0.0 for a falsy value; it fails (with `AttributeError`) exactly on a non-zero number, which has no `.replace` |
| Payments.ParseText | commissions3.py:21-25 | non-empty text reads as the number `float()` finds after replacing commas with points, and 0.0 when `float()` rejects it |
| Payments.CommaToPoint | commissions3.py:23 | replacing the decimal comma of `digits,digits` gives `digits.digits` |
| Payments.ParseNumberComma | commissions3.py:21-25 | text of digits, a comma and two digits reads as the amount it denotes |
| Payments.ParseFixed2 | commissions3.py:125 | a `"{:.2f}"` rendering reads back as the amount rounded to cents |
| Payments.ParseFormatNumber | commissions3.py:21-29 | `parse_number` after `format_number` gives the amount rounded to cents: the two are inverse up to rounding |
| Payments.FormatNumber | commissions3.py:28-29 | `format_number`: two decimals with a decimal comma; `Payments.ParseFormatNumber` states that `parse_number` reads it back as the amount rounded to cents |
| Payments.IsMatchingMonth | commissions3.py:212-221 | `is_matching_month` fails exactly when the date is not text or does not parse, and otherwise holds exactly when the date's month is the named month |
| Payments.KeyOf | commissions3.py:108 | the identity key exists exactly when the five key columns do; otherwise `KeyError` |
| Payments.Rows | commissions3.py:106-109 | the rows of selected pairs, in order |
| Payments.Select | commissions3.py:106-109 | the grouping loop never yields more pairs than payments; `Payments.SelectKeepsMonth` states which pairs |
| Payments.SelectKeepsMonth | commissions3.py:106-109 | the grouping loop keeps exactly the rows of the month, in order, each with its own identity key |
| Payments.SelectUnknownMonth | commissions3.py:212-221 | a month name outside the twelve-name table selects no row |
| Payments.PairRowCopies | commissions3.py:118-136 | the merged dict copies the descriptive columns from the first row |
| Payments.MergePair | commissions3.py:118-136 | a pair merges exactly when the first row has the copied columns and all four amounts read; otherwise the first missing column or unreadable amount raises |
| Payments.MergePairCopies | commissions3.py:119-131 | a merged pair carries the first row's descriptive columns, so it keeps the pair's identity key |
| Payments.MergePairKeys | commissions3.py:118-136 | a merged pair has the copied columns, `Realizado`, `Cobrado` and `Importe bruto`, and no other column |
| Payments.MergePairAmounts | commissions3.py:125-135 | `Realizado` and `Cobrado` read back as the pairwise maxima rounded to cents; `Importe bruto` reads back as the largest of the four amounts, at least each maximum |
| Payments.PyMax | commissions3.py:247-248 | Python `max` on two cells: text with text or number with number yields one of them, anything else is `TypeError` |
| Payments.FormatCell | commissions3.py:143 | `"{:.2f}"` formats numbers only |
| Payments.SingletonAsWritten | commissions3.py:141-144 | as written, the leftover row keeps every other column and gains a gross only when both amounts are numbers; two text amounts raise `ValueError` |
| Payments.SingletonCorrected | commissions3.py:141-144 | as intended, the leftover row gains a gross exactly when both amounts read, and keeps every other column unchanged |
| Payments.SingletonCorrectedGross | commissions3.py:141-144 | the intended leftover gross reads back as the larger of the two amounts, rounded to cents |
| Payments.DigitsSeventyZero | commissions3.py:143 | the digit strings "70", "00" and "0" have the values 70, 0 and 0 |
| Payments.ParseSeventy | commissions3.py:21-25 | "70,00" reads as 70 |
| Payments.ParseZero | commissions3.py:21-25 | "0,00" reads as 0 |
| Payments.Round2Whole | commissions3.py:125 | whole amounts are already rounded to cents |
| Payments.SingletonTextAmounts | commissions3.py:141-144 | a leftover row with text amounts "0,00" and "70,00" raises as written and gets a gross of 70 as intended |
| Payments.Leftover | commissions3.py:141-144 | the completion of a leftover row, as written or as intended; `Payments.LeftoverKeepsKey` states that it keeps the row's key |
| Payments.LeftoverKeepsKey | commissions3.py:141-144 | completing a leftover row never changes its identity key |
| Payments.MergePairKeepsKey | commissions3.py:118-136 | a merged pair has the identity key of its first row |
| Payments.Pairs | commissions3.py:113-144 | a group of `n` rows yields `ceil(n/2)` rows |
| Payments.PairsKeepKey | commissions3.py:113-144 | merging a group in pairs keeps the group's identity key on every output row: rows of different keys are never combined |
| Payments.AllKeyedCons | commissions3.py:113-137 | prepending a row of key `k` to rows of key `k` keeps them all of key `k` |
| Payments.CountKey | commissions3.py:108-109 | the number of rows of a key is at most the number of rows |
| Payments.CountKeyAppend | commissions3.py:112-144 | the count of a key over two runs of rows is the sum of the counts |
| Payments.CountKeyAllKeyed | commissions3.py:112-144 | rows all of one key count fully for it and not at all for another key |
| Payments.CountKeyPositive | commissions3.py:108-109 | a key that is counted has a row |
| Payments.GroupOfKeyed | commissions3.py:106-109 | the group of a key holds only rows of that key, as many as the selection has |
| Payments.GroupOfRows | commissions3.py:106-109 | the group of a key is the selected rows of that key, in order |
| Payments.MergeGroupsCount | commissions3.py:112-144 | over distinct keys, each key yields half its group rounded up and other keys yield nothing |
| Payments.MergeInPairs | commissions3.py:101-146 | `merge_entries_in_pairs`; `Payments.MergeInPairsCount` states how many rows each key yields |
| Payments.MergeInPairsCount | commissions3.py:101-146 | `merge_entries_in_pairs` yields, for each identity key, half the month's rows with that key rounded up |
| Criteria.StrictNumber | commissions3.py:150-152 | the local `parse_number` succeeds exactly on text `float()` accepts after replacing commas; text it rejects raises `ValueError`, a non-text cell `AttributeError` |
| Criteria.TargetMonth | commissions3.py:154-166 | the month name is capitalised and looked up; an unknown name raises `ValueError` |
| Criteria.InTargetMonth | commissions3.py:169-171 | a row's month is tested exactly when its `Fecha` is text that parses, and the test holds exactly for the target month |
| Criteria.MonthEntries | commissions3.py:169-171 | the filter succeeds exactly when every date parses, and then keeps exactly the rows of the target month; `Criteria.MonthEntriesAppend` and `Criteria.MonthEntriesOne` state that order and repeats are kept |
| Criteria.MonthEntriesCons | commissions3.py:169-171 | the first row's date is read first: its error wins, then the rest's error; a kept first row stays in front of the rows kept from the rest |
| Criteria.MonthEntriesJoined | commissions3.py:169-171 | the filter of two runs of rows is the first run's error, else the second run's error, else the rows kept from the first run followed by those kept from the second |
| Criteria.MonthEntriesAppend | commissions3.py:169-171 | on two runs of rows the filter fails with the first run's error, else with the second's, and otherwise keeps the first run's rows of the month followed by the second run's, in order and with repeats |
| Criteria.MonthEntriesOne | commissions3.py:169-171 | one row is kept exactly when its date parses into the target month, and an unreadable date is the error of the whole filter |
| Criteria.SameKey | commissions3.py:186-192 | with both keys present, two rows match exactly when their five key columns agree; a missing column raises `KeyError` |
| Criteria.Scan | commissions3.py:184-196 | the inner loop leaves at most the rows it was given for later rounds |
| Criteria.MergeByCriteria | commissions3.py:164-166 | an unknown month name raises `ValueError` |
| Criteria.WithoutKey | commissions3.py:177-196 | the rows left for later rounds are exactly the rows of other keys |
| Criteria.FirstIndex | commissions3.py:176-178 | the first row of a key: it has the key, and no earlier row does |
| Criteria.ScanRest | commissions3.py:184-196 | the inner loop marks exactly the rows of the base row's key as processed, keeping the others in order |
| Criteria.ScanSucceeds | commissions3.py:184-196 | the inner loop succeeds exactly when every row of the base key has two readable amounts |
| Criteria.ScanMaxima | commissions3.py:194-195 | the inner loop ends with the largest `Realizado` and `Cobrado` of the key, each attained by a row or by the starting value |
| Criteria.WithoutKeyHaveKeys | commissions3.py:176-205 | the rows left for later rounds carry keys when all rows do |
| Criteria.HaveKeysTail | commissions3.py:176-205 | the first row and the rest carry keys when all rows do |
| Criteria.Fold | commissions3.py:176-205 | the outer loop; `Criteria.FoldSucceeds`, `Criteria.FoldKeys`, `Criteria.FoldOrder` and `Criteria.FoldRows` state when it succeeds and what it yields |
| Criteria.FoldStep | commissions3.py:176-205 | one round: the first unprocessed row's amounts read, the scan succeeds, and its merged row is followed by the later rounds' output |
| Criteria.FoldSucceeds | commissions3.py:176-205 | the outer loop succeeds exactly when every row has two readable amounts |
| Criteria.Merged | commissions3.py:199-204 | the output row of a key; `Criteria.MergedKey` and `Criteria.FoldRows` state what it keeps |
| Criteria.MergedKey | commissions3.py:199-204 | the output row of a key keeps the key of its base row |
| Criteria.FoldShape | commissions3.py:176-205 | one round yields the merged row of the first key, then the merge of the rows of other keys |
| Criteria.KeysFromCons | commissions3.py:176-205 | output keys come from the input, carried over from later rounds |
| Criteria.KeysCoveredCons | commissions3.py:176-205 | input keys reach the output, carried over from later rounds |
| Criteria.FoldKeys | commissions3.py:176-205 | the merge yields a row for every key of its input and for no other key |
| Criteria.FirstIndexTail | commissions3.py:176-178 | the first row of a key after a first row of another key is one further in |
| Criteria.FirstIndexWithout | commissions3.py:176-205 | dropping the rows of one key keeps the order of first occurrences of the other keys |
| Criteria.FirstIndexWithoutDropped | commissions3.py:176-205 | the same when the first row has the dropped key |
| Criteria.FirstIndexWithoutKept | commissions3.py:176-205 | the same when the first row has a third key |
| Criteria.OrderCons | commissions3.py:176-205 | first-occurrence order carries over from the later rounds to the whole merge |
| Criteria.FoldOrder | commissions3.py:176-205 | output rows come in the order of the first occurrences of their keys, so no key appears twice |
| Criteria.HeadMerges | commissions3.py:176-205 | the first output row is the merged row of the first input row's key |
| Criteria.PeakOfHead | commissions3.py:180-195 | the peak of the first row's key is the first row's amount or a larger one of a later row of the key |
| Criteria.FirstWithout | commissions3.py:176-205 | dropping the rows of one key keeps the first row of every other key |
| Criteria.FirstWithoutDropped | commissions3.py:176-205 | the same when the first row has the dropped key |
| Criteria.FirstWithoutKept | commissions3.py:176-205 | the same when the first row has a third key |
| Criteria.PeakWithout | commissions3.py:176-205 | the peak of another key is the same with or without the first key's rows |
| Criteria.TailMerges | commissions3.py:176-205 | a merged row of the later rounds is a merged row of the whole input |
| Criteria.FoldRows | commissions3.py:176-205 | every output row is its key's first row with the key's largest `Realizado` and `Cobrado` and the first row's own gross |
| Criteria.MonthEntriesHaveKeys | commissions3.py:169-171 | the rows of the month carry keys when all rows do |
| Criteria.MergeByCriteriaSucceeds | commissions3.py:149-207 | with every key present, the merge succeeds exactly when the month is known, every date parses and every row of the month has two readable amounts |
| Criteria.MergeByCriteriaRows | commissions3.py:149-207 | one row per key of the month's rows, in first-occurrence order; each is the first row of its key with the key's largest amounts and the first row's own gross |
| MergeEntries.Larger | commissions3.py:247-248 | `max` of two amount cells yields one of them |
| MergeEntries.LargerNotBelow | commissions3.py:247-248 | neither argument beats the `max` of two cells |
| MergeEntries.NotBelowTransitive | commissions3.py:245-248 | "not beaten by" is transitive, so a running maximum stays a maximum |
| MergeEntries.FoldGroup | commissions3.py:244-248 | the running maximum over a group; `MergeEntries.FoldGroupSpec` and `MergeEntries.FoldGroupPeak` state its result |
| MergeEntries.FoldGroupSpec | commissions3.py:244-248 | folding a group keeps the first row's other columns; each amount is a cell of the group that no cell of the group beats |
| MergeEntries.FoldGroupPeak | commissions3.py:244-248 | the fold of a group of two or more reaches the group's peak |
| MergeEntries.NotBelowBoth | commissions3.py:247-248 | two cells that do not beat each other read as the same amount |
| MergeEntries.PeakAmounts | commissions3.py:244-252 | all peaks of a group read as the same two amounts |
| MergeEntries.MergeGroup | commissions3.py:242-256 | the merge of one group; `MergeEntries.MergeGroupSpec` states when it is kept and what it holds |
| MergeEntries.MergeGroupSpec | commissions3.py:242-256 | a group of two or more is kept exactly when both peak amounts read as non-zero; the kept row is the peak with a numeric gross equal to the larger amount |
| MergeEntries.MergeGroupKey | commissions3.py:239-256 | a kept row has its group's identity key |
| MergeEntries.MergeAll | commissions3.py:238-256 | the loop over the groups; `MergeEntries.MergeAllCount` and `MergeEntries.MergeAllRows` state its result |
| MergeEntries.MergeAllCount | commissions3.py:238-256 | over distinct keys, each key yields its kept row once and other keys yield nothing |
| MergeEntries.MergeAllRows | commissions3.py:238-256 | every output row is the kept row of its key's group |
| MergeEntries.Merge | commissions3.py:225-258 | `merge_entries`; `MergeEntries.MergeRows` states its result |
| MergeEntries.MergeRows | commissions3.py:225-258 | `merge_entries` yields at most one row per identity key of the month, the kept merge of that key's rows; a key with a single row yields that row unchanged |
| MergeEntries.ParseNine | commissions3.py:21-25 | "9,00" reads as 9 |
| MergeEntries.ParseTen | commissions3.py:21-25 | "10,00" reads as 10 |
| MergeEntries.FoldNineTenAsWritten | commissions3.py:245-248 | as written, folding "10,00" into "9,00" keeps "9,00" |
| MergeEntries.LargerNineTen | commissions3.py:247-248 | by value, the larger of "9,00" and "10,00" is "10,00" |
| MergeEntries.NineRaisedToTen | commissions3.py:247-248 | raising both amounts of the 9 row to "10,00" gives the 10 row |
| MergeEntries.FoldNineTenByValue | commissions3.py:245-248 | by value, folding "10,00" into "9,00" keeps "10,00" |
| MergeEntries.MergeNineTenAsWritten | commissions3.py:242-256 | as written, the 9 and 10 rows merge into the 9 row with a gross of 9 |
| MergeEntries.MergeNineTenByValue | commissions3.py:242-256 | by value, the 9 and 10 rows merge into the 10 row with a gross of 10 |
| MergeEntries.TextMaxIsLexicographic | commissions3.py:247-248 | text amounts compare as text: "9,00" beats "10,00" as written, while by value the 10 wins |
| Commissions.DoctorRules | commissions3.py:50 | a doctor's rules are exactly the table's rules with that doctor's id |
| Commissions.FindRule | commissions3.py:71-74 | the lookup fails exactly when no rule has the type, and otherwise returns a rule of that type |
| Commissions.FindRuleFirst | commissions3.py:71-74 | the lookup returns the first rule of its type |
| Commissions.GetCommissionType | commissions3.py:39-46 | the type is invisalign, referido or regular; it fails (with `AttributeError`) exactly when doctor "10" has a non-text description |
| Commissions.KindFor | calculate_commissions.py:141-148 | the type of `perform_calculation2` is invisalign, referido or regular |
| Commissions.CommissionTypesAgree | calculate_commissions.py:141-148 | the two decision tables agree on text descriptions and text referral sources |
| Commissions.CommissionTypeOrder | commissions3.py:39-46 | invisalign exactly for doctor "10" with "invisalign" in the lower-cased description; referido exactly for 15/"Referido Anna U" or 14/"Referido Juan"; regular for every other case |
| Commissions.NumericCodeNeverReferral | commissions3.py:68 | a numeric `Código` passed as the referral source never selects referido |
| Commissions.RuleInTable | calculate_commissions.py:17-29 | a table rule of a doctor and type is found by the lookup |
| Commissions.CoversReferral | calculate_commissions.py:17-21 | doctors 15 and 14 have a rule for every type the decision gives them |
| Commissions.CoversInvisalign | calculate_commissions.py:22-23 | doctor 10 has a rule for every type the decision gives it |
| Commissions.CoversRegular | calculate_commissions.py:24-28 | every other doctor of the table always gets regular, and has a regular rule |
| Commissions.TableCoversDoctors | calculate_commissions.py:17-29 | for any doctor of the table, the rule lookup never fails |
| Commissions.TableConsistent | calculate_commissions.py:15-29 | each doctor of the table performs one kind of treatment and has at most one rule per type |
| Commissions.VatExclusive | commissions3.py:32-33 | the amount before VAT is the amount that 21% VAT brings back to the input |
| Commissions.VatExclusiveBounds | commissions3.py:32-33 | stripping VAT keeps the sign and never increases a non-negative amount |
| Commissions.RawCost | commissions3.py:82-84 | the raw lab cost can be used in arithmetic exactly when it is a number; otherwise `TypeError` |
| Commissions.LabCost | commissions3.py:92 | the intended lab cost: a number as it is, text as `parse_number` reads it, `None` as zero |
| Commissions.RuleFor | commissions3.py:71-79 | the rule is found exactly when the lookup finds one, and a missing rule is the `TypeError` of indexing `None` |
| Commissions.Priced | commissions3.py:81-97 | both amounts lose VAT exactly when the rule is aesthetic; the commission is the rule's percentage of gross less lab cost |
| Commissions.LineOf | commissions3.py:65-97 | a line is produced only for a payment with the lab cost, description and code columns |
| Commissions.CommissionOf | commissions3.py:61-97 | a payment is skipped exactly when its gross reads as zero; otherwise its line is the line of its gross |
| Commissions.CommissionLine | commissions3.py:66-97 | a line shows the payment's gross, the type the decision gives for its description and code, that type's rule percentage, and the VAT stripped from the gross exactly for aesthetic rules |
| Commissions.LabCostAsWritten | commissions3.py:82-92 | as written, a line survives only when the lab cost is the number zero |
| Commissions.LabCostCorrected | commissions3.py:82-92 | as intended, the lab cost shown and subtracted, VAT stripped exactly for aesthetic rules, is the number the cell holds |
| Commissions.OnlyElevenRule | calculate_commissions.py:24 | the only rule of doctor 11 is its regular one |
| Commissions.ElevenRegular | calculate_commissions.py:24 | doctor 11's regular lookup finds that rule |
| Commissions.LabPaymentCells | commissions3.py:65-68 | the example payment's cells |
| Commissions.LabCostExampleAsWritten | commissions3.py:92 | as written, a payment with a numeric lab cost of 30 raises when the cost is displayed |
| Commissions.LabCostExampleCorrected | commissions3.py:82-84 | as intended, that payment earns 35% of 100 less 30 |
| Commissions.Billed | commissions3.py:61-63 | the payments not skipped are exactly those whose gross does not read as zero |
| Commissions.Calculate | commissions3.py:61-98 | the loop never yields more lines than rows; `Commissions.CalculateLines` states which lines |
| Commissions.CalculateLines | commissions3.py:61-98 | one line per payment not skipped, in order: the i-th line is the line of the i-th billed payment |
| Commissions.PerformCalculation | commissions3.py:37-98 | a failure to merge the month's payments in pairs is raised; otherwise the i-th line is the line of the i-th merged row whose gross does not read as zero, using the doctor's rules, one line per such row |
| Commissions.PerformCalculationUnknownMonth | commissions3.py:106-109 | an unknown month name yields no lines |
| Commissions.MergedPairLacksLabCost | commissions3.py:118-136 | a merged pair has no `Costelab` column |
| Commissions.MergedPairRaises | commissions3.py:60-65 | a merged pair whose gross does not read as zero makes `perform_calculation` raise `KeyError` when it reads `Costelab` |
| Commissions.MonthWindow | calculate_commissions.py:106-116 | the window fails with `ValueError` exactly when the capitalised month name is unknown |
| Commissions.MonthWindowValid | calculate_commissions.py:114-116 | both ends of the window are real instants, the start not after the end |
| Commissions.MonthWindowIsMonth | calculate_commissions.py:114-116 | an instant lies in the window exactly when it is in the named month of the year |
| Commissions.PerformCommissionCalculation | calculate_commissions.py:99-121 | an unknown month name raises `ValueError` before the database is queried |
| Commissions.LowerCell | calculate_commissions.py:140 | `.lower()` succeeds exactly on text and lower-cases it |
| Commissions.FloatCell | calculate_commissions.py:163-164 | an amount reads exactly when its column is text that `float()` accepts after replacing commas |
| Commissions.Priced2 | calculate_commissions.py:166-192 | aesthetic amounts are the VAT-exclusive amounts to the nearest cent; others are unchanged; the commission is the percentage of the net to the nearest cent |
| Commissions.VatExclusiveCents | calculate_commissions.py:166-168 | the amount rounded to cents, which 21% VAT brings back to the input within half a cent's VAT |
| Commissions.RoundedShare | calculate_commissions.py:174-175 | the commission is the percentage of the net amount to the nearest cent, a whole number of cents |
| Commissions.Line2Of | calculate_commissions.py:163-192 | a line needs both amounts to read |
| Commissions.Commission2Line | calculate_commissions.py:163-192 | a line shows the payment's own amount cells and the amounts read from them, VAT stripped to the cent exactly for aesthetic rules |
| Commissions.Referral | calculate_commissions.py:145-147 | `patients.get(code)`: the referral source of a known patient code, none otherwise; `Commissions.Commission2Skips` states how it selects the commission type |
| Commissions.Commission2Of | calculate_commissions.py:133-136 | a payment must have a code column |
| Commissions.Commission2Skips | calculate_commissions.py:133-157 | a payment is skipped exactly when its code is falsy or the doctor has no rule for its type; otherwise its line is that rule's line |
| Commissions.Step2 | calculate_commissions.py:133-192 | the body of the loop of `perform_calculation2`; `Commissions.Step2NeedsCode` and `Commissions.Commission2Skips` state what it does |
| Commissions.Step2NeedsCode | calculate_commissions.py:135 | the loop body only succeeds on payments with a code |
| Commissions.Lines | calculate_commissions.py:133-192 | the reference meaning of a report loop, one payment at a time: the lines of the payments not skipped, or the first error; `Commissions.LinesExtend`, `Commissions.LinesFailure` and `Commissions.LinesKept` state it and `Commissions.ReportLoop` computes it |
| Commissions.LinesExtend | calculate_commissions.py:133-178 | one more pass of a successful loop appends the next payment's line, if it has one, and adds it to both totals |
| Commissions.LinesFailure | calculate_commissions.py:133-192 | the first failure stops the loop with that error |
| Commissions.LinesCodes | calculate_commissions.py:135 | every payment of a successful loop has a code |
| Commissions.LinesKept | calculate_commissions.py:133-192 | the lines are those of the payments not skipped, in input order, at most one per payment |
| Commissions.TotalsSplitNet | calculate_commissions.py:173-178 | the two totals split the net amount between doctor and clinic |
| Commissions.Codes | calculate_commissions.py:195 | there are at most as many distinct codes as payments |
| Commissions.CodesOfPayments | calculate_commissions.py:195 | the set holds the code of every payment, skipped ones included, and nothing else |
| Commissions.CodesNonEmpty | calculate_commissions.py:195-197 | there is a patient to count exactly when there is a payment |
| Commissions.ReportLoop | calculate_commissions.py:133-178 | for any loop body, the loop stops at the first payment whose body raises, with that error; otherwise it yields exactly the lines of the payments not skipped, in order, with the commission total and the clinic total as the sums over those lines |
| Commissions.PerformCalculation2 | calculate_commissions.py:124-205 | the lines and failures are those of the loop; total commission and total for the clinic are sums over the lines; the patient count covers all payments; productivity is zero when there are no patients |
| Reminders.Field | appointment_reminders.py:60-62 | a missing column reads as the empty string, and a present text cell as its text |
| Reminders.ReminderOf | appointment_reminders.py:64-67 | the reminder of one appointment; `Reminders.NameRoundTrip` and `Reminders.TelephoneShape` state its fields |
| Reminders.Unconfirmed | appointment_reminders.py:60 | the stripped confirmation cell is neither "Confirmada" nor "Cancelada"; `Reminders.ExtractMembership` states that other appointments give no reminder |
| Reminders.PatientName | appointment_reminders.py:61 | the stripped, lower-cased patient cell; `Reminders.NameRoundTrip` states what the reminder keeps of it |
| Reminders.Telephone | appointment_reminders.py:62 | the stripped, lower-cased telephone cell with its spaces removed; `Reminders.TelephoneShape` states its shape |
| Reminders.Wanted | appointment_reminders.py:60-63 | an unconfirmed appointment with a non-empty normalised name; `Reminders.OriginsComplete` states that exactly these appointments are taken |
| Reminders.Extract | appointment_reminders.py:56-68 | there are never more reminders than appointments |
| Reminders.Origins | appointment_reminders.py:59-67 | the recorded positions are positions of the input |
| Reminders.ExtractLength | appointment_reminders.py:59-67 | one reminder per wanted appointment |
| Reminders.ExtractAt | appointment_reminders.py:59-67 | the k-th reminder is made from the k-th wanted appointment |
| Reminders.OriginsIncreasing | appointment_reminders.py:59-67 | the wanted appointments are taken in input order |
| Reminders.OriginsComplete | appointment_reminders.py:60-63 | an appointment is taken exactly when its stripped confirmation is neither "Confirmada" nor "Cancelada" and its normalised patient name is not empty |
| Reminders.ExtractMembership | appointment_reminders.py:60-67 | a wanted appointment produces its reminder; a confirmed or cancelled appointment, or one without a patient name, produces none |
| Reminders.ExtractSound | appointment_reminders.py:60-67 | every reminder comes from a wanted appointment of the input |
| Reminders.TelephoneShape | appointment_reminders.py:62 | the telephone holds no space, is lower-case and has no whitespace at either end |
| Reminders.NameRoundTrip | appointment_reminders.py:61-65 | the title-cased name is not empty and lower-cases back to the normalised name |
| Config.DriveSources | config.py:20-26 | every source name is lower-case |
| Config.SourceName | config.py:24 | `key[:-len(ENV_SUFFIX)].lower()`; `Config.DriveSources` states that it is lower-case, `Config.BareSuffix` and `Config.CaseCollision` show the empty name and two prefixes that collide |
| Config.SourcesComplete | config.py:21-25 | every variable ending in the suffix contributes its source name |
| Config.SourcesSound | config.py:21-25 | every source comes from a variable ending in the suffix and holds that variable's value unchanged |
| Config.SourcesLastWins | config.py:24-25 | a source holds the value of the last variable with its name: prefixes that differ only in case collide, and the later one wins |
| Config.BareSuffix | config.py:22-24 | a variable named exactly like the suffix gives the empty source name |
| Config.CaseCollision | config.py:24-25 | "Fotos_…" then "FOTOS_…" give one source "fotos" holding the later value |
| Drive.IdEnd | gdrive.py:46 | the id ends within the URL, not before its start |
| Drive.MatchFrom | gdrive.py:46 | a match found is a position where `/folders/` is followed by an id character |
| Drive.IdEndShape | gdrive.py:46 | the id is a run of id characters that cannot be extended |
| Drive.MatchFromShape | gdrive.py:46 | the search finds the leftmost qualifying position, and none exactly when there is no such position |
| Drive.FolderId | gdrive.py:46-49 | `extract_folder_id_from_url`; `Drive.FolderIdNone` and `Drive.FolderIdShape` state its result |
| Drive.FolderIdNone | gdrive.py:46-49 | there is no folder id exactly when no `/folders/` is immediately followed by an id character |
| Drive.FolderIdShape | gdrive.py:46-48 | the id is non-empty, made of id characters, follows the leftmost qualifying `/folders/` in the URL, and is maximal |
| Drive.SharedLinkExample | gdrive.py:46-48 | the id of "d/folders/a-1?u" is "a-1" |
| Loader.HtmlSlice | database_utils.py:27-30 | an empty table raises `IndexError`; otherwise row 0 is the header and the data starts at row 2 |
| Loader.KeepColumnChars | database_utils.py:36 | the filtered name holds only alphanumeric characters and `_` |
| Loader.CleanColumn | database_utils.py:36 | the cleaned column name; `Loader.CleanColumnShape` and `Loader.CleanColumnIdempotent` state its result |
| Loader.CleanColumnShape | database_utils.py:36 | the final replacement of spaces changes nothing: a cleaned name is the filtered name and holds no space |
| Loader.KeepCleanName | database_utils.py:36 | filtering a clean name keeps all of it |
| Loader.IsAlnum | database_utils.py:36 | `str.isalnum()` on the Latin-1 range; `Loader.KeepColumnChars` and `Loader.KeepCleanName` state what the filter keeps |
| Loader.CleanColumnIdempotent | database_utils.py:36 | cleaning leaves a clean name alone, so cleaning twice is cleaning once |
| Loader.DropNan | database_utils.py:41 | dropping `nan` columns never adds names |
| Loader.DropNanMembership | database_utils.py:41 | exactly the names other than `nan` survive |
| Loader.DropNanNone | database_utils.py:41 | without a `nan` name every column is kept, in order |
| Loader.RenameCodigo | database_utils.py:46 | the rename leaves no `Código` and touches no other name |
| Loader.CleanedNames | database_utils.py:33-38 | each header name is cleaned, in order |
| Loader.RenameKeeps | database_utils.py:46 | renaming keeps every other name |
| Loader.ColumnNames | database_utils.py:33-46 | the final column names; `Loader.ColumnNamesClean`, `Loader.ColumnNamesKept` and `Loader.TratamientosRenamed` state them |
| Loader.ColumnNamesClean | database_utils.py:33-46 | every final name is clean and not `nan` |
| Loader.ColumnNamesKept | database_utils.py:33-46 | apart from `Código`, the final names are exactly the cleaned header names other than `nan` |
| Loader.TratamientosRenamed | database_utils.py:44-46 | in the HTML export of `tratamientos`, a leading `Código` column becomes `CódigoPaciente` |
| Loader.NameType | database_utils.py:67-72 | a column's name decides its type exactly when the name is `Código`, contains "Fecha" or contains a money word |
| Loader.IsMoneyName | database_utils.py:71 | the name holds "Importe", "Saldo", "Precio" or "Coste"; `Loader.NameType` and `Loader.ColumnTypePrecedence` state that such a column is REAL unless `Código` or "Fecha" decides first |
| Loader.ColumnType | database_utils.py:64-92 | a column's SQL type; `Loader.ColumnTypePrecedence` states the order of the rules |
| Loader.ColumnTypePrecedence | database_utils.py:64-92 | `Código` is INTEGER, then "Fecha" is DATETIME, then a money word is REAL, before any inferred type; otherwise the inferred type is kept |
| Loader.DateBeforeMoney | database_utils.py:69-72 | a name with both "Fecha" and a money word is a date column |
| Loader.Names | database_utils.py:64 | the column names, in order |
| Loader.ColumnDefs | database_utils.py:93-96 | one definition per column, in order, each with its own name |
| Loader.PrimaryKeyChoice | database_utils.py:57-95 | only a `Código` column is the primary key, and it is INTEGER; with distinct names there is exactly one primary key when `Código` is present and none otherwise |
| Loader.AsEuros | database_utils.py:136-137 | an integral amount is read as cents, a fractional one is kept |
| Loader.ConvertReal | database_utils.py:124-143 | the conversion of a REAL cell; `Loader.ConvertRealNull` and `Loader.ConvertRealReadBack` state its result |
| Loader.ConvertRealNull | database_utils.py:124-143 | `nan` in any case becomes NULL, text that is no number becomes NULL, and the conversion aborts exactly on text `float()` reads as an infinity: infinity text, or a number too large for a double such as "1e400" |
| Loader.ConvertRealReadBack | database_utils.py:131-141 | a stored amount reads back as the number with its decimal comma replaced, cents rule applied, rounded to cents |
| Loader.Round2WholeCents | database_utils.py:141 | rounding to cents keeps an amount already in whole cents |
| Loader.IntegralIsCents | database_utils.py:136-141 | text that reads as the integer `c` is stored as `c/100` |
| Loader.ConvertDate | database_utils.py:315-331 | the conversion of a DATETIME cell; `Loader.FirstFormatWins` and `Loader.FallbackWhenNoFormat` state its result |
| Loader.FirstFormat | database_utils.py:315-324 | a format found is one that accepts the text |
| Loader.FirstFormatWins | database_utils.py:315-324 | the first format that accepts the text decides the date |
| Loader.FirstFormatFrom | database_utils.py:317-324 | the search returns the first accepting format at or after its start |
| Loader.NoFormatFrom | database_utils.py:317-324 | the search finds nothing when no later format accepts the text |
| Loader.FallbackWhenNoFormat | database_utils.py:325-331 | when no explicit format accepts the text, the fallback parser decides |

## Left out

- Scraping, browsers, the Cliniwin and Doctoralia parsers, file cleanup, SQLite reads and writes, the FastAPI routes, the Streamlit pages and the Drive API calls: these are I/O. The database query of `perform_commission_calculation` is the parameter `fetch`.
- `datetime.now().year` in `perform_commission_calculation` is the parameter `year`.
- `difflib.SequenceMatcher.ratio()` is the parameter `sim`. Only the cutoff, the count and the ranking of `get_close_matches` are modelled.
- `strptime`/`strftime` are parameters: `MonthParser`, `DateParser`, and the `strptime` and `coerce` arguments of `Loader.ConvertDate`. The same goes for pandas' fallback date parser.
- Pandas dtype inference (database_utils.py:73-90, 230-250) is the parameter `inferred` of `Loader.ColumnType`.
- INTEGER and TEXT value conversion (`int(value)`, `str(value)` of pandas values) is not modelled.
- A non-text header cell is not modelled. For example, `str()` of an empty header cell gives "nan". Headers are text.
- Binary floating point is not modelled. Money is an exact `real`. Python's `round(x, 2)` is round-half-even on the exact value, and `"{:.2f}"` is exact rounding to cents.
- Python's `float()` on text is modelled for surrounding whitespace, an optional sign, ASCII digits, a point and an exponent. Digit-group underscores and the other Unicode decimal digits, which Python also reads, are not modelled.
- Payments.ParseNumber: `inf`, `infinity` and `nan` are not exact reals, so `Decimal.ReadFloat` rejects them and such text reads as 0.0, where Python yields an infinity or a NaN.
- Criteria.StrictNumber: the same text is a `ValueError` in the model, where Python yields an infinity or a NaN.
- Commissions.FloatCell: the same text does not read in the model, where Python yields an infinity or a NaN.
- Case mapping is modelled for ASCII and Latin-1 only, and one character maps to one character. Python upper-cases `ß` to "SS" (title case "Ss") and `µ` to the Greek capital `Μ`; the model leaves both unchanged, so `title()` and `capitalize()` of a word starting with either differ from Python's, and can be longer in Python. `ª`, `µ`, `º` and `ß` count as cased letters for `title()`, as in Python.
- Reminders.NameRoundTrip, Text.Title, Text.Capitalize: these hold for the modelled case mapping only. In Python a name starting with `ß` title-cases to "Ss…", which is longer and lower-cases to "ss…", not back to the name.
- The iteration order of the Python set of dates in `perform_appointment_checks` is the parameter `order`. It is required to list each date once.
- The alert message strings are not modelled, only the alert's kind, its suggestions or doctor name, and the appointment it is about.
- The report's `format_number` strings are kept as the numbers they format. `Payments.ParseFormatNumber` relates the two.
- Dict aliasing is not modelled: `merge_entries` updates the first row of a group in place, and the model returns a new row.
- The try/except wrappers (`perform_calculate_commissions`, `perform_appointment_reminders`), logging, `print`, module-level example data and the import-time call at calculate_commissions.py:260 are not modelled.
- Criteria.FoldRows, Criteria.FoldOrder, Criteria.FoldKeys, Criteria.MergeByCriteriaRows: stated for rows that all carry the five key columns. A row missing a key column raises `KeyError`, and the model keeps that error path without describing where it fires.
- Commissions.PerformCommissionCalculation: states only the month check. The rest is `perform_calculation` on the fetched rows, and its lemmas apply.
- Reminders.Field: the rows come from the SQLite table `citas` (appointment_reminders.py:19-25), where a cell can be `None` or a number. Only text cells are modelled, so a row is a `map<string, string>`. A `None` or numeric cell, for which `.strip()` raises `AttributeError` (for example an INTEGER `telefono` column at appointment_reminders.py:62), is not modelled.
- Loader.ConvertReal: a number cell is an exact real, so an infinite number cell is not modelled; in Python it raises the same `OverflowError` that aborts the load on text read as an infinity.
- Loader.KeepColumnChars: `isalnum()` is decided exactly for Latin-1 only. Letters and digits of other scripts (for example `Ł`, Greek, Cyrillic, Arabic-Indic digits), which Python keeps, are dropped, so `Loader.ColumnNames` differs for a header holding them.

## Findings

| source | as written | input that shows it | evidently intended | confidence | as-written member | corrected member |
|---|---|---|---|---|---|---|
| commissions3.py:143 | the leftover row of an odd group formats `max(entry["Realizado"], entry["Cobrado"])` with `"{:.2f}"`, but the raw cells are text | a group of one row with `Realizado` "0,00" and `Cobrado` "70,00": `"{:.2f}".format("70,00")` raises `ValueError` | the larger of the two amounts read by `parse_number`, as for a merged pair: a gross of 70 | not executed | Payments.SingletonAsWritten | Payments.SingletonCorrected |
| commissions3.py:65,82-84,92 | the lab cost cell is used raw in arithmetic, and its number is then passed to `parse_number`, which calls `.replace` | a dentistry payment of 100 with a numeric `Costelab` of 30: `parse_number(30.0)` raises `AttributeError` | the lab cost read as a number and subtracted: a commission of 35% of 70, which is 24.5 | not executed | Commissions.LabCostExampleAsWritten | Commissions.LabCostExampleCorrected |
| commissions3.py:247-248 | `merge_entries` takes `max` of the raw amount cells, which compares text lexicographically | two rows of one key with amounts "9,00" and "10,00": "9,00" is kept and the gross is 9 | the larger amount by value: "10,00" and a gross of 10 | not executed | MergeEntries.MergeNineTenAsWritten | MergeEntries.MergeNineTenByValue |
