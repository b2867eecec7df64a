# Patient risk scorer — a Dafny model

This project models the risk scorer of a small healthcare front-end
(`src/algorithm.ts`). The scorer takes a loosely typed patient record and
computes three sub-scores:

- blood pressure, read from a `"systolic/diastolic"` string, 0..3;
- temperature, 0..2;
- age, 0..2.

Each evaluation may throw. A throw is caught, the sub-score counts as 0, and
a single shared error code is overwritten with the text of the error
(`"Error: is_invalid"` and so on). The result holds the record's
`patient_id`, a high-risk flag (total ≥ 4), a fever flag (checked
temperature ≥ 99.6) and the error code left by the **last** failure. The
exported entry point rejects a null record.

Modules:

- `Wrappers` (`wrappers.dfy`): `Option` and `Result`. A JavaScript throw
  becomes a `Failure`, and `undefined`/`NaN` become `None`.
- `JsText` (`js_text.dfy`): the two built-ins the parser calls,
  `split('/')` (`Split`, `SplitPart`, with `Join` as its inverse) and
  decimal `parseInt` (`ParseInt`, with `Render` for proving it reads back).
- `Algorithm` (`algorithm.dfy`): the record (`Field`, `Patient`,
  `Assessment`, `ErrorKind`), the helpers `IsValidNumber`,
  `TemperatureRisk`, `AgeRisk` and `BloodPressureRisk` as functions
  returning `Result`, their threshold tables, and the two `checkRiskScore`
  functions as methods. The inner one keeps the source's locals `tr`,
  `bpr`, `ar` and `errorCode` and reassigns them step by step. It is proved
  against the predicate `Assesses`, which uses the left fold
  `ErrorCodeAfter` over the evaluation order.
- `RiskProperties` (`risk_properties.dfy`): lemmas about the tables, the
  parser, the error precedence and the two flags.

A record field is `Missing` (null or undefined), `Num(real)` or
`Str(string)`. Temperatures and ages are exact reals, so the thresholds
99.5, 99.6 and 100.9 mean what they say. The `??` defaults of the inner
`checkRiskScore` are made explicit (`OrElse`):

- a missing temperature or age becomes `Num(0)`;
- a missing blood pressure becomes `Str("")`.

Where the prose description and the code differ, the model follows the
code:

- The blood-pressure table uses its literal, first-match AND rows. The
  comment at `src/algorithm.ts:7-13` documents a "higher stage wins" rule;
  it appears only as `RiskProperties.DocumentedStage`, together with lemmas
  that say where the two agree and where they do not (120/80 scores 0, not
  2; 135/70 scores 3, not 2).
- A systolic or diastolic part that does not parse gives
  `missing_systolic` or `missing_diastolic`, not `is_invalid`.
- Temperatures strictly between 99.5 and 99.6, or between 100.9 and 101,
  match no row and keep the initial 0. Fever is tested on the temperature
  itself, so 100.95 has fever with a sub-score of 0.

## Model

| member | source | states |
|---|---|---|
| `Algorithm.ErrorText` | src/algorithm.ts:119-131 | the stored code is `"Error: "` followed by the error's message |
| `Algorithm.IsValidNumber` | src/algorithm.ts:106-110 | a non-number fails with `is_not_number`, a number below 1 with `is_invalid`, anything else passes; exactly these three cases |
| `Algorithm.TemperatureTier` | src/algorithm.ts:65-74 | the score is at most 2; it is 2 exactly from 101, 1 exactly on 99.6..100.9, and 0 otherwise |
| `Algorithm.TemperatureRisk` | src/algorithm.ts:62-77 | succeeds exactly on numbers ≥ 1, returning the temperature unchanged with its tier; otherwise yields `isValidNumber`'s error |
| `Algorithm.AgeTier` | src/algorithm.ts:92-101 | the score is at most 2: 0 exactly under 40, 2 exactly over 65, 1 between |
| `Algorithm.AgeRisk` | src/algorithm.ts:89-104 | succeeds exactly on numbers ≥ 1 with the age's tier; otherwise yields `isValidNumber`'s error |
| `Algorithm.BloodPressureTable` | src/algorithm.ts:31-47 | first match: 0 exactly when systolic ≤ 120 and diastolic ≤ 80; 1 exactly for 121..129 over diastolic < 80 (120 goes to row one); 2 exactly for 130..139 over 80..89; otherwise 3 |
| `Algorithm.BloodPressureRisk` | src/algorithm.ts:21-49 | empty, absent or non-string is `is_invalid`; then an unparsable first part is `missing_systolic`, before an unparsable second part gives `missing_diastolic`; otherwise the table's score of the two parsed parts, in 0..3; never `is_not_number` |
| `Algorithm.TotalScore` | src/algorithm.ts:134 | the sum of the three contributions, failures counting 0, is at most 7 |
| `Algorithm.CheckRiskScoreInner` | src/algorithm.ts:112-141 | the id is copied; high risk iff total ≥ 4; fever iff the temperature validated and is ≥ 99.6; the error code is the fold of last-error-wins over temperature, blood pressure, age |
| `Algorithm.CheckRiskScore` | src/algorithm.ts:143-150 | a null record fails with "Please provide a valid data object", and only a null record does; any other record is assessed as above |
| `JsText.Split` | src/algorithm.ts:24-25 | `split('/')` always returns at least one part |
| `JsText.SplitPart` | src/algorithm.ts:24-25 | part `i` exists exactly when there are more than `i` parts (otherwise `undefined`), and holds no '/' |
| `JsText.JoinSplit` | src/algorithm.ts:24-25 | joining the parts with '/' gives back the string |
| `JsText.SplitNoSlashInParts` | src/algorithm.ts:24-25 | no part contains '/' |
| `JsText.SplitWithoutSlash` | src/algorithm.ts:24-25 | a string without '/' is its only part |
| `JsText.SplitAtSlash` | src/algorithm.ts:24-25 | the parts of `a + "/" + b` are the parts of `a` followed by the parts of `b` |
| `JsText.SplitSlashTwoParts` | src/algorithm.ts:24-25 | a string containing '/' has a second part |
| `JsText.SplitHeadOfConcat` | src/algorithm.ts:24-25 | the first part of `d + rest`, for `d` without '/', is `d` followed by the first part of `rest` |
| `JsText.SplitHeadIsPrefix` | src/algorithm.ts:24-25 | the first part is a prefix of the string |
| `JsText.ParseInt` | src/algorithm.ts:24-25 | NaN exactly when no digit follows the leading white space and optional sign; a negative result needs a leading '-' |
| `JsText.DigitsValueRenderNat` | src/algorithm.ts:24-25 | reading the decimal digits of `n` gives `n` |
| `JsText.DigitPrefixOfDigits` | src/algorithm.ts:24-25 | the digit run read by `parseInt` stops at the first non-digit |
| `JsText.SkipWhitespaceOf` | src/algorithm.ts:24-25 | all leading white space is skipped, and nothing after it |
| `JsText.ParseIntSkipsWhitespace` | src/algorithm.ts:24-25 | leading white space does not change the parsed value |
| `JsText.ParseIntDigits` | src/algorithm.ts:24-25 | a digit run parses as its value (leading zeros allowed), whatever non-digit follows |
| `JsText.ParseIntSignedDigits` | src/algorithm.ts:24-25 | a '+' or '-' before a digit run gives the value or its negation |
| `JsText.ParseIntRender` | src/algorithm.ts:24-25 | `parseInt` reads back any decimal-written integer, ignoring a suffix that does not start with a digit |
| `JsText.ParseIntEmpty` | src/algorithm.ts:24-25 | the empty string (as in "/90" and "150/") parses as NaN |
| `RiskProperties.BloodPressureTableDefault` | src/algorithm.ts:44-46 | any pair missed by the first three rows scores 3, even one that is not Stage 2 |
| `RiskProperties.DocumentedStage` | src/algorithm.ts:7-13 | the documented rule takes the higher of the two readings' stages, in 0..3 |
| `RiskProperties.TableAgreesOnStageTwo` | src/algorithm.ts:41-46 | a documented Stage 2 pair, on either reading, scores 3 in the table |
| `RiskProperties.TableNeverBelowDocumentedStage` | src/algorithm.ts:31-47 | away from the 120/80 boundary of row one, the table never scores below the documented rule, and it scores above it exactly when it falls to the default 3 |
| `RiskProperties.BloodPressureTableExamples` | src/algorithm.ts:31-47 | 120/80 scores 0 where the documented rule gives 2; 135/70 scores 3 where it gives 2; 100/95 and 150/95 score 3 |
| `RiskProperties.BloodPressureEmptyIsInvalid` | src/algorithm.ts:22 | a missing, empty or numeric blood pressure is `is_invalid` |
| `RiskProperties.PartsOfNumbers` | src/algorithm.ts:24-25 | in "sys/dia…" the first part is sys and the second starts with dia |
| `RiskProperties.BloodPressureOfNumbers` | src/algorithm.ts:24-48 | a decimal "sys/dia" string, with anything after dia that does not start with a digit, scores the table's value of (sys, dia) |
| `RiskProperties.SystolicCheckedFirst` | src/algorithm.ts:28-29 | a string that starts with '/' is `missing_systolic`, whatever follows |
| `RiskProperties.DiastolicMissingWithoutSlash` | src/algorithm.ts:25-29 | a number with no '/' is `missing_diastolic` |
| `RiskProperties.DiastolicMissingAfterSlash` | src/algorithm.ts:25-29 | a number followed by a lone '/' is `missing_diastolic` |
| `RiskProperties.BloodPressureReadsTwoParts` | src/algorithm.ts:24-25 | once there is a '/', anything appended after a further '/' does not change the result |
| `RiskProperties.BloodPressureStageTwoExample` | src/algorithm.ts:41-43 | "150/95" scores 3 |
| `RiskProperties.BloodPressureFirstRowExample` | src/algorithm.ts:32-34 | "120/80" scores 0: row one wins over row two |
| `RiskProperties.BloodPressureDefaultExample` | src/algorithm.ts:44-46 | "135/70" scores 3 |
| `RiskProperties.BloodPressureMissingExamples` | src/algorithm.ts:28-29 | "/90" and "/" are `missing_systolic`; "150/" and "150" are `missing_diastolic` |
| `RiskProperties.NumberFieldErrors` | src/algorithm.ts:106-129 | a missing temperature or age defaults to 0 and is `is_invalid`; a string one is `is_not_number` |
| `RiskProperties.TemperatureGapsScoreZero` | src/algorithm.ts:65-74 | temperatures strictly between 99.5 and 99.6, or between 100.9 and 101, score 0 |
| `RiskProperties.TemperatureTierNotMonotone` | src/algorithm.ts:69-74 | 100.9 scores 1 but 100.95 scores 0 |
| `RiskProperties.AgeTierMonotone` | src/algorithm.ts:92-101 | the age score never drops as the age grows |
| `RiskProperties.ErrorCodeAfterNoFailure` | src/algorithm.ts:116-132 | with no failure the error code keeps its initial value |
| `RiskProperties.ErrorCodeAfterLastFailure` | src/algorithm.ts:116-132 | otherwise the error code is the text of the last failure |
| `RiskProperties.ErrorTextInjective` | src/algorithm.ts:121-131 | different errors leave different codes |
| `RiskProperties.ErrorCodeEmptyIffAllSucceed` | src/algorithm.ts:116-132 | the error code is empty exactly when all three evaluations succeed |
| `RiskProperties.ErrorCodeIsLastFailure` | src/algorithm.ts:117-132 | a failing age decides the code; otherwise a failing blood pressure; otherwise a failing temperature |
| `RiskProperties.InvalidTemperatureAndAgeReportAge` | src/algorithm.ts:118-131 | a non-numeric temperature together with age 0 reports the age's `"Error: is_invalid"`, and there is no fever |
| `RiskProperties.HighRiskNeedsTwoEvaluations` | src/algorithm.ts:134-137 | a high risk score needs at least two successful evaluations |
| `RiskProperties.FeverIffTemperatureReading` | src/algorithm.ts:117-138 | fever holds exactly when the raw temperature is a number ≥ 99.6; a failed temperature never has fever; a positive temperature score implies fever |
| `RiskProperties.FeverWithZeroSubScore` | src/algorithm.ts:69-76 | a temperature of 100.95 has fever and a temperature score of 0 |
| `RiskProperties.ValidRecordScore` | src/algorithm.ts:112-141 | a fully valid record has an empty error code, a total equal to the sum of the three tables, high risk iff that sum ≥ 4, and fever iff the temperature is ≥ 99.6 |

## Left out

- `src/api.ts` (the HTTP client setup and its pass-through interceptors), `src/main.ts` (application start-up) and `src/dataObjects/IPatientResponse.ts` (a type with no behaviour) are not part of this model. They hold no scoring logic.
- JavaScript numbers are modelled as exact reals. NaN (which lodash counts as a number, so it would pass validation and score 0) and Infinity are not modelled.
- `JsText.ParseInt`: it does not model the `0x` hexadecimal prefix, Unicode white space (only ASCII space, tab, LF, VT, FF and CR are skipped), or the loss of precision on very long digit strings. `-0` is read as 0.
- A record field is absent, a number or a string. Booleans, arrays and objects are not modelled; a non-string blood pressure counts as empty, which is what lodash `isEmpty` reports for numbers.
- A `patient` that is `undefined` rather than null fails with a TypeError while the result object is built. The model only covers the null case, as `Option.None`.
- `Algorithm.CheckRiskScore`: the thrown error is modelled as a `Failure` carrying the error's message text.
- `Algorithm.IsValidNumber`: on success it returns the checked number rather than `true`, so that the callers use it in the same way the source does.
