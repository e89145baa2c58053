# saju-form intake backend — a Dafny model

The backend of saju-form is a Google Apps Script web app (`app.js`). It keeps
customer submissions in a spreadsheet named `responses`. It asks a language
model for a "saju" (four pillars) lifestyle reading of each submission, and
it answers the polling client with the stored result.

This project models the core of that script:

- **Intake** (`doPost`, lines 50–70). Form parameters are trimmed. The
  `user_agent` parameter is cut to 200 characters. `solar`/`lunar`,
  `male`/`female` and `github_pages` are relabelled in Korean. A missing
  source becomes `기타`. A submission with a blank name, phone, birthdate,
  calendar type or gender is refused with `missing_required_fields`.
- **Header maintenance** (`getSheet_`, `ensureExtraHeaders_`). An empty sheet
  gets the 18-column header. Otherwise, the extra headers that the first row
  lacks are appended after the last used column, in their fixed order.
- **The record's state machine** (`doPost` lines 72–87, `runAiForRow_`,
  `writeAiError_`). The new row is appended with status `PENDING`. It is
  re-marked `PENDING` and the request is sent. On an answer, the six parsed
  sections, `DONE` and the time are written. When anything raises (a missing
  column, a failed request), `ERROR`, the time and `AI 처리 중 오류: <message>`
  are written instead.
- **The reply parser** (`parseAiSections_`). The JavaScript regular expression
  `\[label\]\s*([\s\S]*?)(?=\s*\[[^\]]+\]|$)` is defined directly:
  - the first tag is found;
  - the whitespace after it is skipped;
  - the capture ends at the least position where the lookahead succeeds;
  - the result is then trimmed.
- **The request text** (`buildSajuPrompt_`). This covers the six
  placeholders and the six-section layout the reply is asked to follow.
- **Result lookup** (`doGet`). `getResult` requires a non-blank trimmed phone
  and birthdate. It prepares the sheet, then scans from the last row up to
  row 2. The first row whose trimmed phone and normalised birthdate match
  decides the answer: `DONE` with the six fields, `ERROR`, or `PENDING`. No
  match also answers `PENDING`. Any other action answers the health check.

The spreadsheet is a sequence of rows of strings (row `r`, column `c` are
1-based), held by the class `Spreadsheet.Sheet`. Its methods (`appendRow`,
`getRange(..).getValue/setValue/setValues`, the header read) change or read
that state. A read or write whose column is 0 (`indexOf` gave −1) is the Apps
Script range exception. It is modelled as a failure with a fixed message.

The language-model call is a `Jobs.Oracle`. This is an object holding a fixed
function from request text to `Answer(text)` or `Fault(message)`, plus a
ghost log of the requests sent. The model thus states exactly which requests
each operation sends.

Each imperative operation is a method proved against a specification function:
- `RunAiForRow` against `RunSpec`;
- `DoPost` against `Post`;
- `DoGet` against `Get`;
- the lookup loop `Search` against `NewestMatch`.

The properties are lemmas about those functions. The main end-to-end property
is `Lifecycle.SubmissionFound`: after an accepted submission on a sheet with
the standard header, exactly one request was sent. It was built from the
stored fields. Querying with the same phone and birthdate then answers `DONE`
with the parsed reply, or `ERROR` when the call failed. Two conditions apply:
- The birthdate must have no `T` or at most 10 characters. `doGet` cuts a
  stored birthdate holding a `T` to 10 characters, so a longer one is never
  found again.
- Cells are read back as the text written. The phone is stored without the
  apostrophe the birthdate gets. If the sheet turns a phone such as
  `01012345678` into a number, the leading 0 is lost and the query would not
  find the row. The model does not capture this, and it is not confirmed.

## Model

| member | source | states |
|---|---|---|
| `Text.Trim` | app.js:50-59 | `String.prototype.trim`: the result starts and ends with no whitespace and is no longer than the input |
| `Text.TrimUnique` | app.js:50-59 | trimming whitespace + content + whitespace gives the content when the content is itself trimmed |
| `Text.TrimOfSlice` | app.js:280-284 | the trim of a slice is a slice of the same text lying inside it |
| `Text.TrimIdempotent` | app.js:50-59 | trimming twice is trimming once |
| `Text.TrimOfTrimmed` | app.js:50-59 | trim leaves a trimmed string unchanged |
| `Text.Prefix` | app.js:55 | `substring(0, n)`: the first n characters, all of a shorter string, exactly n of a longer one |
| `Text.StripApostrophe` | app.js:123 | `replace(/^'/, "")`: removes exactly one leading apostrophe, and leaves the text unchanged exactly when it does not start with one |
| `SectionParser.FindTag` | app.js:280-281 | a found index holds the tag `[label]` |
| `SectionParser.FindTagFirst` | app.js:280-281 | the found index is the first occurrence of the tag; finding nothing means the tag does not occur |
| `SectionParser.Capture` | app.js:281 | when the tag of the label does not occur, the match fails and the captured group is "" |
| `SectionParser.CaptureSpec` | app.js:280 | after the first tag, the capture starts past all the whitespace that follows it and ends at the least position where the lookahead (a header after optional whitespace, or the end) succeeds |
| `SectionParser.SectionEnd` | app.js:280 | the lazy capture ends inside the text, at or after its start |
| `SectionParser.SectionEndLeast` | app.js:280 | the end is a position where the lookahead `\s*\[[^\]]+\]` or `$` succeeds, and no earlier position from the start is one |
| `SectionParser.Extract` | app.js:278-288 | the extracted value of one label is trimmed (blank captures give "") |
| `SectionParser.ParseAiSections` | app.js:275-298 | all six fields of the parsed reply are trimmed |
| `SectionParser.ExtractAbsent` | app.js:281-287 | a label whose tag does not occur yields "" |
| `SectionParser.ExtractSection` | app.js:280-284 | a tag followed by a body without '[' and then a header or the end yields the trimmed body |
| `SectionParser.ExtractBlank` | app.js:282-287 | a tag followed only by whitespace before the next header yields "" |
| `SectionParser.ExtractAt` | app.js:280-284 | with the first tag at i and the next header at n1, the value is the trimmed text between them |
| `SectionParser.CaptureSlice` | app.js:280 | the capture is a slice of the text with no lookahead position strictly inside it |
| `SectionParser.ExtractHasNoHeader` | app.js:280-284 | an extracted value never contains a bracketed header, so sections never run into each other |
| `SectionParser.ExtractIdempotent` | app.js:278-288 | re-parsing `[label]` followed by the extracted value gives that value back |
| `SectionParser.ExtractDocument` | app.js:278-288 | for a preamble holding no tag of the label, followed by well-formed sections, the value of the label is the trimmed body of its first section, else "" |
| `SectionParser.ParseDocument` | app.js:275-298 | parsing a rendered document after a preamble holding no tag of the six labels gives, field by field, the reference meaning `Expected` of each label |
| `SectionParser.BracketFreePreamble` | app.js:280 | a preamble without '[' holds no tag of any of the six labels |
| `SectionParser.ExpectedDistinct` | app.js:290-297 | in a document with distinct labels, each label means its own trimmed body |
| `SectionParser.TwoSectionExample` | app.js:275-298 | a reply with only `[사주요약]` and `[건강주의]` parses to those two bodies and four empty fields |
| `Intake.Param` | app.js:47-59 | an absent parameter reads as "" (the `or ""` default of each read) |
| `Intake.CalendarLabel` | app.js:61-62 | `solar` becomes 양력, `lunar` becomes 음력, anything else is kept |
| `Intake.GenderLabel` | app.js:63-64 | `male` becomes 남성, `female` becomes 여성, anything else is kept |
| `Intake.SourceLabel` | app.js:65-66 | `github_pages` becomes 홈페이지, empty becomes 기타, anything else is kept |
| `Intake.NormalizeIntake` | app.js:50-70 | a refusal always carries `missing_required_fields` |
| `Intake.RejectsExactlyBlankRequired` | app.js:68-70 | refused if and only if the trimmed name, phone, birthdate, calendar type or gender is empty |
| `Intake.AcceptedFields` | app.js:50-66 | each accepted field is the trimmed parameter, the three coded ones after relabelling |
| `Intake.AcceptedTrimmed` | app.js:50-70 | an accepted submission has non-empty required fields and every field trimmed |
| `Intake.AcceptedUserAgent` | app.js:55 | the user agent is the untrimmed parameter cut to its first 200 characters |
| `Intake.LabelsKeepEmptiness` | app.js:61-66 | relabelling keeps a calendar type or gender empty exactly when it was empty; a source is never empty |
| `Intake.CodedFormExample` | app.js:50-70 | the coded values of the web form are accepted and relabelled, missing optional fields become "" |
| `Prompt.BirthdateText` | app.js:195-197 | the trimmed value without its first character when it starts with an apostrophe, otherwise the trimmed value |
| `Prompt.BirthtimeText` | app.js:198-207 | the trimmed birth time when it is not blank, `(미입력)` when it is |
| `Prompt.MemoText` | app.js:210 | the memo when it is not empty, `(없음)` when it is |
| `Prompt.CustomerBlock` | app.js:204-210 | the customer lines hold no '[' when none of the six values does |
| `Prompt.TrimKeeps` | app.js:195-198 | trimming the birthdate or birth time and removing the apostrophe bring in no '[' |
| `Prompt.LinesBracketFree` | app.js:205-210 | the six customer lines are free of '[' when their values are |
| `PromptText.FixedTextsBracketFree` | app.js:199-212 | the opening sentences and the sentence introducing the layout hold no '[' |
| `PromptText.InstructionsBracketFree` | app.js:214-236 | none of the six section instructions holds '[' |
| `Prompt.CustomerHeadingDistinct` | app.js:204 | the `[고객 입력]` heading is bracket-free inside and is none of the six labels |
| `Prompt.NoTagAroundHeading` | app.js:199-212 | text free of '[' around one bracketed heading holds no tag of another label |
| `Prompt.PreambleHoldsNoLabel` | app.js:199-212 | the part of the request before the layout holds no tag of the six labels |
| `Prompt.PromptLayoutParses` | app.js:199-236 | for values without '[', the request text itself parses into the six instructions, trimmed: it asks for exactly the labels the parser reads, and its customer heading is none of them |
| `Prompt.StoredBirthdateShown` | app.js:194-197 | the stored `'`+birthdate is shown as the birthdate itself |
| `Prompt.InLayout` | app.js:212-236 | the requested layout is the six labels in order, each with its body |
| `Prompt.LayoutLabelsDistinct` | app.js:212-236 | the six requested labels are non-empty, bracket-free and distinct |
| `Prompt.LayoutAfterPreamble` | app.js:212-236 | the layout with bodies free of '[', after a preamble holding no tag of the six labels, parses into the six trimmed bodies |
| `Prompt.LayoutReplyParses` | app.js:212-236 | a reply written in the requested layout parses back to the six trimmed bodies |
| `Table.Col` | app.js:112 | `indexOf(name) + 1`: 0 exactly when absent, otherwise the first column holding the name |
| `Table.Used` | app.js:35 | a row's used width: its last cell with content, nothing after it |
| `Table.WidthCovers` | app.js:35 | `getLastColumn()`: no row has content beyond that column |
| `Table.WidthAttained` | app.js:35 | a non-zero last column holds content in some row |
| `Table.HeaderOf` | app.js:35 | the first row read up to the last column with content: that many cells, each the stored header cell or "" past its end |
| `Table.HeaderOfShows` | app.js:35 | the header read shows the same cells as the stored first row |
| `Table.SetCell` | app.js:172 | `setValue`: the cell holds the new value, every other cell and row is unchanged |
| `Table.SetCells` | app.js:38 | `setValues` on one row: the cells from the start column hold the values, nothing else changes |
| `Table.Absent` | app.js:36 | `missing` is no longer than the list of extra headers |
| `Table.AbsentMembers` | app.js:36 | `missing` holds exactly the extra headers not in the header row |
| `Table.AbsentSubsequence` | app.js:36 | `filter` keeps the missing names in their fixed order |
| `Table.AbsentOfHeader` | app.js:35-36 | checking the names against the header read or against the stored first row gives the same `missing` |
| `Table.HeaderRepair` | app.js:34-40 | only the header row may change |
| `Table.AddMissing` | app.js:37-38 | writing the missing names touches only the first row |
| `Table.Prepared` | app.js:18-32 | an empty sheet becomes the full 18-column header; any other is header-repaired |
| `Table.HeaderRepairSpec` | app.js:34-40 | afterwards every extra header is present; the names written are the extra headers the old first row lacked, in their fixed order |
| `Table.HeaderRepairShows` | app.js:34-40 | the new first row shows the old one when nothing is missing, otherwise the header read followed by the missing names |
| `Table.AddMissingWrites` | app.js:37-39 | the cells up to the last column keep their content, and the missing names stand from the column after the last column on |
| `Table.AddMissingHolds` | app.js:34-40 | after the repair every name looked for is in the first row |
| `Table.AddNothing` | app.js:37 | when nothing is missing the sheet is left as it is |
| `Table.HeaderRepairIdempotent` | app.js:34-40 | repairing a repaired sheet changes nothing |
| `Table.HeaderRepairKeepsColumns` | app.js:34-40 | a name already in the header keeps its column |
| `Table.AddMissingKeepsColumns` | app.js:37-38 | appending the missing names after the last column keeps the column of every name already present |
| `Table.FullHeaderDistinct` | app.js:23-27 | the 18 header names are distinct |
| `Table.FullHeaderColumn` | app.js:23-27 | in the full header the i-th name is found at column i + 1 |
| `Table.PreparedHasExtraHeaders` | app.js:18-40 | a prepared sheet's header holds every extra header |
| `Table.FullHeaderHasExtraHeaders` | app.js:23-27 | the full header holds every extra header |
| `Spreadsheet.Sheet.constructor` | app.js:19-21 | the sheet holds the given rows |
| `Spreadsheet.Sheet.LastRow` | app.js:79 | `getLastRow()`: no row after it holds content |
| `Spreadsheet.Sheet.LastColumn` | app.js:35 | `getLastColumn()`: no cell beyond it holds content, and a non-zero last column holds content in some row |
| `Spreadsheet.Sheet.AppendRow` | app.js:73-77 | `appendRow` adds the row after the last one |
| `Spreadsheet.Sheet.HeaderValues` | app.js:111 | the header read is `HeaderOf` the rows |
| `Spreadsheet.Sheet.GetValue` | app.js:116-117 | column 0 raises the range exception; otherwise the cell's value ("" outside the data) |
| `Spreadsheet.Sheet.SetValue` | app.js:172 | the rows become `SetCell` of the old rows |
| `Spreadsheet.Sheet.SetValues` | app.js:38 | the rows become `SetCells` of the old rows |
| `SheetSetup.EnsureExtraHeaders` | app.js:34-40 | the rows become `HeaderRepair` of the old rows |
| `SheetSetup.GetSheet` | app.js:18-32 | the rows become `Prepared` of the old rows, whose header holds every extra header |
| `Jobs.Oracle.constructor` | app.js:242-270 | the oracle answers with the given function and has sent nothing |
| `Jobs.Oracle.Call` | app.js:175 | the reply is the oracle's answer to the request, and the request is logged |
| `Jobs.NewRow` | app.js:73-77 | the appended row has one cell per header |
| `Lifecycle.NewRowCells` | app.js:73-77 | all 18 cells of the appended row: the creation time, the source, name, phone, `'`+birthdate, birth time, calendar type, gender, memo, the user agent, `PENDING` in column 11 and nothing from column 12 on |
| `Lifecycle.StandardExtraColumns` | app.js:23-27 | in the standard header the eight extra headers stand in columns 11 to 18, the status header first |
| `Lifecycle.NewRowUnderHeaders` | app.js:73-77 | in the standard layout the new row holds `PENDING` under the status header and "" under each of the seven other extra headers |
| `Jobs.ReadInput` | app.js:162-170 | reading the six inputs succeeds exactly when all six headers are present, otherwise it raises the range exception |
| `Jobs.WithResults` | app.js:178-186 | writing the results touches only the given row |
| `Jobs.ResultsWritten` | app.js:178-186 | the six sections, `DONE` and the time are in their columns; every non-extra column of the row is unchanged |
| `Jobs.WithError` | app.js:303-309 | writing the error touches only the given row |
| `Jobs.ErrorWritten` | app.js:303-309 | `ERROR`, the time and `AI 처리 중 오류: `+message are in their columns; every other cell of the row is unchanged |
| `Jobs.Analysed` | app.js:172-186 | the analysis touches only the given row |
| `Jobs.RunSpec` | app.js:161-189 | `runAiForRow_` touches only the given row |
| `Jobs.Requested` | app.js:161-175 | at most one request is sent, and none exactly when reading the inputs raises |
| `Jobs.Appended` | app.js:72-77 | the prepared sheet plus the new row, whose header holds every extra header |
| `Jobs.Settle` | app.js:81-85 | processing the new last row leaves every earlier row unchanged |
| `Jobs.Post` | app.js:45-92 | a refusal leaves the sheet unchanged; an acceptance reports the new last row and keeps every prepared row before it |
| `Jobs.Requests` | app.js:68-82 | doPost sends at most one request, and none for a refused submission |
| `Jobs.ExtraColumnList` | app.js:163 | each extra header is found at its column |
| `Jobs.ExtraColumnsDistinct` | app.js:178-186 | the eight extra headers sit in eight different columns, so the writes do not overwrite each other |
| `Jobs.ExtraColumnsPresent` | app.js:172-186 | with the extra headers present, every status and result column is at least 1 |
| `Jobs.ExtraHeadersDistinct` | app.js:8-11 | the eight extra headers are distinct |
| `Jobs.ColsOfHeader` | app.js:112 | padding the header with "" does not move any named column |
| `Jobs.HeaderReadHasExtraHeaders` | app.js:162 | the header read holds every extra header the stored first row holds |
| `Jobs.PostRejectsExactlyBlank` | app.js:68-70 | doPost refuses if and only if a required field is blank; a refusal leaves the sheet unchanged and sends nothing |
| `Jobs.SettleStatus` | app.js:81-85 | after doPost the new record is `DONE` or `ERROR`, never `PENDING`, and `DONE` exactly when a request was sent and answered |
| `Jobs.SettleDone` | app.js:174-186 | an answered record holds the parsed sections of the answer and the time |
| `Jobs.SettleFailed` | app.js:303-309 | a failed record holds the error message (the range exception or the call's fault) and the time; every other non-status cell is unchanged |
| `Jobs.ReadInputs` | app.js:162-170 | the method reads exactly `ReadInput` of the rows |
| `Jobs.WriteResults` | app.js:178-186 | the rows become `WithResults` of the old rows |
| `Jobs.Analyse` | app.js:172-186 | the rows and outcome are those of `Analysed`, and exactly the prompt built from the inputs is sent |
| `Jobs.RunAiForRow` | app.js:161-189 | the rows and outcome are those of `RunSpec`, and the requests sent are `Requested` |
| `Jobs.WriteAiError` | app.js:303-309 | the rows become `WithError` of the old rows |
| `Jobs.SettleLastRow` | app.js:79-85 | the rows become `Settle` of the old rows, and the requests sent are `Requested` for the last row |
| `Jobs.Record` | app.js:72-85 | the sheet is prepared, the row appended and settled; the returned index is the new last row |
| `Jobs.DoPost` | app.js:45-92 | the rows and the reply are those of `Post`, and the requests sent are `Requests` |
| `Lookup.NormalizeBirthdate` | app.js:123-124 | trimmed, leading apostrophe removed, cut to 10 characters when it contains `T`; never longer than the cell |
| `Lookup.Matcher` | app.js:116-127 | the test of a row is: the trimmed phone equals the query and the normalised birthdate equals the query |
| `Lookup.Matches` | app.js:127 | a match implies the query phone is trimmed and the query birthdate no longer than the cell; a row outside the sheet matches only the empty query |
| `Lookup.NewestMatch` | app.js:115-127 | a result is a matching row in 2..r |
| `Lookup.NewestMatchNewest` | app.js:115-127 | no matching row in 2..r lies after the result, and the result is none only when no row in 2..r matches |
| `Lookup.StatusAnswer` | app.js:128-144 | `DONE` if and only if the status cell is `DONE`, then with the six result cells; otherwise `ERROR` or `PENDING` by the status cell |
| `Lookup.Get` | app.js:97-156 | a non-`getResult` action answers the health check and leaves the sheet; otherwise the sheet is unchanged or prepared |
| `Lookup.BlankQueryRefused` | app.js:101-107 | `phone/birthdate 필요` is answered if and only if the action is `getResult` and a trimmed key is blank; the sheet is then untouched |
| `Lookup.QueryOnPrepared` | app.js:101-113 | on a sheet with the extra headers, a non-blank query is answered by the search for the trimmed keys |
| `Lookup.NewestMatchDecides` | app.js:115-145 | the newest matching row decides the answer |
| `Lookup.NoMatchPending` | app.js:148 | with no matching row the answer is `PENDING` |
| `Lookup.StoredBirthdateMatches` | app.js:119-125 | a stored `'`+birthdate reads back as the birthdate if and only if the birthdate has no `T` or at most 10 characters |
| `Lookup.ReadAnswer` | app.js:128-144 | the answer read from the sheet is `StatusAnswer` |
| `Lookup.ReadMatches` | app.js:116-127 | a missing key column raises the range exception; otherwise the row's match test |
| `Lookup.Search` | app.js:113-148 | the loop from the last row down finds `NewestMatch`; a missing key column raises when there is a row to read |
| `Lookup.FindResultOn` | app.js:110-148 | the search answers `FindResult` of the rows |
| `Lookup.DoGet` | app.js:97-156 | the rows and the reply are those of `Get` |
| `Lifecycle.PreparedUnchanged` | app.js:18-40 | preparing a sheet whose header holds the extra headers changes nothing |
| `Lifecycle.GetSheetIdempotent` | app.js:18-40 | preparing twice is preparing once |
| `Lifecycle.StandardAppended` | app.js:72-77 | on an empty or standard sheet, the appended sheet keeps the standard header |
| `Lifecycle.StandardColumn` | app.js:23-27 | on the standard header each name is at its position plus one |
| `Lifecycle.StandardInputs` | app.js:162-170 | on the standard header the inputs are columns 3 and 5 to 9 of the row |
| `Lifecycle.StandardRequest` | app.js:162-170 | the new row is read back as the submission's fields, the birthdate with its apostrophe |
| `Lifecycle.SettleKeepsCell` | app.js:161-189 | processing never changes a cell of the row whose stored header is not an extra header |
| `Lifecycle.SettledRowKeeps` | app.js:72-85 | after processing, the new row still holds the submitted phone and `'`+birthdate |
| `Lifecycle.KeysNotExtra` | app.js:23-27 | the phone and birthdate columns of the standard header are not extra headers |
| `Lifecycle.SettledErrorEmpty` | app.js:303-309 | when the analysis of the new row fails, its health, foods, avoid, keywords and promo cells stay empty |
| `Lifecycle.FailedCellKept` | app.js:303-309 | a failed analysis in the standard layout leaves every cell after column 13 as it was |
| `Lifecycle.StoredRowMatches` | app.js:116-127 | the stored phone and birthdate match a query with the same trimmed values |
| `Lifecycle.LastRowFound` | app.js:115-145 | when the last row matches, it decides the answer |
| `Lifecycle.SettledAnswer` | app.js:128-144 | the answer read from a processed record is the parsed reply, or `ERROR` when the call failed |
| `Lifecycle.SettledAnswerDone` | app.js:128-141 | when the request was answered, the record's answer is the parsed reply |
| `Lifecycle.SettledAnswerFailed` | app.js:143 | when the request raised, the record's answer is `ERROR` |
| `Lifecycle.DoneRowAnswer` | app.js:128-141 | a `DONE` row answers with its six result cells |
| `Lifecycle.SubmissionFound` | app.js:45-156 | after an accepted submission whose birthdate has no `T` or at most 10 characters, exactly the prompt built from the stored fields was sent, and querying with the same phone and birthdate answers the parsed reply or `ERROR`; cells are read back as the text written |

## Left out

- `callOpenAI_` (the API key lookup, the HTTP request, the status check, the JSON decoding) is not modelled. It is the `respond` function of `Jobs.Oracle`, and any exception it raises is a `Fault(message)`.
- Date values in cells are not modelled. Every cell is a string, so the `rawBd instanceof Date` branch of `doGet` and the `Date` branch of `buildSajuPrompt_` (`Utilities.formatDate`) are out. So is the sheet's conversion of a typed value to a number or date: a phone or birthdate is read back as the text written. The leading apostrophe stays part of the stored text.
- Clocks are not modelled. `new Date()` for the creation time, the processing time and the health-check time are parameters (`createdAt`, `now`). One `now` is used for every time written within one call.
- `Logger.log` output, the `json_` envelope and the HTTP layer are not modelled. Replies are the datatypes `Jobs.PostReply` and `Lookup.GetReply`.
- `doPost`'s outer `catch` (lines 89–91) is not modelled. In the model, nothing after validation raises except inside `runAiForRow_`, whose exceptions the inner `catch` handles. `writeAiError_` cannot raise, because the sheet it writes to always holds the extra headers.
- Exception messages are not modelled beyond one fixed text: a range with column 0 raises `Spreadsheet.RangeError`, and `String(aiErr)` is that text or the oracle's fault message.
- The test helpers `testFetchPermission` and `testOpenAI` are not modelled.
- Concurrency is not modelled: two requests interleaving on the same sheet.
- The case-insensitive flag of the parser's regular expression is not modelled. It is immaterial here: the labels are Hangul and the rest of the pattern has no letters.
- `Jobs.Settle`: the contract states only that earlier rows are kept. The new row's status and cells are stated by the lemmas `SettleStatus`, `SettleDone` and `SettleFailed`.
- `Text.Prefix`: it counts characters, while `substring` counts UTF-16 code units. A character outside the Basic Multilingual Plane counts once here and twice in the script. This affects the 200-character cut of the user agent (line 55) and the 10-character cut of a birthdate holding `T` (line 124).
- `Spreadsheet.Sheet.LastRow`: it counts every stored row, while `getLastRow()` stops at the last row with content. The model assumes the sheet has no trailing rows without content. The same assumption lets `getSheet_` test for an empty sheet (line 22) as a sheet with no rows.
- `Lookup.FindResult`: it carries no contract of its own. Its meaning is stated by `NewestMatchDecides`, `NoMatchPending` and the method `FindResultOn`.
