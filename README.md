# Registration report: the row-annotation engine

The program reads registration e-mails from a mailbox, flattens each one
into a row `[date, fragment, fragment, ...]`, and writes a semicolon-separated
CSV report with one line per registration. Each line has eight columns:
Дата, Имя, Телефон, Почта, Регистрационный номер, Тип, Примечание, WhatsApp.
The note (Примечание) is built against the team table exported from the
back office. That table's columns are ФИО, E-mail, Телефон,
Регистрационный номер and НОО.

This project models the engine that turns rows into report lines. It exists
twice in the repository:
- `save_to_csv` in main.py;
- `CSVWriter.save_to_csv` in main_v2.py.

The two copies differ only in the number the WhatsApp link carries. One
module, `Registration`, holds the shared engine. The entry points
`MainV1.SaveToCsv` and `MainV2.CSVWriter.SaveToCsv` pick the link target.

For each row, the engine does the following:
1. It takes the first fragment that carries "Регистрационный номер:" or
   "Номер Соглашения:". A row without one is skipped.
2. It deletes both labels from that fragment to get the registration number.
3. It takes the fragment before it as the name. Python's `row[index - 1]`
   is modelled, including the `row[-1]` case.
4. It searches the row's text for the phone pattern `\d{11}|375\d{9}` and
   the e-mail pattern. "---" stands in when nothing is found.
5. It classifies the tier. "Бизнес-Партнер" takes precedence, then
   "Привилегированный клиент", else there is no tier.
6. It builds the note:
   - "Повторная регистрация" when the name, the e-mail or the phone is
     counted more than once in its roster column;
   - then " Закрыт" when the registration number is not in the roster,
     otherwise " {НОО}" of the first matching roster row when that is
     non-zero;
   - the note is wiped when the row is dated today.
7. It writes the eight-column record.

`int()` of the phone or of the registration number, and `strptime` of the
date, can raise. The run then stops, and the records written before stay
in the file (`RunResult`).

Modules:
- `Text`: substring search, `join`, `replace(p, "")`, and Python's `int()`
  and `str()` of integers.
- `PhonePattern`: the phone regular expression.
- `Dates`: `YYYY-MM-DD` dates.
- `Registration`: the data model, the per-row engine (`Process`, modelled
  imperatively by `AnnotateRow`, `BuildRecord` and `MarkClosure`) and the
  loop (`SaveRows`, one `AnnotateAt` per row).
- `Properties`: what the engine guarantees.
- `MainV1`, `MainV2`: the two entry points.

The note is modelled as the code builds it:
- there is no per-event "first/duplicate" chain;
- periods are not replaced by commas;
- nothing is trimmed;
- the strings are the code's Russian strings;
- duplicates are judged only by counts in the roster columns.

## Model

| member | source | states |
|---|---|---|
| Registration.ExtractTier | main.py:34-49 | the tier is "Бизнес-Партнер" iff the space-joined row contains it; "Привилегированный клиент" iff only that one is contained; none iff neither is |
| Properties.TierFromFragment | main.py:44-46 | a fragment containing "Бизнес-Партнер" makes the tier "Бизнес-Партнер", whatever else the row holds |
| Properties.PrivilegedFromFragment | main.py:47-48 | a fragment containing "Привилегированный клиент" gives that tier when the joined row has no "Бизнес-Партнер" |
| MainV2.EmailParser.ExtractTier | main_v2.py:57-73 | the same precedence: "Бизнес-Партнер" first, then "Привилегированный клиент", otherwise none |
| Text.Contains | main.py:45 | Python's `in` on strings: true iff the pattern occurs at some offset |
| Text.Join | main.py:44 | `sep.join(xs)`: the elements with the separator between them (definition; JoinHasElement states what the join contains) |
| Text.JoinHasElement | main.py:44 | every element of a list occurs in its join |
| Text.ContainsInJoin | main.py:44 | a substring of one element is a substring of the join |
| Registration.LabelIndex | main.py:68-71 | the index of the first fragment carrying either label; none iff no fragment carries one |
| Properties.SkippedIffNoLabel | main.py:72 | a row is skipped iff no fragment carries a label |
| Text.Remove | main.py:73 | `replace(p, "")` never lengthens a text |
| Text.RemoveWithout | main.py:73 | `replace(p, "")` leaves a text without `p` unchanged |
| Text.RemoveAtFirst | main.py:73 | when the first occurrence of `p` in `u + p + v` is the one after `u`, the replacement keeps `u`, drops that `p` and goes on in `v` |
| Registration.StripLabels | main.py:73 | the two chained `replace(label, "")` calls, registration label first (definition; the next four rows state what they do) |
| Properties.StripLabelsKeepsRest | main.py:73 | a label followed by a label-free text becomes exactly that text, untrimmed |
| Properties.AgreementLabelHidesNoRegistrationLabel | main.py:73 | putting "Номер Соглашения:" in front does not create a "Регистрационный номер:" |
| Text.PrefixAddsNoOccurrence | main.py:73 | a prefix with no character starting the pattern creates no occurrence in a text that has none |
| Properties.StripRegistrationLabelInside | main.py:73 | a "Регистрационный номер:" inside a fragment is cut out, and the text on both sides is kept as it is |
| Properties.StripAgreementLabelInside | main.py:73 | a "Номер Соглашения:" inside a fragment is cut out, and the text on both sides is kept as it is |
| Registration.ItemBefore | main.py:82 | `row[index - 1]`, with Python's `row[-1]` for index 0 (definition; WrittenRecordFields shows index 0 never reaches a written record) |
| Registration.ReprText | main.py:74 | `str(row)`: the fragments quoted and joined by ", " (definition; PhoneInFragmentFound uses that every fragment occurs in it) |
| Properties.DateCarriesNoLabel | main.py:68-71 | a valid date fragment never carries a label, so the label index of a written row is at least 1 |
| Properties.WrittenRecordFields | main.py:68-83 | a written record holds row[0] as date, the fragment before the first label as name (never row[-1]), the label-stripped fragment, the row's tier, the first e-mail match or "---", and the leftmost eleven-digit run as phone |
| PhonePattern.MatchAt | main.py:76 | the pattern `\d{11}|375\d{9}` tried at one position, alternatives in order (definition; SecondAlternativeNeverWins states what it matches) |
| PhonePattern.Search | main.py:76 | `re.search`: the match at the first position where the pattern matches (definition; SearchFindsLeftmostRun states it) |
| Registration.PhoneText | main.py:76-77 | the phone match, or "---" without one (definition; FoundPhoneIsNumeric and PhoneInFragmentFound state it) |
| Registration.FirstOrNotFound | main.py:79-80 | the first e-mail match, or "---" without one (definition; WrittenRecordFields carries it into the record) |
| PhonePattern.SecondAlternativeNeverWins | main.py:76 | at any position the pattern matches iff eleven digits start there, and the match is those eleven digits |
| PhonePattern.SearchFindsLeftmostRun | main.py:76-77 | the search returns the leftmost eleven-digit run, and finds nothing iff there is none |
| PhonePattern.CountryCodeNumberTruncated | main.py:76 | a twelve-digit number starting with 375 yields only its first eleven digits |
| Properties.PhoneInFragmentFound | main.py:74-77 | eleven digits in any fragment mean a phone is found |
| Properties.FoundPhoneIsNumeric | main.py:92 | a found phone is accepted by `int()` with its digit value |
| Properties.MissingPhoneAborts | main.py:76-92 | a labelled row without eleven digits raises at `int("---")` |
| Properties.NonNumericRegNumberAborts | main.py:95 | a labelled row with a phone but a non-numeric registration number raises at its `int()` |
| Text.ParseInt | main.py:92-95 | Python's `int()` of a string, `None` for the `ValueError` (definition; ParseDigits, ParseDashesFails and IntRoundTrip state it) |
| Text.IntToString | main.py:100 | `str(n)` of an integer as the f-string prints it (definition; IntRoundTrip states it) |
| Text.ParseDashesFails | main.py:92 | `int("---")` raises |
| Text.IntRoundTrip | main.py:100-105 | `int()` of `str(n)` is n |
| Text.NatToStringValue | main.py:100 | the decimal digits of n denote n |
| Text.ParseDigits | main.py:92 | a literal of decimal digits is read by `int()` as its value |
| Registration.Count | main.py:86 | `list.count(x)` is the multiplicity of x |
| Registration.CountAboveOne | main.py:86-93 | a count above one iff two different positions hold the value |
| Registration.CountZeroNoMatch | main.py:95 | a registration number's count is zero iff no roster row carries it |
| Registration.FirstMatch | main.py:98 | the first roster row with the registration number; none iff no row has it |
| Registration.FirstMatchIsUnique | main.py:98 | the first row carrying the registration number is the one `values[0]` picks |
| Registration.DuplicateNote | main.py:84-93 | the note after the three repeated-registration checks (definition; DuplicateNoteMeaning states it) |
| Registration.DuplicateNoteMeaning | main.py:84-93 | before the closure step the note is "Повторная регистрация" iff name, e-mail or phone occurs twice in its roster column, and "" otherwise |
| Registration.ClosureSuffixMeaning | main.py:95-100 | " Закрыт" when no roster row has the registration number; else " {НОО}" of the first such row when non-zero, and nothing when zero |
| Registration.ClosureSuffix | main.py:95-100 | what the closure check appends to the note (definition; ClosureSuffixMeaning states it) |
| Registration.MarkClosure | main.py:95-100 | the in-place `info +=` of the closure check appends exactly `ClosureSuffix` |
| Registration.Note | main.py:84-103 | the final note: empty on the day of the run, otherwise the duplicate part then the closure part (definition; SameDayNoteEmpty and NoteOnOtherDays state it) |
| Properties.ClosedNote | main.py:95-96 | on other days, a registration number missing from the roster makes the note " Закрыт" or "Повторная регистрация Закрыт" |
| Properties.OpenZeroNooKeepsDuplicateNote | main.py:97-100 | an open registration with НОО 0 keeps the duplicate note unchanged ("" or "Повторная регистрация") |
| Properties.SameDayNoteEmpty | main.py:102-103 | a row dated today always ends with an empty note |
| Properties.NoteOnOtherDays | main.py:84-103 | on any other day the note is the duplicate part followed by the roster part |
| Dates.ParseDate | main.py:102 | a parsed date is a valid calendar date and the literal is ten characters |
| Dates.ParseFormatted | main.py:102 | every valid date's `YYYY-MM-DD` text parses back to it |
| Dates.FormattedParsed | main.py:102 | every accepted literal is the `YYYY-MM-DD` text of its date |
| Registration.WhatsAppLink | main.py:105 | the `=ГИПЕРССЫЛКА(...)` formula for a number (definition; LinkRoundTrip states it) |
| Registration.LinkRoundTrip | main.py:105 | the WhatsApp link carries exactly the number it was built from |
| Properties.LinkCarriesPhone | main.py:105 | in main.py the link of a written record carries `int(phone)` |
| Properties.LinkCarriesRegNumber | main_v2.py:172 | in main_v2.py the link of a written record carries `int(registration_numbers)` |
| Registration.Fields | main.py:107 | a record has exactly the eight header columns |
| Registration.CsvFile | main.py:65-108 | the header row, then the fields of each record (definition; CsvFileColumns states it) |
| Properties.CsvFileColumns | main.py:65-108 | the file has one row more than there are records: first the header, then, for each record in order, its `Fields`, eight cells in header order (date, name, phone, e-mail, registration number, tier or "", note, link) |
| Registration.Complete | main.py:92-108 | the per-row specification after field extraction: `int(phones)`, `int(registration_numbers)` and `strptime`, in that order, may raise; otherwise the record (definition; BuildRecord and WrittenRecordFields state it) |
| Registration.Process | main.py:67-108 | the per-row specification: a row without a label is skipped, otherwise `Complete` of its extracted fields (definition; AnnotateRow, SkippedIffNoLabel and WrittenRecordFields state it) |
| Registration.BuildRecord | main.py:83-108 | the in-place build of `info` (overwrites, appends, same-day reset) and the record equal the per-row specification `Complete` |
| Registration.AnnotateRow | main.py:67-108 | one loop iteration yields exactly the per-row specification `Process` |
| Registration.Outcomes | main.py:67 | one outcome per row |
| Registration.OutcomesAt | main.py:67-108 | the outcome at each position is the annotation of the row at that position |
| Registration.Collect | main.py:67-108 | the records of the outcomes up to the first exception, and that exception (definition; CollectWithoutErrors and CollectStopsAtFirstError state it) |
| Registration.Run | main.py:67-108 | the records and the exception of a whole run (definition; RunWithoutErrors, RunStopsAtFirstError and RunRecordsComeFromRows state it) |
| Registration.RunStep | main.py:67-108 | one iteration of the run: a skipped row adds nothing, a written row puts its record before those of the later rows, an exception ends the run with no further records |
| Registration.AnnotateAt | main.py:67-108 | the loop body on `rows[i]` moves the run from `i` to `i + 1` as RunStep says |
| Registration.SaveRows | main.py:63-108 | the loop leaves the header and the records of `Run`, and the exception that ended it |
| Properties.Accepted | main.py:72 | the labelled rows in input order; never more than the input |
| Properties.AcceptedMeaning | main.py:67-72 | a row is accepted iff it is a row of the input that carries a label |
| Properties.Kept | main.py:107-108 | the outcomes that are not skips, in order: each one writes a record or raises |
| Properties.KeptMeaning | main.py:72-108 | an outcome is kept iff it is an outcome of the input that is not a skip |
| Properties.CollectWithoutErrors | main.py:67-108 | without an exception, every kept outcome writes its record, in order |
| Properties.KeptAreAccepted | main.py:67-72 | the kept outcomes are exactly those of the labelled rows, in order |
| Properties.RunWithoutErrors | main.py:67-108 | without an exception, the run writes one record per labelled row, in input order, and nothing else |
| Properties.CollectStopsAtFirstError | main.py:92-102 | the first exception ends the collection; the records before it stay |
| Properties.RunStopsAtFirstError | main.py:92-102 | the first exception ends the run: the records of earlier rows stay, later rows are not looked at |
| Properties.CollectedRecordsComeFromOutcomes | main.py:108 | every collected record is written by some outcome |
| Properties.RunRecordsComeFromRows | main.py:108 | every written record is the annotation of some row |
| Properties.RunLinks | main.py:105 | every written record's link carries the number of its target column |
| Properties.CsvRowsCarryLinks | main.py:65-108 | every record row has eight columns, and its WhatsApp cell carries the number in the Телефон (main.py) or Регистрационный номер (main_v2.py) cell |
| MainV1.LocalPart | main.py:62 | `split("@")[0]`: the longest prefix without '@' |
| MainV1.CsvFileName | main.py:62 | the file name is the login's local part followed by ".csv" |
| MainV1.SaveToCsv | main.py:51-108 | the file is the header and the records of the run with the phone link; every record's WhatsApp cell carries `int()` of its Телефон cell |
| MainV2.CSVWriter.constructor | main_v2.py:77-84 | the writer keeps its file name |
| MainV2.CSVWriter.SaveToCsv | main_v2.py:86-184 | the file is the header and the records of the run with the registration-number link; every record's WhatsApp cell carries `int()` of its Регистрационный номер cell |

## Left out

- backoffice.py is not part of this model. It fetches the team table over HTTP with a login retry loop and a captcha solver; that is I/O and foreign calls. The team table is a parameter (`Roster`).
- `parse_emails` in both files is not modelled: IMAP login, message fetch, BeautifulSoup flattening and the tqdm progress bar are I/O. Its output, a date then text fragments, is the input `seq<Row>`.
- `EmailParser`'s constructor and its mailbox settings are I/O configuration and are not modelled.
- The CSV writer, the `utf-8-sig` encoding, the `;` delimiter and the quoting are not modelled. The file is the sequence of rows handed to `writerow`.
- `datetime.now()` is a parameter (`Env.today`), fixed for the whole run. The code reads the clock anew for every row, so a run that crosses midnight, where later rows compare against the next day, is not captured.
- `config.mail_login` is a parameter of `MainV1.CsvFileName`.
- Dates.ParseDate is stricter than `strptime("%Y-%m-%d")`. It accepts only the zero-padded form, while `strptime` also takes one-digit months and days. The dates come from `str(msg.date)[:10]`, which is always zero-padded.
- Registration.ReprText models `str(row)` as the fragments quoted with `'` and joined by `, `. Python's `repr` quote choice and escaping are not modelled.
- Text.ParseInt models `int()` with the ASCII whitespace `strip` removes (space, tab, line feed, carriage return, U+000B, U+000C and the separators U+001C-U+001F), an optional sign, and digits with single underscores. Non-ASCII Unicode digits and whitespace (such as U+0085 or U+00A0) are not modelled, nor are the Unicode digits `\d` would match in the phone pattern.
- The e-mail regular expression, with its backtracking and `\b` semantics, is a parameter `findEmails` standing for `re.findall`. Only the first match and the "---" fallback are modelled.
- pandas dtypes are not modelled. The roster's phone, registration number and НОО are integers, and a float or missing НОО going through `int()` is not modelled.
- A roster column holding a non-integer value, and the resulting `count` comparisons across types, are not modelled.
- MainV2.EmailParser.ExtractTier is stated once more for main_v2.py. The shared engine uses `Registration.ExtractTier`, which has the same contract.
