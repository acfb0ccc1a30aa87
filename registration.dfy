/**
 * The row-annotation engine of `save_to_csv`, shared by main.py and
 * main_v2.py (they differ only in the number the WhatsApp link carries).
 *
 * A scraped row is `[date, fragment, fragment, ...]`. For a row that carries a
 * registration label the engine extracts the name, phone, e-mail,
 * registration number and tier, builds a note from the roster (the team table
 * exported from the back office) and writes one eight-column CSV record.
 * Python exceptions (`int()` or `strptime` on a malformed literal) end the
 * whole run; the records already written stay in the file.
 */
module Registration {
  import opened Wrappers
  import opened Text
  import opened PhonePattern
  import opened Dates

  const RegistrationLabel := "Регистрационный номер:"
  const AgreementLabel := "Номер Соглашения:"
  const BusinessPartner := "Бизнес-Партнер"
  const PrivilegedClient := "Привилегированный клиент"
  const RepeatedRegistration := "Повторная регистрация"
  const ClosedMark := " Закрыт"
  /** What the phone and e-mail columns hold when nothing was found. */
  const NotFound := "---"
  const LinkPrefix := "=ГИПЕРССЫЛКА(\"https://web.whatsapp.com/send/?phone="
  const LinkSuffix := "\";\"Написать\")"
  const Header: seq<string> :=
    ["Дата", "Имя", "Телефон", "Почта", "Регистрационный номер", "Тип", "Примечание", "WhatsApp"]

  type Row = seq<string>

  /** One row of the team table: columns ФИО, E-mail, Телефон, Регистрационный номер, НОО. */
  datatype RosterRow = RosterRow(name: string, email: string, phone: int, regNumber: int, noo: int)

  type Roster = seq<RosterRow>

  /** Which number the WhatsApp link carries: main.py uses the phone, main_v2.py the registration number. */
  datatype LinkTarget = PhoneNumber | RegistrationNumber

  /**
   * What one run depends on besides the rows: the team table, today's date,
   * the e-mail pattern's `re.findall` and the link target.
   */
  datatype Env = Env(roster: Roster, today: Date, findEmails: string -> seq<string>, target: LinkTarget)

  /** The `ValueError`s that abort a run, with the literal that caused them. */
  datatype Failure = NotAnInteger(literal: string) | NotADate(literal: string)

  /** One output record, in header order; `tier` is `None` when no tier was found. */
  datatype Record = Record(
    date: string, name: string, phone: string, email: string,
    regNumber: string, tier: Option<string>, note: string, link: string)

  datatype RowOutcome = Skipped | Written(record: Record) | Raised(failure: Failure)

  datatype RunResult = RunResult(written: seq<Record>, failure: Option<Failure>)

  // ---------------------------------------------------------------------------
  // Field extraction

  predicate HasLabel(item: string) {
    Contains(item, RegistrationLabel) || Contains(item, AgreementLabel)
  }

  function LabelIndexFrom(row: Row, from: nat): (r: Option<nat>)
    requires from <= |row|
    ensures r.Some? ==> from <= r.value < |row| && HasLabel(row[r.value])
    ensures r.Some? ==> forall j :: from <= j < r.value ==> !HasLabel(row[j])
    ensures r.None? ==> forall j :: from <= j < |row| ==> !HasLabel(row[j])
    decreases |row| - from
  {
    if from == |row| then None
    else if HasLabel(row[from]) then Some(from)
    else LabelIndexFrom(row, from + 1)
  }

  /** The index of the first fragment carrying either label, as `next(...)` over `enumerate(row)` finds it. */
  function LabelIndex(row: Row): (r: Option<nat>)
    ensures r.Some? ==> r.value < |row| && HasLabel(row[r.value])
    ensures r.Some? ==> forall j :: 0 <= j < r.value ==> !HasLabel(row[j])
    ensures r.None? <==> forall j :: 0 <= j < |row| ==> !HasLabel(row[j])
  {
    LabelIndexFrom(row, 0)
  }

  /** `item.replace(RegistrationLabel, "").replace(AgreementLabel, "")`: the text is not trimmed. */
  function StripLabels(item: string): string {
    Remove(Remove(item, RegistrationLabel), AgreementLabel)
  }

  /** Python's `row[i - 1]`: for `i == 0` that is the last element. */
  function ItemBefore(row: Row, i: nat): string
    requires i < |row|
  {
    if i == 0 then row[|row| - 1] else row[i - 1]
  }

  /** `str(row)` for fragments that need no escaping: the search text for the phone and e-mail patterns. */
  function ReprText(row: Row): string {
    "['" + Join(row, "', '") + "']"
  }

  /** `phone_match.group() if phone_match else "---"`. */
  function PhoneText(data: string): string {
    match Search(data, 0)
    case Some(m) => m
    case None => NotFound
  }

  /** `email_match[0] if email_match else "---"`. */
  function FirstOrNotFound(matches: seq<string>): string {
    if |matches| > 0 then matches[0] else NotFound
  }

  /** `extract_tier`: the tier named in the space-joined row; "Бизнес-Партнер" takes precedence. */
  function ExtractTier(textList: seq<string>): (r: Option<string>)
    ensures r == Some(BusinessPartner) <==> Contains(Join(textList, " "), BusinessPartner)
    ensures r == Some(PrivilegedClient) <==>
      !Contains(Join(textList, " "), BusinessPartner) && Contains(Join(textList, " "), PrivilegedClient)
    ensures r == None <==>
      !Contains(Join(textList, " "), BusinessPartner) && !Contains(Join(textList, " "), PrivilegedClient)
  {
    var text := Join(textList, " ");
    assert |BusinessPartner| != |PrivilegedClient|;
    if Contains(text, BusinessPartner) then Some(BusinessPartner)
    else if Contains(text, PrivilegedClient) then Some(PrivilegedClient)
    else None
  }

  // ---------------------------------------------------------------------------
  // Roster look-ups

  function Names(roster: Roster): seq<string> {
    seq(|roster|, k requires 0 <= k < |roster| => roster[k].name)
  }

  function Emails(roster: Roster): seq<string> {
    seq(|roster|, k requires 0 <= k < |roster| => roster[k].email)
  }

  function Phones(roster: Roster): seq<int> {
    seq(|roster|, k requires 0 <= k < |roster| => roster[k].phone)
  }

  function RegNumbers(roster: Roster): seq<int> {
    seq(|roster|, k requires 0 <= k < |roster| => roster[k].regNumber)
  }

  /** `column.tolist().count(x)`. */
  function Count<T(==)>(s: seq<T>, x: T): (r: nat)
    ensures r == multiset(s)[x]
    decreases |s|
  {
    if |s| == 0 then 0
    else
      assert s == [s[0]] + s[1..];
      (if s[0] == x then 1 else 0) + Count(s[1..], x)
  }

  /** A value is counted more than once exactly when two different positions hold it. */
  lemma {:induction false} CountAboveOne<T>(s: seq<T>, x: T)
    ensures Count(s, x) > 1 <==> exists j, k :: 0 <= j < k < |s| && s[j] == x && s[k] == x
    decreases |s|
  {
    if |s| > 0 {
      CountAboveOne(s[1..], x);
      var tail := s[1..];
      if Count(s, x) > 1 {
        if s[0] == x {
          assert Count(tail, x) > 0;
          assert x in multiset(tail);
          var k :| 0 <= k < |tail| && tail[k] == x;
          assert s[0] == x && s[k + 1] == x;
        } else {
          var j, k :| 0 <= j < k < |tail| && tail[j] == x && tail[k] == x;
          assert s[j + 1] == x && s[k + 1] == x;
        }
      }
      if exists j, k :: 0 <= j < k < |s| && s[j] == x && s[k] == x {
        var j, k :| 0 <= j < k < |s| && s[j] == x && s[k] == x;
        if j == 0 {
          assert tail[k - 1] == x;
          assert x in multiset(tail);
        } else {
          assert tail[j - 1] == x && tail[k - 1] == x;
        }
      }
    }
  }

  /** A registration number is counted zero times exactly when no roster row carries it. */
  lemma CountZeroNoMatch(roster: Roster, reg: int)
    ensures Count(RegNumbers(roster), reg) == 0 <==> FirstMatch(roster, reg).None?
  {
    var s := RegNumbers(roster);
    assert reg in multiset(s) <==> reg in s;
    if FirstMatch(roster, reg).Some? {
      assert s[FirstMatch(roster, reg).value] == reg;
    }
  }

  /** The first roster row with the registration number, as `my_team.loc[column == reg, ...].values[0]` takes it. */
  function FirstMatch(roster: Roster, reg: int): (r: Option<nat>)
    ensures r.Some? ==> r.value < |roster| && roster[r.value].regNumber == reg
    ensures r.Some? ==> forall j :: 0 <= j < r.value ==> roster[j].regNumber != reg
    ensures r.None? <==> forall j :: 0 <= j < |roster| ==> roster[j].regNumber != reg
    decreases |roster|
  {
    if |roster| == 0 then None
    else if roster[0].regNumber == reg then Some(0)
    else match FirstMatch(roster[1..], reg)
      case None => None
      case Some(k) => Some(k + 1)
  }

  // ---------------------------------------------------------------------------
  // The note

  /** `x` stands at two different positions of `s`: `s.count(x) > 1`. */
  ghost predicate OccursTwice<T>(s: seq<T>, x: T) {
    exists j, k :: 0 <= j < k < |s| && s[j] == x && s[k] == x
  }

  /**
   * The duplicate part of the note: `column.tolist().count(x) > 1` for the
   * name, the e-mail and the phone, in turn.
   */
  function DuplicateNote(roster: Roster, name: string, email: string, phone: int): string {
    if Count(Names(roster), name) > 1 || Count(Emails(roster), email) > 1 || Count(Phones(roster), phone) > 1
    then RepeatedRegistration
    else ""
  }

  /**
   * The duplicate part is "Повторная регистрация" exactly when the name, the
   * e-mail or the phone occurs more than once in its roster column, and empty otherwise.
   */
  lemma DuplicateNoteMeaning(roster: Roster, name: string, email: string, phone: int)
    ensures DuplicateNote(roster, name, email, phone) == RepeatedRegistration <==>
      OccursTwice(Names(roster), name) || OccursTwice(Emails(roster), email) || OccursTwice(Phones(roster), phone)
    ensures DuplicateNote(roster, name, email, phone) == RepeatedRegistration || DuplicateNote(roster, name, email, phone) == ""
  {
    CountAboveOne(Names(roster), name);
    CountAboveOne(Emails(roster), email);
    CountAboveOne(Phones(roster), phone);
    assert |RepeatedRegistration| > 0;
  }

  /** Row `j` is the first roster row with registration number `reg`. */
  ghost predicate IsFirstMatch(roster: Roster, reg: int, j: int) {
    0 <= j < |roster| && roster[j].regNumber == reg && forall i :: 0 <= i < j ==> roster[i].regNumber != reg
  }

  /** What the roster adds to the note, looked up in the first roster row with the registration number. */
  function ClosureSuffix(roster: Roster, reg: int): string {
    match FirstMatch(roster, reg)
    case None => ClosedMark
    case Some(k) => if roster[k].noo != 0 then " " + IntToString(roster[k].noo) else ""
  }

  /**
   * The roster part of the note is " Закрыт" when no row has the
   * registration number; otherwise " {НОО}" of the first such row when that
   * is non-zero, and nothing when it is zero.
   */
  lemma ClosureSuffixMeaning(roster: Roster, reg: int)
    ensures (forall j :: 0 <= j < |roster| ==> roster[j].regNumber != reg) ==> ClosureSuffix(roster, reg) == ClosedMark
    ensures forall j :: IsFirstMatch(roster, reg, j) ==>
      ClosureSuffix(roster, reg) == (if roster[j].noo != 0 then " " + IntToString(roster[j].noo) else "")
  {
    forall j | IsFirstMatch(roster, reg, j) ensures FirstMatch(roster, reg) == Some(j) {
      FirstMatchIsUnique(roster, reg, j);
    }
  }

  /** `FirstMatch` finds the one first row that carries the registration number. */
  lemma FirstMatchIsUnique(roster: Roster, reg: int, j: int)
    requires IsFirstMatch(roster, reg, j)
    ensures FirstMatch(roster, reg) == Some(j)
  {
    var m := FirstMatch(roster, reg);
    assert m.Some?;
    assert !(m.value < j) && !(j < m.value);
  }

  function WhatsAppLink(n: int): string {
    LinkPrefix + IntToString(n) + LinkSuffix
  }

  /** The number a WhatsApp link carries, read back with `int()`. */
  function LinkNumber(link: string): Option<int> {
    if |LinkPrefix| + |LinkSuffix| <= |link| && link[..|LinkPrefix|] == LinkPrefix
       && link[|link| - |LinkSuffix|..] == LinkSuffix
    then ParseInt(link[|LinkPrefix|..|link| - |LinkSuffix|])
    else None
  }

  /** The link carries exactly the number it was built from. */
  lemma LinkRoundTrip(n: int)
    ensures LinkNumber(WhatsAppLink(n)) == Some(n)
  {
    var link := WhatsAppLink(n);
    assert link[|LinkPrefix|..|link| - |LinkSuffix|] == IntToString(n);
    assert link[..|LinkPrefix|] == LinkPrefix;
    assert link[|link| - |LinkSuffix|..] == LinkSuffix;
    IntRoundTrip(n);
  }

  /** The CSV cells of a record; `csv.writer` writes `None` as an empty cell. */
  function Fields(rec: Record): (r: seq<string>)
    ensures |r| == |Header|
  {
    [rec.date, rec.name, rec.phone, rec.email, rec.regNumber,
     match rec.tier case Some(t) => t case None => "",
     rec.note, rec.link]
  }

  /** The rows of the CSV file: the header, then one row per record. */
  function CsvFile(records: seq<Record>): seq<seq<string>> {
    [Header] + seq(|records|, k requires 0 <= k < |records| => Fields(records[k]))
  }

  // ---------------------------------------------------------------------------
  // One row

  /** The note of a row dated `date`: wiped on the day of the run. */
  function Note(env: Env, name: string, email: string, phone: int, reg: int, date: Date): string {
    if date == env.today then ""
    else DuplicateNote(env.roster, name, email, phone) + ClosureSuffix(env.roster, reg)
  }

  /**
   * The part of the loop body after the fields are extracted: `int(phones)`,
   * `int(registration_numbers)` and `strptime(row[0])`, in that order, may raise.
   */
  function Complete(row: Row, name: string, phones: string, emails: string, regText: string, env: Env): RowOutcome
    requires |row| > 0
  {
    match ParseInt(phones)
    case None => Raised(NotAnInteger(phones))
    case Some(phone) =>
      match ParseInt(regText)
      case None => Raised(NotAnInteger(regText))
      case Some(reg) =>
        match ParseDate(row[0])
        case None => Raised(NotADate(row[0]))
        case Some(date) =>
          var link := WhatsAppLink(if env.target == PhoneNumber then phone else reg);
          Written(Record(row[0], name, phones, emails, regText, ExtractTier(row),
                         Note(env, name, emails, phone, reg, date), link))
  }

  /** What the loop body of `save_to_csv` does with one row. */
  function Process(row: Row, env: Env): RowOutcome {
    match LabelIndex(row)
    case None => Skipped
    case Some(i) =>
      var data := ReprText(row);
      Complete(row, ItemBefore(row, i), PhoneText(data), FirstOrNotFound(env.findEmails(data)),
               StripLabels(row[i]), env)
  }

  /** The loop body for one row: the fields are extracted, then the record is built. */
  method AnnotateRow(row: Row, env: Env) returns (outcome: RowOutcome)
    ensures outcome == Process(row, env)
  {
    var index := LabelIndex(row);
    if index.None? {
      return Skipped;
    }
    var i := index.value;
    var registrationNumbers := StripLabels(row[i]);
    var data := ReprText(row);
    var phones := PhoneText(data);
    var emails := FirstOrNotFound(env.findEmails(data));
    var name := ItemBefore(row, i);
    outcome := BuildRecord(row, name, phones, emails, registrationNumbers, env);
  }

  /** The closure check of the loop body: `info` gains the roster's `noo` value, or the closed mark when there is none. */
  method MarkClosure(info: string, roster: Roster, reg: int) returns (marked: string)
    ensures marked == info + ClosureSuffix(roster, reg)
  {
    marked := info;
    CountZeroNoMatch(roster, reg);
    if Count(RegNumbers(roster), reg) == 0 {
      marked := marked + ClosedMark;
    } else {
      var k := FirstMatch(roster, reg);
      var nooValue := roster[k.value].noo;
      if nooValue != 0 {
        marked := marked + " " + IntToString(nooValue);
      }
    }
  }

  /** The note `info` built in place, as the loop body does after the fields are extracted. */
  method BuildRecord(row: Row, name: string, phones: string, emails: string, registrationNumbers: string, env: Env)
    returns (outcome: RowOutcome)
    requires |row| > 0
    ensures outcome == Complete(row, name, phones, emails, registrationNumbers, env)
  {
    var tier := ExtractTier(row);
    var info := "";
    if Count(Names(env.roster), name) > 1 {
      info := RepeatedRegistration;
    }
    if Count(Emails(env.roster), emails) > 1 {
      info := RepeatedRegistration;
    }
    var phone := ParseInt(phones);
    if phone.None? {
      return Raised(NotAnInteger(phones));
    }
    if Count(Phones(env.roster), phone.value) > 1 {
      info := RepeatedRegistration;
    }
    assert info == DuplicateNote(env.roster, name, emails, phone.value);
    var reg := ParseInt(registrationNumbers);
    if reg.None? {
      return Raised(NotAnInteger(registrationNumbers));
    }
    info := MarkClosure(info, env.roster, reg.value);
    var date := ParseDate(row[0]);
    if date.None? {
      return Raised(NotADate(row[0]));
    }
    if date.value == env.today {
      info := "";
    }
    var whatsapp := WhatsAppLink(if env.target == PhoneNumber then phone.value else reg.value);
    outcome := Written(Record(row[0], name, phones, emails, registrationNumbers, tier, info, whatsapp));
  }

  // ---------------------------------------------------------------------------
  // The whole run

  /** The annotation of every row, in input order. */
  function Outcomes(rows: seq<Row>, env: Env): (outs: seq<RowOutcome>)
    ensures |outs| == |rows|
    decreases |rows|
  {
    if |rows| == 0 then [] else [Process(rows[0], env)] + Outcomes(rows[1..], env)
  }

  /** The outcome at each position is the annotation of the row at that position. */
  lemma {:induction false} OutcomesAt(rows: seq<Row>, env: Env)
    ensures forall j :: 0 <= j < |rows| ==> Outcomes(rows, env)[j] == Process(rows[j], env)
    decreases |rows|
  {
    if |rows| > 0 {
      OutcomesAt(rows[1..], env);
      assert forall j :: 1 <= j < |rows| ==> rows[j] == rows[1..][j - 1];
    }
  }

  /** The records written and the exception (if any) that ended the run, from the row outcomes. */
  function Collect(outs: seq<RowOutcome>): RunResult
    decreases |outs|
  {
    if |outs| == 0 then RunResult([], None)
    else match outs[0]
      case Skipped => Collect(outs[1..])
      case Written(rec) =>
        var rest := Collect(outs[1..]);
        RunResult([rec] + rest.written, rest.failure)
      case Raised(f) => RunResult([], Some(f))
  }

  /** What `save_to_csv` leaves behind: the records written and the exception that ended it, if any. */
  function Run(rows: seq<Row>, env: Env): RunResult {
    Collect(Outcomes(rows, env))
  }

  /**
   * One iteration of the run: a skipped row adds nothing, a written row adds
   * its record in front of the rest, and an exception ends the run there.
   */
  lemma RunStep(rows: seq<Row>, env: Env, i: nat)
    requires i < |rows|
    ensures var o := Process(rows[i], env); var rest := Run(rows[i + 1..], env);
      && (o.Skipped? ==> Run(rows[i..], env) == rest)
      && (o.Written? ==> Run(rows[i..], env) == RunResult([o.record] + rest.written, rest.failure))
      && (o.Raised? ==> Run(rows[i..], env) == RunResult([], Some(o.failure)))
  {
    assert rows[i..][0] == rows[i] && rows[i..][1..] == rows[i + 1..];
    var outs := Outcomes(rows[i..], env);
    assert outs == [Process(rows[i], env)] + Outcomes(rows[i + 1..], env);
    assert outs[0] == Process(rows[i], env) && outs[1..] == Outcomes(rows[i + 1..], env);
  }

  /** The loop body applied to `rows[i]`, described by its effect on the run from `i` on. */
  method AnnotateAt(rows: seq<Row>, env: Env, i: nat) returns (outcome: RowOutcome)
    requires i < |rows|
    ensures outcome.Skipped? ==> Run(rows[i..], env) == Run(rows[i + 1..], env)
    ensures outcome.Written? ==>
      Run(rows[i..], env) == RunResult([outcome.record] + Run(rows[i + 1..], env).written, Run(rows[i + 1..], env).failure)
    ensures outcome.Raised? ==> Run(rows[i..], env) == RunResult([], Some(outcome.failure))
  {
    outcome := AnnotateRow(rows[i], env);
    RunStep(rows, env, i);
  }

  /** The loop of `save_to_csv`: the header, then one `writerow` per accepted row until an exception. */
  method SaveRows(rows: seq<Row>, env: Env) returns (file: seq<seq<string>>, failure: Option<Failure>)
    ensures file == CsvFile(Run(rows, env).written)
    ensures failure == Run(rows, env).failure
  {
    file := [Header];
    ghost var written: seq<Record> := [];
    var i := 0;
    assert rows[i..] == rows;
    while i < |rows|
      invariant 0 <= i <= |rows|
      invariant file == CsvFile(written)
      invariant Run(rows, env) == RunResult(written + Run(rows[i..], env).written, Run(rows[i..], env).failure)
    {
      var outcome := AnnotateAt(rows, env, i);
      match outcome {
        case Skipped =>
        case Written(rec) =>
          assert written + ([rec] + Run(rows[i + 1..], env).written) == (written + [rec]) + Run(rows[i + 1..], env).written;
          written := written + [rec];
          file := file + [Fields(rec)];
        case Raised(f) =>
          assert Run(rows, env) == RunResult(written, Some(f));
          return file, Some(f);
      }
      i := i + 1;
    }
    assert written + [] == written;
    failure := None;
  }
}
