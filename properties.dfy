/**
 * What the row-annotation engine guarantees: which rows produce a record,
 * where each field comes from, when the run aborts, how the note is made and
 * what the WhatsApp link carries.
 */
module Properties {
  import opened Wrappers
  import opened Text
  import opened PhonePattern
  import opened Dates
  import opened Registration

  // ---------------------------------------------------------------------------
  // Tier

  /** A marker found in any single fragment decides the tier; "Бизнес-Партнер" wins over the other. */
  lemma TierFromFragment(textList: seq<string>, k: nat)
    requires k < |textList| && Contains(textList[k], BusinessPartner)
    ensures ExtractTier(textList) == Some(BusinessPartner)
  {
    ContainsInJoin(textList, " ", k, BusinessPartner);
  }

  /** "Привилегированный клиент" is found when no fragment-spanning text names a business partner. */
  lemma PrivilegedFromFragment(textList: seq<string>, k: nat)
    requires k < |textList| && Contains(textList[k], PrivilegedClient)
    requires !Contains(Join(textList, " "), BusinessPartner)
    ensures ExtractTier(textList) == Some(PrivilegedClient)
  {
    ContainsInJoin(textList, " ", k, PrivilegedClient);
  }

  // ---------------------------------------------------------------------------
  // Label, name and registration number

  /** A row is skipped exactly when none of its fragments carries a label. */
  lemma SkippedIffNoLabel(row: Row, env: Env)
    ensures Process(row, env).Skipped? <==> LabelIndex(row).None?
    ensures Process(row, env).Skipped? <==> forall k :: 0 <= k < |row| ==> !HasLabel(row[k])
  {
  }

  lemma AgreementLabelHidesNoRegistrationLabel(t: string)
    requires !Contains(t, RegistrationLabel)
    ensures !Contains(AgreementLabel + t, RegistrationLabel)
  {
    forall k | 0 <= k < |AgreementLabel| ensures AgreementLabel[k] != RegistrationLabel[0] {
    }
    PrefixAddsNoOccurrence(AgreementLabel, t, RegistrationLabel);
  }

  /**
   * Stripping the labels leaves exactly the rest of the fragment: for a
   * fragment made of a label and a text without labels, the text, untrimmed.
   */
  lemma StripLabelsKeepsRest(t: string)
    requires !Contains(t, RegistrationLabel) && !Contains(t, AgreementLabel)
    ensures StripLabels(RegistrationLabel + t) == t
    ensures StripLabels(AgreementLabel + t) == t
  {
    assert (RegistrationLabel + t)[..|RegistrationLabel|] == RegistrationLabel;
    assert (RegistrationLabel + t)[|RegistrationLabel|..] == t;
    RemoveWithout(t, RegistrationLabel);
    RemoveWithout(t, AgreementLabel);
    AgreementLabelHidesNoRegistrationLabel(t);
    RemoveWithout(AgreementLabel + t, RegistrationLabel);
    assert (AgreementLabel + t)[..|AgreementLabel|] == AgreementLabel;
    assert (AgreementLabel + t)[|AgreementLabel|..] == t;
  }

  /**
   * A "Регистрационный номер:" inside a fragment is deleted where it stands
   * and the texts around it are kept, untrimmed: "Ваш <label> 123" becomes
   * "Ваш  123".
   */
  lemma StripRegistrationLabelInside(u: string, v: string)
    requires forall i: nat :: i < |u| ==> !OccursAt(u + RegistrationLabel + v, RegistrationLabel, i)
    requires !Contains(v, RegistrationLabel) && !Contains(u + v, AgreementLabel)
    ensures StripLabels(u + RegistrationLabel + v) == u + v
  {
    RemoveAtFirst(u, RegistrationLabel, v);
    RemoveWithout(v, RegistrationLabel);
    RemoveWithout(u + v, AgreementLabel);
  }

  /** A "Номер Соглашения:" inside a fragment is deleted where it stands and the texts around it are kept. */
  lemma StripAgreementLabelInside(u: string, v: string)
    requires !Contains(u + AgreementLabel + v, RegistrationLabel)
    requires forall i: nat :: i < |u| ==> !OccursAt(u + AgreementLabel + v, AgreementLabel, i)
    requires !Contains(v, AgreementLabel)
    ensures StripLabels(u + AgreementLabel + v) == u + v
  {
    RemoveWithout(u + AgreementLabel + v, RegistrationLabel);
    RemoveAtFirst(u, AgreementLabel, v);
    RemoveWithout(v, AgreementLabel);
  }

  /** A date fragment is too short to carry a label. */
  lemma DateCarriesNoLabel(s: string)
    requires ParseDate(s).Some?
    ensures !HasLabel(s)
  {
    if Contains(s, RegistrationLabel) {
      ContainsNeedsRoom(s, RegistrationLabel);
    }
    if Contains(s, AgreementLabel) {
      ContainsNeedsRoom(s, AgreementLabel);
    }
  }

  /**
   * The fields of a written record: the date is `row[0]`, the name is the
   * fragment just before the first labelled one (never `row[-1]`), the
   * registration number is that fragment with the labels deleted, the phone
   * is the leftmost run of eleven digits and the e-mail the first match or "---".
   */
  lemma WrittenRecordFields(row: Row, env: Env)
    requires Process(row, env).Written?
    ensures LabelIndex(row).Some?
    ensures var i := LabelIndex(row).value; var rec := Process(row, env).record;
      && 1 <= i
      && rec.date == row[0]
      && rec.name == row[i - 1]
      && rec.regNumber == StripLabels(row[i])
      && rec.tier == ExtractTier(row)
      && rec.email == FirstOrNotFound(env.findEmails(ReprText(row)))
      && ParseDate(row[0]).Some?
    ensures var rec := Process(row, env).record;
      exists p: nat :: FirstRunAt(ReprText(row), 0, p) && rec.phone == ReprText(row)[p..p + 11]
  {
    var i := LabelIndex(row).value;
    var data := ReprText(row);
    var name := ItemBefore(row, i);
    var phones := PhoneText(data);
    var emails := FirstOrNotFound(env.findEmails(data));
    assert Process(row, env) == Complete(row, name, phones, emails, StripLabels(row[i]), env);
    DateCarriesNoLabel(row[0]);
    SearchFindsLeftmostRun(data, 0);
  }

  // ---------------------------------------------------------------------------
  // Phone

  /** A phone number that is a run of eleven digits is read by `int()`. */
  lemma FoundPhoneIsNumeric(data: string)
    requires PhoneText(data) != NotFound
    ensures ParseInt(PhoneText(data)) == Some(LiteralValue(PhoneText(data)))
  {
    SearchFindsLeftmostRun(data, 0);
    var p: nat :| FirstRunAt(data, 0, p) && Search(data, 0).value == data[p..p + 11];
    ParseDigits(PhoneText(data));
  }

  /** Eleven digits in any fragment mean the phone is found. */
  lemma PhoneInFragmentFound(row: Row, k: nat, q: nat)
    requires k < |row| && DigitRun(row[k], q, 11)
    ensures PhoneText(ReprText(row)) != NotFound
  {
    var joined := Join(row, "', '");
    JoinHasElement(row, "', '", k);
    var off: nat :| OccursAt(joined, row[k], off);
    var data := ReprText(row);
    assert data == "['" + joined + "']";
    assert DigitRun(data, 2 + off + q, 11) by {
      forall m | 2 + off + q <= m < 2 + off + q + 11 ensures IsDigit(data[m]) {
        assert data[m] == joined[m - 2] == row[k][m - 2 - off];
      }
    }
    SearchFindsLeftmostRun(data, 0);
    assert |NotFound| != 11;
  }

  /** A labelled row without eleven digits raises at `int("---")`. */
  lemma MissingPhoneAborts(row: Row, env: Env)
    requires LabelIndex(row).Some?
    requires forall q: nat :: !DigitRun(ReprText(row), q, 11)
    ensures Process(row, env) == Raised(NotAnInteger(NotFound))
  {
    SearchFindsLeftmostRun(ReprText(row), 0);
    ParseDashesFails();
  }

  /** A labelled row with a phone but a non-numeric registration number raises at its `int()`. */
  lemma NonNumericRegNumberAborts(row: Row, env: Env)
    requires LabelIndex(row).Some?
    requires PhoneText(ReprText(row)) != NotFound
    requires ParseInt(StripLabels(row[LabelIndex(row).value])) == None
    ensures Process(row, env) == Raised(NotAnInteger(StripLabels(row[LabelIndex(row).value])))
  {
    FoundPhoneIsNumeric(ReprText(row));
  }

  // ---------------------------------------------------------------------------
  // The note

  /** A row dated on the day of the run always ends with an empty note. */
  lemma SameDayNoteEmpty(row: Row, env: Env)
    requires Process(row, env).Written?
    requires ParseDate(row[0]) == Some(env.today)
    ensures Process(row, env).record.note == ""
  {
  }

  /** On any other day the note is the duplicate part followed by the roster part. */
  lemma NoteOnOtherDays(row: Row, env: Env)
    requires Process(row, env).Written?
    requires ParseDate(row[0]) != Some(env.today)
    ensures var rec := Process(row, env).record;
      && ParseInt(rec.phone).Some? && ParseInt(rec.regNumber).Some?
      && rec.note == DuplicateNote(env.roster, rec.name, rec.email, ParseInt(rec.phone).value)
                     + ClosureSuffix(env.roster, ParseInt(rec.regNumber).value)
  {
  }

  /** A registration number missing from the roster closes the note with " Закрыт". */
  lemma ClosedNote(row: Row, env: Env, reg: int)
    requires Process(row, env).Written?
    requires ParseDate(row[0]) != Some(env.today)
    requires ParseInt(Process(row, env).record.regNumber) == Some(reg)
    requires forall j :: 0 <= j < |env.roster| ==> env.roster[j].regNumber != reg
    ensures Process(row, env).record.note == ClosedMark
         || Process(row, env).record.note == RepeatedRegistration + ClosedMark
  {
    NoteOnOtherDays(row, env);
    var rec := Process(row, env).record;
    DuplicateNoteMeaning(env.roster, rec.name, rec.email, ParseInt(rec.phone).value);
    ClosureSuffixMeaning(env.roster, reg);
  }

  /** An open registration whose first roster row has НОО 0 keeps the duplicate note unchanged. */
  lemma OpenZeroNooKeepsDuplicateNote(row: Row, env: Env, reg: int, j: nat)
    requires Process(row, env).Written?
    requires ParseDate(row[0]) != Some(env.today)
    requires ParseInt(Process(row, env).record.regNumber) == Some(reg)
    requires IsFirstMatch(env.roster, reg, j) && env.roster[j].noo == 0
    ensures var rec := Process(row, env).record;
      rec.note == DuplicateNote(env.roster, rec.name, rec.email, ParseInt(rec.phone).value)
    ensures Process(row, env).record.note == "" || Process(row, env).record.note == RepeatedRegistration
  {
    NoteOnOtherDays(row, env);
    var rec := Process(row, env).record;
    DuplicateNoteMeaning(env.roster, rec.name, rec.email, ParseInt(rec.phone).value);
    ClosureSuffixMeaning(env.roster, reg);
    assert DuplicateNote(env.roster, rec.name, rec.email, ParseInt(rec.phone).value) + "" ==
           DuplicateNote(env.roster, rec.name, rec.email, ParseInt(rec.phone).value);
  }

  // ---------------------------------------------------------------------------
  // The WhatsApp link

  /** main.py: the link carries `int(phone)`. */
  lemma LinkCarriesPhone(row: Row, env: Env)
    requires Process(row, env).Written? && env.target == PhoneNumber
    ensures var rec := Process(row, env).record;
      ParseInt(rec.phone).Some? && LinkNumber(rec.link) == ParseInt(rec.phone)
  {
    var rec := Process(row, env).record;
    LinkRoundTrip(ParseInt(rec.phone).value);
  }

  /** main_v2.py: the link carries `int(registration_numbers)`. */
  lemma LinkCarriesRegNumber(row: Row, env: Env)
    requires Process(row, env).Written? && env.target == RegistrationNumber
    ensures var rec := Process(row, env).record;
      ParseInt(rec.regNumber).Some? && LinkNumber(rec.link) == ParseInt(rec.regNumber)
  {
    var rec := Process(row, env).record;
    LinkRoundTrip(ParseInt(rec.regNumber).value);
  }

  // ---------------------------------------------------------------------------
  // The whole run

  /** The rows that carry a label, in input order. */
  function Accepted(rows: seq<Row>): (r: seq<Row>)
    ensures |r| <= |rows|
    decreases |rows|
  {
    if |rows| == 0 then []
    else (if LabelIndex(rows[0]).Some? then [rows[0]] else []) + Accepted(rows[1..])
  }

  /** A row is in `Accepted` exactly when it is a row of the input that carries a label. */
  lemma {:induction false} AcceptedMeaning(rows: seq<Row>)
    ensures forall x :: x in Accepted(rows) <==> x in rows && LabelIndex(x).Some?
    decreases |rows|
  {
    if |rows| > 0 {
      var tail := rows[1..];
      AcceptedMeaning(tail);
      var head: seq<Row> := if LabelIndex(rows[0]).Some? then [rows[0]] else [];
      assert Accepted(rows) == head + Accepted(tail);
      assert rows == [rows[0]] + tail;
    }
  }

  /** The outcomes that are not skips, in order. */
  function Kept(outs: seq<RowOutcome>): (r: seq<RowOutcome>)
    ensures forall k :: 0 <= k < |r| ==> r[k].Written? || r[k].Raised?
    decreases |outs|
  {
    if |outs| == 0 then []
    else (if !outs[0].Skipped? then [outs[0]] else []) + Kept(outs[1..])
  }

  /** An outcome is in `Kept` exactly when it is an outcome of the input that is not a skip. */
  lemma {:induction false} KeptMeaning(outs: seq<RowOutcome>)
    ensures forall o :: o in Kept(outs) <==> o in outs && !o.Skipped?
    decreases |outs|
  {
    if |outs| > 0 {
      var tail := outs[1..];
      KeptMeaning(tail);
      var head: seq<RowOutcome> := if !outs[0].Skipped? then [outs[0]] else [];
      assert Kept(outs) == head + Kept(tail);
      assert outs == [outs[0]] + tail;
    }
  }

  /** Without an exception, every kept outcome writes its record, in order. */
  lemma {:induction false} CollectWithoutErrors(outs: seq<RowOutcome>)
    requires forall j :: 0 <= j < |outs| ==> !outs[j].Raised?
    ensures Collect(outs).failure == None
    ensures |Collect(outs).written| == |Kept(outs)|
    ensures forall k :: 0 <= k < |Kept(outs)| ==> Kept(outs)[k] == Written(Collect(outs).written[k])
    decreases |outs|
  {
    if |outs| > 0 {
      assert forall j :: 0 <= j < |outs[1..]| ==> outs[1..][j] == outs[j + 1];
      CollectWithoutErrors(outs[1..]);
    }
  }

  /** Skipping exactly the unlabelled rows keeps the outcomes of the labelled rows, in order. */
  lemma {:induction false} KeptAreAccepted(rows: seq<Row>, env: Env)
    ensures Kept(Outcomes(rows, env)) == Outcomes(Accepted(rows), env)
    decreases |rows|
  {
    if |rows| > 0 {
      var outs := Outcomes(rows, env);
      assert outs == [Process(rows[0], env)] + Outcomes(rows[1..], env);
      assert outs[0] == Process(rows[0], env) && outs[1..] == Outcomes(rows[1..], env);
      KeptAreAccepted(rows[1..], env);
      SkippedIffNoLabel(rows[0], env);
      if LabelIndex(rows[0]).Some? {
        var acc := Accepted(rows);
        assert acc == [rows[0]] + Accepted(rows[1..]);
        assert acc[0] == rows[0] && acc[1..] == Accepted(rows[1..]);
        assert Outcomes(acc, env) == [Process(rows[0], env)] + Outcomes(Accepted(rows[1..]), env);
        assert Kept(outs) == [outs[0]] + Kept(outs[1..]);
      } else {
        assert Accepted(rows) == Accepted(rows[1..]);
        assert Kept(outs) == Kept(outs[1..]);
      }
    }
  }

  /**
   * Without an exception, the run writes one record per labelled row, in
   * input order, and nothing for the other rows.
   */
  lemma RunWithoutErrors(rows: seq<Row>, env: Env)
    requires forall j :: 0 <= j < |rows| ==> !Process(rows[j], env).Raised?
    ensures Run(rows, env).failure == None
    ensures |Run(rows, env).written| == |Accepted(rows)|
    ensures forall k :: 0 <= k < |Accepted(rows)| ==>
      Process(Accepted(rows)[k], env) == Written(Run(rows, env).written[k])
  {
    var outs := Outcomes(rows, env);
    OutcomesAt(rows, env);
    assert forall j :: 0 <= j < |outs| ==> !outs[j].Raised?;
    CollectWithoutErrors(outs);
    KeptAreAccepted(rows, env);
    OutcomesAt(Accepted(rows), env);
  }

  /** The first exception ends the collection: what came before stays, nothing after counts. */
  lemma {:induction false} CollectStopsAtFirstError(outs: seq<RowOutcome>, i: nat)
    requires i < |outs| && outs[i].Raised?
    requires forall j :: 0 <= j < i ==> !outs[j].Raised?
    ensures Collect(outs[..i]).failure == None
    ensures Collect(outs) == RunResult(Collect(outs[..i]).written, Some(outs[i].failure))
    decreases i
  {
    if i > 0 {
      CollectStopsAtFirstError(outs[1..], i - 1);
      assert outs[..i][1..] == outs[1..][..i - 1];
    }
  }

  /**
   * The first exception ends the run: the records of the rows before it
   * stay written, and nothing after it is looked at.
   */
  lemma RunStopsAtFirstError(rows: seq<Row>, env: Env, i: nat)
    requires i < |rows| && Process(rows[i], env).Raised?
    requires forall j :: 0 <= j < i ==> !Process(rows[j], env).Raised?
    ensures Run(rows[..i], env).failure == None
    ensures Run(rows, env) == RunResult(Run(rows[..i], env).written, Some(Process(rows[i], env).failure))
  {
    var outs := Outcomes(rows, env);
    OutcomesAt(rows, env);
    OutcomesAt(rows[..i], env);
    CollectStopsAtFirstError(outs, i);
    assert outs[..i] == Outcomes(rows[..i], env);
  }

  /** Every record collected is written by one of the outcomes. */
  lemma {:induction false} CollectedRecordsComeFromOutcomes(outs: seq<RowOutcome>)
    ensures forall rec :: rec in Collect(outs).written ==> Written(rec) in outs
    decreases |outs|
  {
    if |outs| > 0 {
      CollectedRecordsComeFromOutcomes(outs[1..]);
      assert outs == [outs[0]] + outs[1..];
    }
  }

  /** Every written record is the annotation of one of the rows. */
  lemma RunRecordsComeFromRows(rows: seq<Row>, env: Env)
    ensures forall rec :: rec in Run(rows, env).written ==>
      exists j :: 0 <= j < |rows| && Process(rows[j], env) == Written(rec)
  {
    var outs := Outcomes(rows, env);
    OutcomesAt(rows, env);
    CollectedRecordsComeFromOutcomes(outs);
    forall rec | rec in Run(rows, env).written
      ensures exists j :: 0 <= j < |rows| && Process(rows[j], env) == Written(rec)
    {
      var j :| 0 <= j < |outs| && outs[j] == Written(rec);
    }
  }

  /** Every written record carries in its link the number its target column names. */
  lemma RunLinks(rows: seq<Row>, env: Env)
    ensures forall rec :: rec in Run(rows, env).written && env.target == PhoneNumber ==>
      ParseInt(rec.phone).Some? && LinkNumber(rec.link) == ParseInt(rec.phone)
    ensures forall rec :: rec in Run(rows, env).written && env.target == RegistrationNumber ==>
      ParseInt(rec.regNumber).Some? && LinkNumber(rec.link) == ParseInt(rec.regNumber)
  {
    RunRecordsComeFromRows(rows, env);
    forall rec | rec in Run(rows, env).written
      ensures env.target == PhoneNumber ==> ParseInt(rec.phone).Some? && LinkNumber(rec.link) == ParseInt(rec.phone)
      ensures env.target == RegistrationNumber ==>
        ParseInt(rec.regNumber).Some? && LinkNumber(rec.link) == ParseInt(rec.regNumber)
    {
      var j :| 0 <= j < |rows| && Process(rows[j], env) == Written(rec);
      if env.target == PhoneNumber {
        LinkCarriesPhone(rows[j], env);
      } else {
        LinkCarriesRegNumber(rows[j], env);
      }
    }
  }

  /** The CSV rows of records show each record's fields in header order. */
  lemma CsvFileColumns(w: seq<Record>)
    ensures var file := CsvFile(w);
      && |file| == |w| + 1 && file[0] == Header
      && forall k :: 1 <= k < |file| ==>
           && file[k] == Fields(w[k - 1])
           && |file[k]| == |Header|
           && file[k][0] == w[k - 1].date && file[k][1] == w[k - 1].name
           && file[k][2] == w[k - 1].phone && file[k][3] == w[k - 1].email
           && file[k][4] == w[k - 1].regNumber
           && file[k][5] == (if w[k - 1].tier.Some? then w[k - 1].tier.value else "")
           && file[k][6] == w[k - 1].note && file[k][7] == w[k - 1].link
  {
  }

  /**
   * In the CSV file of a run, every record row has the eight header
   * columns, and its WhatsApp cell carries the number of the column the
   * link target names (Телефон for main.py, Регистрационный номер for main_v2.py).
   */
  lemma CsvRowsCarryLinks(rows: seq<Row>, env: Env)
    ensures var file := CsvFile(Run(rows, env).written);
      && file[0] == Header
      && (forall k :: 1 <= k < |file| ==> |file[k]| == |Header|)
      && (env.target == PhoneNumber ==>
            forall k :: 1 <= k < |file| ==> ParseInt(file[k][2]).Some? && LinkNumber(file[k][7]) == ParseInt(file[k][2]))
      && (env.target == RegistrationNumber ==>
            forall k :: 1 <= k < |file| ==> ParseInt(file[k][4]).Some? && LinkNumber(file[k][7]) == ParseInt(file[k][4]))
  {
    var w := Run(rows, env).written;
    RunLinks(rows, env);
    CsvFileColumns(w);
    assert forall i :: 0 <= i < |w| ==> w[i] in w;
  }
}
