/** main.py: the module-level `save_to_csv`, whose WhatsApp link carries the phone number. */
module MainV1 {
  import opened Wrappers
  import opened Text
  import opened Dates
  import opened Registration
  import Properties

  /** `mail_login.split("@")[0]`: the login up to its first '@', or all of it. */
  function LocalPart(mailLogin: string): (r: string)
    ensures |r| <= |mailLogin| && r == mailLogin[..|r|] && '@' !in r
    ensures |r| == |mailLogin| || mailLogin[|r|] == '@'
  {
    if |mailLogin| == 0 || mailLogin[0] == '@' then ""
    else [mailLogin[0]] + LocalPart(mailLogin[1..])
  }

  /** `f'{mail_login.split("@")[0]}.csv'`: the output file is named after the login's local part. */
  function CsvFileName(mailLogin: string): (r: string)
    ensures |r| >= 4 && r[|r| - 4..] == ".csv" && r[..|r| - 4] == LocalPart(mailLogin)
  {
    LocalPart(mailLogin) + ".csv"
  }

  /**
   * `save_to_csv(data_registration, my_team)`: the header, then one record
   * per labelled row; today's date and the e-mail pattern are parameters.
   * Every record's WhatsApp cell carries `int()` of its Телефон cell.
   */
  method SaveToCsv(dataRegistration: seq<Row>, myTeam: Roster, today: Date, findEmails: string -> seq<string>)
    returns (file: seq<seq<string>>, failure: Option<Failure>)
    ensures file == CsvFile(Run(dataRegistration, Env(myTeam, today, findEmails, PhoneNumber)).written)
    ensures failure == Run(dataRegistration, Env(myTeam, today, findEmails, PhoneNumber)).failure
    ensures |file| > 0 && file[0] == Header
    ensures forall k :: 1 <= k < |file| ==>
      |file[k]| == |Header| && ParseInt(file[k][2]).Some? && LinkNumber(file[k][7]) == ParseInt(file[k][2])
  {
    var env := Env(myTeam, today, findEmails, PhoneNumber);
    file, failure := SaveRows(dataRegistration, env);
    Properties.CsvRowsCarryLinks(dataRegistration, env);
  }
}
