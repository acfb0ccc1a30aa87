/** main_v2.py: the same engine behind two classes; the WhatsApp link carries the registration number. */
module MainV2 {
  import opened Wrappers
  import opened Text
  import opened Dates
  import opened Registration
  import Properties

  class EmailParser {
    /** `EmailParser.extract_tier`: "Бизнес-Партнер" first, then "Привилегированный клиент", else `None`. */
    static function ExtractTier(textList: seq<string>): (r: Option<string>)
      ensures r == Some(BusinessPartner) <==> Contains(Join(textList, " "), BusinessPartner)
      ensures r == Some(PrivilegedClient) <==>
        !Contains(Join(textList, " "), BusinessPartner) && Contains(Join(textList, " "), PrivilegedClient)
      ensures r == None <==>
        !Contains(Join(textList, " "), BusinessPartner) && !Contains(Join(textList, " "), PrivilegedClient)
    {
      Registration.ExtractTier(textList)
    }
  }

  class CSVWriter {
    const filename: string

    constructor (filename: string)
      ensures this.filename == filename
    {
      this.filename := filename;
    }

    /**
     * `save_to_csv(data_registration, my_team)`: the header, then one record
     * per labelled row; today's date and the e-mail pattern are parameters.
     * Every record's WhatsApp cell carries `int()` of its Регистрационный номер cell.
     */
    method SaveToCsv(dataRegistration: seq<Row>, myTeam: Roster, today: Date, findEmails: string -> seq<string>)
      returns (file: seq<seq<string>>, failure: Option<Failure>)
      ensures file == CsvFile(Run(dataRegistration, Env(myTeam, today, findEmails, RegistrationNumber)).written)
      ensures failure == Run(dataRegistration, Env(myTeam, today, findEmails, RegistrationNumber)).failure
      ensures |file| > 0 && file[0] == Header
      ensures forall k :: 1 <= k < |file| ==>
        |file[k]| == |Header| && ParseInt(file[k][4]).Some? && LinkNumber(file[k][7]) == ParseInt(file[k][4])
    {
      var env := Env(myTeam, today, findEmails, RegistrationNumber);
      file, failure := SaveRows(dataRegistration, env);
      Properties.CsvRowsCarryLinks(dataRegistration, env);
    }
  }
}
