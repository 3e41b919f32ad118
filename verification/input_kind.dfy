/** The choice between the CSV and the XLSX reading path for an upload. */
module InputKind {
  import opened JsStrings

  datatype Kind = Csv | Xlsx

  /** The multer file record, without its bytes. */
  datatype UploadedFile = UploadedFile(mimetype: JsString, originalname: JsString)

  const CsvMimeType: JsString := Lit("text/csv")
  const CsvExtension: JsString := Lit(".csv")

  /** The name ends in ".csv" in any mix of letter case, stated unit by unit
      without lower-casing. */
  predicate HasCsvExtension(name: JsString)
  {
    var n := |name|;
    && n >= 4
    && name[n - 4] == 0x2E
    && (name[n - 3] == 0x63 || name[n - 3] == 0x43)
    && (name[n - 2] == 0x73 || name[n - 2] == 0x53)
    && (name[n - 1] == 0x76 || name[n - 1] == 0x56)
  }

  /** `mimetype === 'text/csv' || originalname.toLowerCase().endsWith('.csv')`
      picks the CSV path; anything else is read as a workbook. */
  function ChooseKind(f: UploadedFile): (k: Kind)
    ensures k == Csv <==> f.mimetype == CsvMimeType || HasCsvExtension(f.originalname)
    ensures k == Xlsx <==> f.mimetype != CsvMimeType && !HasCsvExtension(f.originalname)
  {
    var lower := ToLowerCase(f.originalname);
    var n := |lower|;
    assert EndsWith(lower, CsvExtension) <==> HasCsvExtension(f.originalname) by {
      if n >= 4 {
        assert lower[n - 4..] == [lower[n - 4], lower[n - 3], lower[n - 2], lower[n - 1]];
        assert CsvExtension == [0x2E, 0x63, 0x73, 0x76];
      }
    }
    if f.mimetype == CsvMimeType || EndsWith(lower, CsvExtension) then Csv else Xlsx
  }

  /** A spreadsheet upload under an upper-case ".CSV" name is still read as
      CSV. */
  lemma UpperCaseNameIsCsv()
    ensures ChooseKind(UploadedFile(Lit("application/vnd.ms-excel"), Lit("LOG.CSV"))) == Csv
  {
    assert HasCsvExtension(Lit("LOG.CSV"));
  }
}
