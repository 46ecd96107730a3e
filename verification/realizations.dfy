/**
 The static table that maps a two-digit module number to the realization the
 footer names and the date the footer records.
 */
module Realizations {
  import opened Wrappers
  import opened Text

  /** Text that stays on one line. */
  type Label = s: string | NoNewline(s) witness ""

  /** One table entry: the realization name (checked to be a single line) and
      the verification date. */
  datatype Realization = Realization(name: Label, date: string)

  /** The table's rows, indexed by the value of their two-digit key; keys
      without a row give `None`. */
  function Entry(key: nat): (r: Option<Realization>)
  {
    if key < 30 then EntryBelow30(key)
    else if key < 50 then EntryBelow50(key)
    else EntryFrom50(key)
  }

  function EntryBelow30(key: nat): (r: Option<Realization>)
  {
    match key
      case 9 => Some(Realization("aug19", "2025-10-13"))
      case 10 => Some(Realization("landmatrix_dec18", "2025-10-13"))
      case 11 => Some(Realization("default", "2025-10-13"))
      case 12 => Some(Realization("glo_jan16", "2025-10-13"))
      case 13 => Some(Realization("endo_jun18", "2025-10-13"))
      case 14 => Some(Realization("managementcalib_aug19", "2025-10-13"))
      case 15 => Some(Realization("anthropometrics_jan18", "2025-10-13"))
      case 16 => Some(Realization("sector_may15", "2025-10-13"))
      case 17 => Some(Realization("sector_may15", "2025-10-13"))
      case 18 => Some(Realization("dual_oct16", "2025-10-13"))
      case 20 => Some(Realization("substitution_dec18", "2025-10-13"))
      case 21 => Some(Realization("off", "2025-10-13"))
      case 22 => Some(Realization("land_feb18", "2025-10-13"))
      case 28 => Some(Realization("feb15", "2025-10-13"))
      case 29 => Some(Realization("cropland_apr16", "2025-10-13"))
      case _ => None
  }

  function EntryBelow50(key: nat): (r: Option<Realization>)
  {
    match key
      case 30 => Some(Realization("croparea_nov24", "2025-10-13"))
      case 31 => Some(Realization("static", "2025-10-13"))
      case 32 => Some(Realization("dynamic_may24", "2025-10-13"))
      case 34 => Some(Realization("static", "2025-10-13"))
      case 35 => Some(Realization("pot_forest_feb21", "2025-10-13"))
      case 36 => Some(Realization("off", "2025-10-13"))
      case 37 => Some(Realization("off", "2025-10-13"))
      case 38 => Some(Realization("fixed_nov23", "2025-10-13"))
      case 39 => Some(Realization("maccs_aug22", "2025-10-13"))
      case 40 => Some(Realization("default", "2025-10-13"))
      case 41 => Some(Realization("endo_aug13", "2025-10-13"))
      case 42 => Some(Realization("all_sectors_aug13", "2025-10-13"))
      case 43 => Some(Realization("watavail_aug13", "2025-10-13"))
      case 44 => Some(Realization("bii_target_apr24", "2025-10-13"))
      case 45 => Some(Realization("ipcc2022", "2025-10-13"))
      case _ => None
  }

  function EntryFrom50(key: nat): (r: Option<Realization>)
  {
    match key
      case 50 => Some(Realization("nr50_static", "2025-10-13"))
      case 51 => Some(Realization("n51_ipcc2006", "2025-10-13"))
      case 52 => Some(Realization("cc", "2025-10-13"))
      case 53 => Some(Realization("ipcc2006_13", "2025-10-13"))
      case 54 => Some(Realization("off", "2025-10-13"))
      case 55 => Some(Realization("apr19", "2025-10-13"))
      case 56 => Some(Realization("emis_policy", "2025-10-13"))
      case 57 => Some(Realization("emis_policy", "2025-10-13"))
      case 58 => Some(Realization("on", "2025-10-13"))
      case 59 => Some(Realization("static_jan19", "2025-10-13"))
      case 60 => Some(Realization("1st2ndgen_priced_feb24", "2025-10-13"))
      case 62 => Some(Realization("material_feb21", "2025-10-13"))
      case 70 => Some(Realization("fbask_jan16", "2025-10-13"))
      case 71 => Some(Realization("foragebased_jul23", "2025-10-13"))
      case 73 => Some(Realization("static_jan21", "2025-10-13"))
      case 80 => Some(Realization("nlp_par", "2025-10-13"))
      case _ => None
  }

  /** The value of a two-digit decimal string. */
  function TwoDigitValue(number: string): (v: nat)
    requires |number| == 2 && AllDigits(number)
    ensures v < 100
  {
    (number[0] as int - '0' as int) * 10 + (number[1] as int - '0' as int)
  }

  /** A table lookup. Keys are exact two-character strings: anything that is not
      two ASCII digits is absent, so "9" is not the key "09". A number finds a
      row exactly when it is the zero-padded two-digit form of that row's
      number, and then it finds that row. */
  function Lookup(number: string): (r: Option<Realization>)
    ensures r.Some? <==> exists v :: v < 100 && Entry(v).Some? && number == KeyOf(v)
    ensures r.Some? ==> (&& |number| == 2 && AllDigits(number)
                         && number == KeyOf(TwoDigitValue(number))
                         && r == Entry(TwoDigitValue(number)))
  {
    if |number| == 2 && AllDigits(number) then
      var v := TwoDigitValue(number);
      var k := KeyOf(v);
      assert k[0] == number[0] && k[1] == number[1];
      Entry(v)
    else
      None
  }

  /** The key of row `v`: its value as two decimal digits, zero-padded. */
  function KeyOf(v: nat): (k: string)
    requires v < 100
    ensures |k| == 2 && AllDigits(k)
    ensures TwoDigitValue(k) == v
  {
    [('0' as int + v / 10) as char, ('0' as int + v % 10) as char]
  }

  /** Looking up the two-digit form of a row number finds that row. */
  lemma LookupByRow(v: nat)
    requires v < 100
    ensures Lookup(KeyOf(v)) == Entry(v)
  {
  }

  /** Every row is dated 2025-10-13, so no date spans a line break either. */
  lemma TableDates(number: string)
    requires Lookup(number).Some?
    ensures Lookup(number).value.date == "2025-10-13"
    ensures NoNewline(Lookup(number).value.date)
  {
  }

  /** Keys are exact strings: a one-digit number is not its zero-padded form. */
  lemma UnpaddedNumbersAreAbsent()
    ensures Lookup("9").None? && Lookup("09").Some?
  {
  }

  lemma Module30Entry()
    ensures Lookup("30") == Some(Realization("croparea_nov24", "2025-10-13"))
  {
  }
}
