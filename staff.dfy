/**
  The delegate registry of staff_service.py: a table of delegates with a
  duplicate-detection key, numeric ID allocation, registration, bulk and
  per-day check-in, and bulk import of spreadsheet rows.

  The table is the list of rows the CSV file holds, passed in and returned.
  Cells that pandas may hold as NaN are modelled explicitly: the per-day
  check-in cells of a row that never had one set, and the cells of an
  imported spreadsheet row.
*/
module Staff {
  import opened Wrappers
  import opened Text
  import opened Seqs

  // ----- cell values -----

  /** A pandas cell: missing (NaN), a boolean, an integer or a string. */
  datatype Value = Nan | Bool(b: bool) | Num(n: int) | Str(s: string)

  /** Python's `str(v)`, which `astype(str)` applies to every cell: NaN becomes "nan". */
  function StrOf(v: Value): string {
    match v
    case Nan => "nan"
    case Bool(b) => if b then "True" else "False"
    case Num(n) => IntToString(n)
    case Str(s) => s
  }

  /** Python's `bool(v)`, which `astype(bool)` applies to every cell: NaN is true. */
  function Truthy(v: Value): bool {
    match v
    case Nan => true
    case Bool(b) => b
    case Num(n) => n != 0
    case Str(s) => s != ""
  }

  /** The columns of the registry, in file order. */
  const Columns: seq<string> := [
    "Nationality", "ID", "Name", "Category", "Organization", "RoleTitle",
    "Email", "Phone", "BadgePhoto", "Notes", "CheckedIn", "Day1_CheckIn", "Day2_CheckIn",
    "Day3_CheckIn", "Day4_CheckIn", "Day5_CheckIn", "CreatedAt"]

  // ----- rows -----

  /** The five per-day check-in cells; `None` is a cell that was never set (NaN). */
  datatype Days = Days(d1: Option<bool>, d2: Option<bool>, d3: Option<bool>, d4: Option<bool>, d5: Option<bool>) {

    function Get(day: int): Option<bool>
      requires 1 <= day <= 5
    {
      if day == 1 then d1 else if day == 2 then d2 else if day == 3 then d3 else if day == 4 then d4 else d5
    }

    function Set(day: int, v: Option<bool>): (r: Days)
      requires 1 <= day <= 5
      ensures r.Get(day) == v
      ensures forall other :: 1 <= other <= 5 && other != day ==> r.Get(other) == Get(other)
    {
      if day == 1 then this.(d1 := v)
      else if day == 2 then this.(d2 := v)
      else if day == 3 then this.(d3 := v)
      else if day == 4 then this.(d4 := v)
      else this.(d5 := v)
    }
  }

  /** The day cells of a row appended without them: pandas fills them with NaN. */
  const NoDays: Days := Days(None, None, None, None, None)

  datatype Delegate = Delegate(
    nationality: string,
    id: string,
    name: string,
    category: string,
    organization: string,
    roleTitle: string,
    email: string,
    phone: string,
    badgePhoto: string,
    notes: string,
    checkedIn: bool,
    days: Days,
    createdAt: string)

  // ----- duplicate key -----

  /** `_dedupe_key`: trimmed, lower-cased name and organization joined by "|". */
  function DedupeKey(name: string, org: string): string {
    Lower(Trim(name)) + "|" + Lower(Trim(org))
  }

  /** The key ignores surrounding white space and letter case. */
  lemma DedupeKeyNormalised(name: string, org: string)
    ensures DedupeKey(Lower(Trim(name)), Lower(Trim(org))) == DedupeKey(name, org)
    ensures DedupeKey(Trim(name), Trim(org)) == DedupeKey(name, org)
  {
    TrimLowerCommute(Trim(name));
    TrimLowerCommute(Trim(org));
    TrimIdempotent(name);
    TrimIdempotent(org);
    LowerIdempotent(Trim(name));
    LowerIdempotent(Trim(org));
  }

  /** When neither normalised part contains "|", the key determines both parts. */
  lemma DedupeKeyParts(name: string, org: string)
    requires '|' !in Lower(Trim(name)) && '|' !in Lower(Trim(org))
    ensures SplitOn(DedupeKey(name, org), '|') == [Lower(Trim(name)), Lower(Trim(org))]
  {
    SplitOnPiece(Lower(Trim(name)), '|', Lower(Trim(org)));
    SplitOnNoSep(Lower(Trim(org)), '|');
  }

  /** A normalised text: what strip() and lower() leave unchanged. */
  predicate Normal(s: string) {
    Trimmed(s) && Lower(s) == s
  }

  lemma DedupeKeyOfNormal(name: string, org: string)
    requires Normal(name) && Normal(org)
    ensures DedupeKey(name, org) == name + "|" + org
  {
    TrimOfTrimmed(name);
    TrimOfTrimmed(org);
  }

  /** A "|" inside a name or organization makes two different (name, organization) pairs share a key. */
  lemma DedupeKeyCollides(a: string, b: string, c: string)
    requires Normal(a) && Normal(b) && Normal(c)
    ensures (a + "|" + b, c) != (a, b + "|" + c)
    ensures DedupeKey(a + "|" + b, c) == DedupeKey(a, b + "|" + c)
  {
    assert |a + "|" + b| != |a|;
    NormalJoin(a, b);
    NormalJoin(b, c);
    DedupeKeyOfNormal(a + "|" + b, c);
    DedupeKeyOfNormal(a, b + "|" + c);
    JoinAssoc(a, b, c);
  }

  lemma JoinAssoc(a: string, b: string, c: string)
    ensures a + "|" + b + "|" + c == a + "|" + (b + "|" + c)
  {
  }

  /** Joining two normalised texts with "|" gives a normalised text. */
  lemma NormalJoin(x: string, y: string)
    requires Normal(x) && Normal(y)
    ensures Normal(x + "|" + y)
  {
    var j := x + "|" + y;
    assert Lower("|") == "|";
    LowerAppend(x, "|");
    LowerAppend(x + "|", y);
    assert j[0] == (if x == [] then '|' else x[0]);
    assert j[|j| - 1] == (if y == [] then '|' else y[|y| - 1]);
  }

  // ----- reading a saved table back -----

  /**
    How the code reads cells. `text` is how the import reads a spreadsheet
    cell, `rowKey` the key `_norm_str(Name) + "|" + _norm_str(Organization)`
    of a stored row, `day` how a per-day check-in cell reads back, and
    `number` what `float()` makes of a phone text when save_staff_df formats
    the Phone column (`FormatPhone`). `AsWrittenWith(load, number)` follows the
    source: the registry is reloaded from its
    CSV file before every operation, `load` is what the reload makes of a saved
    text (`Loaded` for pandas' defaults), and `str()`, `astype(str)` and
    `bool()` turn NaN into "nan" or true. `AsIntended(number)` reads an empty cell as
    the blank text, or the unset day, that it stands for.
  */
  datatype Reading = Reading(text: Value -> string, rowKey: Delegate -> string, day: Option<bool> -> bool,
                             number: string -> NumberReading)

  /** The texts `read_csv` loads as NaN by default (pandas' default `na_values`). */
  const CsvNaValues: set<string> := {
    "", "#N/A", "#N/A N/A", "#NA", "-1.#IND", "-1.#QNAN", "-NaN", "-nan", "1.#IND", "1.#QNAN",
    "<NA>", "N/A", "NA", "NULL", "NaN", "None", "n/a", "nan", "null"}

  /** A saved text cell as `read_csv` loads it back with its defaults: NaN for an NA text, in particular for "". */
  function Loaded(s: string): (v: Value)
    ensures v == Nan <==> s in CsvNaValues
    ensures v != Nan ==> v == Str(s)
    ensures s == "" ==> v == Nan
  {
    if s in CsvNaValues then Nan else Str(s)
  }

  /** The key of a stored row as the saved texts give it. */
  function StoredKey(d: Delegate): string {
    DedupeKey(d.name, d.organization)
  }

  /** The key of a stored row as the code computes it: on the cells the reload gives. */
  function LoadedKey(load: string -> Value): Delegate -> string {
    (d: Delegate) => DedupeKey(StrOf(load(d.name)), StrOf(load(d.organization)))
  }

  /** A day cell read back as written, `bool(cell)`: a cell never set is NaN, and NaN is true. */
  function DayAsWritten(c: Option<bool>): (b: bool)
    ensures b <==> c != Some(false)
  {
    Truthy(match c case None => Nan case Some(x) => Bool(x))
  }

  /** A day cell read back as intended: a cell never set means "not checked in". */
  function DayAsIntended(c: Option<bool>): (b: bool)
    ensures b <==> c == Some(true)
  {
    c.GetOr(false)
  }

  /** The source's reading, for a given reload of saved texts and a given `float()`. */
  function AsWrittenWith(load: string -> Value, number: string -> NumberReading): Reading {
    Reading(ImportTextAsWritten, LoadedKey(load), DayAsWritten, number)
  }

  /** The source's own reading: the registry reloaded with pandas' defaults. */
  function AsWritten(number: string -> NumberReading): Reading {
    AsWrittenWith(Loaded, number)
  }

  /** The reading the code evidently intends; phones are formatted as written. */
  function AsIntended(number: string -> NumberReading): Reading {
    Reading(ImportText, StoredKey, DayAsIntended, number)
  }

  /** A saved text whose part of the key survives the reload: normalised, it reads back as itself. */
  predicate KeyStable(load: string -> Value, s: string) {
    Lower(Trim(StrOf(load(s)))) == Lower(Trim(s))
  }

  /** The empty text is not stable when it reloads as NaN, whose key part is "nan". */
  lemma BlankReloadsAsNan(load: string -> Value)
    requires load("") == Nan
    ensures Lower(Trim(StrOf(load("")))) == "nan"
    ensures !KeyStable(load, "")
  {
    NanText();
    assert Lower(Trim("")) == "";
    assert |"nan"| != |""|;
  }

  /** The key part of NaN is "nan". */
  lemma NanText()
    ensures Lower(Trim(StrOf(Nan))) == "nan"
  {
    assert Trimmed("nan");
    TrimOfTrimmed("nan");
  }

  /** Some row of the table, read the given way, has this key. */
  predicate KeyTaken(rd: Reading, table: seq<Delegate>, key: string) {
    exists i :: 0 <= i < |table| && rd.rowKey(table[i]) == key
  }

  /** A key built from a blank organization never equals a key whose organization part is "nan". */
  lemma BlankKeyDiffers(name: string, org: string, other: string, nanOrg: string)
    requires Trim(org) == "" && Lower(Trim(nanOrg)) == "nan"
    ensures DedupeKey(name, org) != DedupeKey(other, nanOrg)
  {
    var a := DedupeKey(name, org);
    var b := DedupeKey(other, nanOrg);
    assert Lower(Trim(org)) == "";
    assert a[|a| - 1] == '|';
    assert b[|b| - 1] == 'n';
  }

  // ----- ID allocation -----

  function Ids(table: seq<Delegate>): (r: seq<string>)
    ensures |r| == |table| && forall i :: 0 <= i < |table| ==> r[i] == table[i].id
  {
    seq(|table|, i requires 0 <= i < |table| => table[i].id)
  }

  function NumOr0(id: string): nat {
    ParseNat(id).GetOr(0)
  }

  /** The largest numeric ID, or 0 when no ID is numeric (`max` of `pd.to_numeric(..., errors="coerce")`, NaN dropped). */
  function MaxNumericId(ids: seq<string>): nat
    decreases |ids|
  {
    if |ids| == 0 then 0
    else
      var front := MaxNumericId(ids[..|ids| - 1]);
      var last := NumOr0(ids[|ids| - 1]);
      if last > front then last else front
  }

  /** The maximum bounds every numeric ID and is one of them, unless it is 0. */
  lemma {:induction false} MaxNumericIdIsMax(ids: seq<string>)
    ensures forall i :: 0 <= i < |ids| && ParseNat(ids[i]).Some? ==> ParseNat(ids[i]).value <= MaxNumericId(ids)
    ensures MaxNumericId(ids) == 0 || exists i :: 0 <= i < |ids| && ParseNat(ids[i]) == Some(MaxNumericId(ids))
    decreases |ids|
  {
    if |ids| > 0 {
      var front := ids[..|ids| - 1];
      MaxNumericIdIsMax(front);
      assert forall i :: 0 <= i < |ids| - 1 ==> front[i] == ids[i];
      if MaxNumericId(ids) != 0 && NumOr0(ids[|ids| - 1]) <= MaxNumericId(front) {
        var i :| 0 <= i < |front| && ParseNat(front[i]) == Some(MaxNumericId(front));
        assert ParseNat(ids[i]) == Some(MaxNumericId(ids));
      }
    }
  }

  /** `_next_id`: one more than the largest numeric ID; "1" for an empty table or one with no numeric ID. */
  function NextId(ids: seq<string>): string {
    NatToString(MaxNumericId(ids) + 1)
  }

  /** The two cases of `_next_id`. */
  lemma NextIdCases(ids: seq<string>)
    ensures (forall i :: 0 <= i < |ids| ==> ParseNat(ids[i]).None?) ==> NextId(ids) == "1"
    ensures forall i :: 0 <= i < |ids| && ParseNat(ids[i]).Some? ==>
              ParseNat(NextId(ids)).Some? && ParseNat(NextId(ids)).value > ParseNat(ids[i]).value
  {
    MaxNumericIdIsMax(ids);
    ParseNatToString(MaxNumericId(ids) + 1);
  }

  /** The new ID differs from every existing ID. */
  lemma NextIdFresh(ids: seq<string>)
    ensures forall i :: 0 <= i < |ids| ==> ids[i] != NextId(ids)
  {
    var m := MaxNumericId(ids);
    MaxNumericIdIsMax(ids);
    ParseNatToString(m + 1);
    forall i | 0 <= i < |ids|
      ensures ids[i] != NextId(ids)
    {
      assert ParseNat(NextId(ids)) == Some(m + 1);
      assert ParseNat(ids[i]).Some? ==> ParseNat(ids[i]).value <= m;
    }
  }

  /** Appending a numeric ID makes it the maximum if it is at least the old one. */
  lemma MaxNumericIdAppend(ids: seq<string>, v: nat)
    requires v >= MaxNumericId(ids)
    ensures MaxNumericId(ids + [NatToString(v)]) == v
  {
    var t := NatToString(v);
    var grown := ids + [t];
    ParseNatToString(v);
    assert grown[..|grown| - 1] == ids;
    assert grown[|grown| - 1] == t;
    assert NumOr0(t) == v;
  }

  // ----- registration -----

  /** The outcome of an operation that reports (ok, message) and may save a new table. */
  datatype Outcome = Outcome(ok: bool, message: string, table: seq<Delegate>)

  /**
    The row register_staff saves: every text field trimmed except the photo
    path, not checked in, no day set; save_staff_df then formats the phone.
  */
  function RegisteredRow(number: string -> NumberReading, id: string, name: string, category: string, organization: string, roleTitle: string,
                         email: string, phone: string, badgePhoto: string, notes: string, nationality: string,
                         now: string): Delegate {
    Delegate(Trim(nationality), id, Trim(name), Trim(category), Trim(organization), Trim(roleTitle),
             Trim(email), FormatPhone(Str(Trim(phone)), number), badgePhoto, Trim(notes), false, NoDays, now)
  }

  /**
    register_staff: rejects a blank name, then a blank category, then a name
    and organization whose key some row of the reloaded table already has;
    otherwise appends one row.
  */
  function Register(rd: Reading, table: seq<Delegate>, name: string, category: string, organization: string,
                    roleTitle: string, email: string, phone: string, badgePhoto: string, notes: string,
                    nationality: string, now: string): (r: Outcome)
    ensures Trim(name) == "" ==> r == Outcome(false, "Name is required.", table)
    ensures Trim(name) != "" && Trim(category) == "" ==> r == Outcome(false, "Category is required.", table)
    ensures Trim(name) != "" && Trim(category) != "" && KeyTaken(rd, table, DedupeKey(name, organization)) ==>
              r == Outcome(false, "This person already exists for that organization.", table)
    ensures r.ok <==> Trim(name) != "" && Trim(category) != "" && !KeyTaken(rd, table, DedupeKey(name, organization))
    ensures r.ok ==> r.message == "Saved: " + NextId(Ids(table))
                     && r.table == table + [RegisteredRow(rd.number, NextId(Ids(table)), name, category, organization, roleTitle,
                                                          email, phone, badgePhoto, notes, nationality, now)]
  {
    if Trim(name) == "" then Outcome(false, "Name is required.", table)
    else if Trim(category) == "" then Outcome(false, "Category is required.", table)
    else if |table| > 0 && KeyTaken(rd, table, DedupeKey(name, organization)) then
      Outcome(false, "This person already exists for that organization.", table)
    else
      var id := NextId(Ids(table));
      Outcome(true, "Saved: " + id,
              table + [RegisteredRow(rd.number, id, name, category, organization, roleTitle, email, phone, badgePhoto, notes, nationality, now)])
  }

  /**
    After a registration, the same person (in any letter case or spacing) is
    refused, and the new ID is unique, for every reading that gives the new
    row the key it was registered under (`RegisteredKeyKept`).
  */
  lemma RegisterThenDuplicate(rd: Reading, table: seq<Delegate>, name: string, category: string, organization: string,
                              roleTitle: string, email: string, phone: string, badgePhoto: string, notes: string,
                              nationality: string, now: string, name2: string, category2: string, org2: string)
    requires rd.rowKey(RegisteredRow(rd.number, NextId(Ids(table)), name, category, organization, roleTitle, email, phone,
                                     badgePhoto, notes, nationality, now)) == DedupeKey(name, organization)
    requires Register(rd, table, name, category, organization, roleTitle, email, phone, badgePhoto, notes, nationality, now).ok
    requires Trim(name2) != "" && Trim(category2) != "" && DedupeKey(name2, org2) == DedupeKey(name, organization)
    ensures var t := Register(rd, table, name, category, organization, roleTitle, email, phone, badgePhoto, notes, nationality, now).table;
            !Register(rd, t, name2, category2, org2, roleTitle, email, phone, badgePhoto, notes, nationality, now).ok
            && forall i :: 0 <= i < |table| ==> t[i].id != t[|table|].id
  {
    var t := Register(rd, table, name, category, organization, roleTitle, email, phone, badgePhoto, notes, nationality, now).table;
    assert rd.rowKey(t[|table|]) == DedupeKey(name2, org2);
    assert KeyTaken(rd, t, DedupeKey(name2, org2));
    NextIdFresh(Ids(table));
  }

  /**
    The registered row keeps its key read as intended always, and as written
    when its trimmed name and organization survive the reload.
  */
  lemma RegisteredKeyKept(load: string -> Value, number: string -> NumberReading, id: string, name: string, category: string, organization: string,
                          roleTitle: string, email: string, phone: string, badgePhoto: string, notes: string,
                          nationality: string, now: string)
    ensures var row := RegisteredRow(number, id, name, category, organization, roleTitle, email, phone, badgePhoto, notes, nationality, now);
            AsIntended(number).rowKey(row) == DedupeKey(name, organization)
            && (KeyStable(load, Trim(name)) && KeyStable(load, Trim(organization)) ==>
                  AsWrittenWith(load, number).rowKey(row) == DedupeKey(name, organization))
  {
    DedupeKeyNormalised(name, organization);
  }

  /**
    The save formats the registered phone: "0977123456" reads as the float
    977123456.0, so the row is saved with "977123456" and the leading zero is lost.
  */
  lemma RegisteredPhoneLosesZero(number: string -> NumberReading, id: string, name: string, category: string,
                                 organization: string, roleTitle: string, email: string, badgePhoto: string,
                                 notes: string, nationality: string, now: string)
    requires number("0977123456") == Integer(977123456)
    ensures RegisteredRow(number, id, name, category, organization, roleTitle, email, "0977123456", badgePhoto, notes,
                          nationality, now).phone == "977123456"
  {
    var p := "0977123456";
    assert Trimmed(p) && p != "" && p != "nan" && !StartsWith(p, "+");
    TrimOfTrimmed(p);
    RegisteredPhoneOfNumber(number, id, name, category, organization, roleTitle, email, p, badgePhoto, notes,
                            nationality, now, 977123456);
    NineDigitPhone();
  }

  /** A registered phone that reads as the number `k` is saved as the text of `k`. */
  lemma RegisteredPhoneOfNumber(number: string -> NumberReading, id: string, name: string, category: string,
                                organization: string, roleTitle: string, email: string, phone: string, badgePhoto: string,
                                notes: string, nationality: string, now: string, k: int)
    requires var t := Trim(phone); t != "" && t != "nan" && !StartsWith(t, "+") && number(t) == Integer(k)
    ensures RegisteredRow(number, id, name, category, organization, roleTitle, email, phone, badgePhoto, notes,
                          nationality, now).phone == IntToString(k)
  {
    TrimIdempotent(phone);
  }

  /** The text of the number in `RegisteredPhoneLosesZero`. */
  lemma NineDigitPhone()
    ensures IntToString(977123456) == "977123456"
  {
    var d := NatToString(977123);
    assert d == "977123";
    assert NatToString(9771234) == d + ['4'];
    assert NatToString(97712345) == d + ['4'] + ['5'];
    PhoneDigitAppended(97712345, 6);
    assert NatToString(977123456) == d + ['4'] + ['5'] + ['6'];
    assert d + ['4'] + ['5'] + ['6'] == "977123456";
  }

  /** `str()` of a number with one more decimal digit. */
  lemma PhoneDigitAppended(n: nat, d: nat)
    requires 0 < n && d < 10
    ensures NatToString(10 * n + d) == NatToString(n) + [DigitChar(d)]
  {
    assert (10 * n + d) / 10 == n && (10 * n + d) % 10 == d;
  }

  /** A registered row's phone is as save_staff_df leaves it: saving the row again does not change it. */
  lemma RegisteredPhoneStable(number: string -> NumberReading, id: string, name: string, category: string,
                              organization: string, roleTitle: string, email: string, phone: string, badgePhoto: string,
                              notes: string, nationality: string, now: string)
    requires FloatLike(number)
    ensures var row := RegisteredRow(number, id, name, category, organization, roleTitle, email, phone, badgePhoto, notes,
                                     nationality, now);
            FormatPhone(Str(row.phone), number) == row.phone
  {
    FormatPhoneStable(Str(Trim(phone)), number);
  }

  /**
    As written, a person registered with a blank organization can be
    registered again with the very same details: the saved "" reloads as NaN,
    so the stored row's key ends in "|nan" while the new key ends in "|".
  */
  lemma BlankOrganizationRegisteredTwice(load: string -> Value, number: string -> NumberReading, table: seq<Delegate>, name: string, category: string,
                                         organization: string, roleTitle: string, email: string, phone: string,
                                         badgePhoto: string, notes: string, nationality: string, now: string)
    requires load("") == Nan
    requires Trim(organization) == ""
    requires Register(AsWrittenWith(load, number), table, name, category, organization, roleTitle, email, phone, badgePhoto, notes, nationality, now).ok
    ensures var rd := AsWrittenWith(load, number);
            var t := Register(rd, table, name, category, organization, roleTitle, email, phone, badgePhoto, notes, nationality, now).table;
            var again := Register(rd, t, name, category, organization, roleTitle, email, phone, badgePhoto, notes, nationality, now);
            again.ok && |again.table| == |table| + 2
  {
    var rd := AsWrittenWith(load, number);
    var t := Register(rd, table, name, category, organization, roleTitle, email, phone, badgePhoto, notes, nationality, now).table;
    var key := DedupeKey(name, organization);
    var row := t[|table|];
    assert row.organization == Trim(organization);
    BlankReloadsAsNan(load);
    BlankKeyDiffers(name, organization, StrOf(load(row.name)), StrOf(load(row.organization)));
    assert rd.rowKey(row) == DedupeKey(StrOf(load(row.name)), StrOf(load(row.organization)));
    KeyNotTakenAfter(rd, table, row, key);
  }

  // ----- check-in -----

  function IdPresent(table: seq<Delegate>): string -> bool {
    id => exists i :: 0 <= i < |table| && table[i].id == id
  }

  /** The table after set_checked_in: every row whose ID was given has the new flag; the rest is unchanged. */
  function CheckedInSet(table: seq<Delegate>, ids: seq<string>, checked: bool): (r: seq<Delegate>)
    ensures |r| == |table|
  {
    seq(|table|, j requires 0 <= j < |table| =>
      if table[j].id in ids then table[j].(checkedIn := checked) else table[j])
  }

  /**
    set_checked_in: for each given ID, marks every row with that ID and counts
    it as updated, or counts it as not found. The table is saved only when
    something was updated, and then it is the only change.
  */
  method SetCheckedIn(table: seq<Delegate>, ids: seq<string>, checked: bool)
    returns (r: seq<Delegate>, updated: nat, notFound: nat)
    ensures updated + notFound == |ids|
    ensures updated == Count(ids, IdPresent(table))
    ensures r == CheckedInSet(table, ids, checked)
    ensures updated == 0 ==> r == table
  {
    r := table;
    updated, notFound := 0, 0;
    var k := 0;
    while k < |ids|
      invariant 0 <= k <= |ids|
      invariant updated + notFound == k
      invariant updated == Count(ids[..k], IdPresent(table))
      invariant r == CheckedInSet(table, ids[..k], checked)
      invariant updated == 0 ==> r == table
    {
      var id := ids[k];
      assert ids[..k + 1] == ids[..k] + [id];
      CountSnoc(ids[..k], id, IdPresent(table));
      assert forall j :: 0 <= j < |r| ==> r[j].id == table[j].id;
      if exists i :: 0 <= i < |r| && r[i].id == id {
        assert IdPresent(table)(id);
        r := seq(|r|, j requires 0 <= j < |r| => if r[j].id == id then r[j].(checkedIn := checked) else r[j]);
        updated := updated + 1;
      } else {
        assert !IdPresent(table)(id);
        assert forall j :: 0 <= j < |table| ==> table[j].id != id;
        notFound := notFound + 1;
      }
      k := k + 1;
    }
    assert ids[..|ids|] == ids;
  }

  /** set_daily_checkin: checks the day, then the ID, then sets that day's cell of every matching row. */
  function SetDailyCheckin(table: seq<Delegate>, id: string, day: int, checked: bool): (r: Outcome)
    ensures !(1 <= day <= 5) ==> r == Outcome(false, "Invalid day. Must be 1, 2, 3, 4, or 5.", table)
    ensures 1 <= day <= 5 && !IdPresent(table)(id) ==> r == Outcome(false, "Delegate not found.", table)
    ensures r.ok <==> 1 <= day <= 5 && IdPresent(table)(id)
    ensures r.ok ==> r.message == "Check-in updated for Day " + IntToString(day) && |r.table| == |table|
    ensures r.ok ==> forall j :: 0 <= j < |table| ==>
              r.table[j] == if table[j].id == id then table[j].(days := table[j].days.Set(day, Some(checked))) else table[j]
  {
    if !(1 <= day <= 5) then Outcome(false, "Invalid day. Must be 1, 2, 3, 4, or 5.", table)
    else if !(exists i :: 0 <= i < |table| && table[i].id == id) then Outcome(false, "Delegate not found.", table)
    else
      Outcome(true, "Check-in updated for Day " + IntToString(day),
              seq(|table|, j requires 0 <= j < |table| =>
                if table[j].id == id then table[j].(days := table[j].days.Set(day, Some(checked))) else table[j]))
  }

  /** What get_daily_checkin_status returns: an error, or Day1..Day5 of the first row with the ID. */
  datatype DayStatus = DelegateNotFound | Checked(days: seq<bool>)

  function HasId(id: string): Delegate -> bool {
    (d: Delegate) => d.id == id
  }

  function StatusOf(rd: Reading, d: Days): seq<bool> {
    [rd.day(d.d1), rd.day(d.d2), rd.day(d.d3), rd.day(d.d4), rd.day(d.d5)]
  }

  /**
    get_daily_checkin_status: "not found" for an unknown ID; otherwise the five
    day cells of the first row with that ID, each read the given way: as
    written (`DayAsWritten`) a day reads checked in unless it was set to false,
    as intended (`DayAsIntended`) exactly when it was set to true.
  */
  function DailyStatus(rd: Reading, table: seq<Delegate>, id: string): (r: DayStatus)
    ensures r.DelegateNotFound? <==> !IdPresent(table)(id)
    ensures forall i :: 0 <= i < |table| && table[i].id == id && (forall j :: 0 <= j < i ==> table[j].id != id) ==>
              r.Checked? && |r.days| == 5
              && forall day :: 1 <= day <= 5 ==> r.days[day - 1] == rd.day(table[i].days.Get(day))
  {
    match FirstWhere(table, HasId(id))
    case None => DelegateNotFound
    case Some(i) =>
      FirstWithId(table, id, i);
      StatusOfReads(rd, table[i].days);
      Checked(StatusOf(rd, table[i].days))
  }

  /** Day `day` of a status is that day's cell read the given way. */
  lemma StatusOfReads(rd: Reading, d: Days)
    ensures |StatusOf(rd, d)| == 5
    ensures forall day :: 1 <= day <= 5 ==> StatusOf(rd, d)[day - 1] == rd.day(d.Get(day))
  {
  }

  /** The first row with the ID is the only row with it that has none before it. */
  lemma FirstWithId(table: seq<Delegate>, id: string, i: nat)
    requires FirstWhere(table, HasId(id)) == Some(i)
    ensures i < |table| && table[i].id == id
    ensures forall j :: 0 <= j < |table| && table[j].id == id && (forall k :: 0 <= k < j ==> table[k].id != id) ==> j == i
  {
    forall j | 0 <= j < |table| && table[j].id == id && (forall k :: 0 <= k < j ==> table[k].id != id)
      ensures j == i
    {
      assert HasId(id)(table[j]);
      assert HasId(id)(table[i]);
    }
  }

  /** As written, a delegate who has just registered is reported checked in on all five days. */
  lemma FreshRegistrationReadsCheckedIn(rd: Reading, table: seq<Delegate>, name: string, category: string,
                                        organization: string, now: string)
    requires Register(rd, table, name, category, organization, "", "", "", "", "", "", now).ok
    ensures var r := Register(rd, table, name, category, organization, "", "", "", "", "", "", now);
            DailyStatus(AsWritten(rd.number), r.table, NextId(Ids(table))) == Checked([true, true, true, true, true])
  {
    FirstRegisteredMatch(rd, table, name, category, organization, now);
  }

  lemma FirstRegisteredMatch(rd: Reading, table: seq<Delegate>, name: string, category: string, organization: string,
                             now: string)
    requires Register(rd, table, name, category, organization, "", "", "", "", "", "", now).ok
    ensures var r := Register(rd, table, name, category, organization, "", "", "", "", "", "", now);
            FirstWhere(r.table, HasId(NextId(Ids(table)))) == Some(|table|)
  {
    var id := NextId(Ids(table));
    var row := RegisteredRow(rd.number, id, name, category, organization, "", "", "", "", "", "", now);
    NextIdFresh(Ids(table));
    assert forall j :: 0 <= j < |table| ==> !HasId(id)(table[j]);
    FirstWhereAppended(table, row, HasId(id));
  }

  /** Setting a day for a present ID is reported back by the status of that ID's first row. */
  lemma DailyStatusReadsBack(rd: Reading, table: seq<Delegate>, id: string, day: int, checked: bool, i: nat)
    requires 1 <= day <= 5
    requires FirstWhere(table, HasId(id)) == Some(i)
    ensures var s := SetDailyCheckin(table, id, day, checked);
            s.ok && DailyStatus(rd, s.table, id) == Checked(StatusOf(rd, table[i].days.Set(day, Some(checked))))
  {
    var s := SetDailyCheckin(table, id, day, checked);
    assert IdPresent(table)(id);
    var st := s.table;
    forall j | 0 <= j < |table|
      ensures HasId(id)(st[j]) == HasId(id)(table[j])
    {
    }
    assert FirstWhere(st, HasId(id)) == Some(i);
  }

  /** Read as intended, a new delegate is checked in on no day, and setting a day is reported back for that day only. */
  lemma DailyStatusAfterSet(rd: Reading, table: seq<Delegate>, name: string, category: string, organization: string,
                            now: string, day: int, checked: bool)
    requires Register(rd, table, name, category, organization, "", "", "", "", "", "", now).ok
    requires 1 <= day <= 5
    ensures var t := Register(rd, table, name, category, organization, "", "", "", "", "", "", now).table;
            var id := NextId(Ids(table));
            DailyStatus(AsIntended(rd.number), t, id) == Checked([false, false, false, false, false])
            && var s := SetDailyCheckin(t, id, day, checked);
            s.ok
            && DailyStatus(AsIntended(rd.number), s.table, id)
               == Checked([day == 1 && checked, day == 2 && checked, day == 3 && checked, day == 4 && checked, day == 5 && checked])
  {
    var t := Register(rd, table, name, category, organization, "", "", "", "", "", "", now).table;
    var id := NextId(Ids(table));
    FirstRegisteredMatch(rd, table, name, category, organization, now);
    assert t[|table|].days == NoDays;
    DailyStatusReadsBack(AsIntended(rd.number), t, id, day, checked, |table|);
    NoDaysSet(rd.number, day, checked);
  }

  lemma NoDaysSet(number: string -> NumberReading, day: int, checked: bool)
    requires 1 <= day <= 5
    ensures StatusOf(AsIntended(number), NoDays) == [false, false, false, false, false]
    ensures StatusOf(AsIntended(number), NoDays.Set(day, Some(checked)))
            == [day == 1 && checked, day == 2 && checked, day == 3 && checked, day == 4 && checked, day == 5 && checked]
  {
  }

  // ----- column fill -----

  /** The column a missing one is filled with: False for CheckedIn, "" for every other column. */
  function Filled(c: string, n: nat): (r: seq<Value>)
    ensures |r| == n
  {
    seq(n, _ => if c == "CheckedIn" then Bool(false) else Str(""))
  }

  /** The frame with each of `cols` that it lacks added as a filled column; present columns untouched. */
  function AddMissing(frame: map<string, seq<Value>>, cols: seq<string>, n: nat): (r: map<string, seq<Value>>)
    ensures forall c :: c in r <==> c in frame || c in cols
    ensures forall c :: c in frame ==> r[c] == frame[c]
    ensures forall c :: c in cols && c !in frame ==> r[c] == Filled(c, n)
  {
    map c | c in frame.Keys + (set c | c in cols) :: if c in frame then frame[c] else Filled(c, n)
  }

  /** The frame after the first loop of _ensure_schema: every missing registry column added. */
  function WithColumns(frame: map<string, seq<Value>>, n: nat): map<string, seq<Value>> {
    AddMissing(frame, Columns, n)
  }

  /** Adding one more column to the list adds it when it is still missing. */
  lemma AddMissingStep(frame: map<string, seq<Value>>, cols: seq<string>, c: string, n: nat)
    ensures var m := AddMissing(frame, cols, n);
            AddMissing(frame, cols + [c], n) == if c in m then m else m[c := Filled(c, n)]
  {
    var m := AddMissing(frame, cols, n);
    var m2 := AddMissing(frame, cols + [c], n);
    var e := if c in m then m else m[c := Filled(c, n)];
    assert forall x :: x in cols + [c] <==> x in cols || x == c;
    assert m2.Keys == e.Keys;
    assert forall x :: x in m2 ==> m2[x] == e[x];
  }

  /** The first loop of _ensure_schema, over the given columns in order. */
  method FillMissingColumns(frame: map<string, seq<Value>>, cols: seq<string>, n: nat) returns (r: map<string, seq<Value>>)
    ensures r == AddMissing(frame, cols, n)
  {
    r := frame;
    var k := 0;
    while k < |cols|
      invariant 0 <= k <= |cols|
      invariant r == AddMissing(frame, cols[..k], n)
    {
      var c := cols[k];
      assert cols[..k + 1] == cols[..k] + [c];
      if c !in r {
        if c == "CheckedIn" {
          r := r[c := seq(n, _ => Bool(false))];
        } else {
          r := r[c := seq(n, _ => Str(""))];
        }
        assert r[c] == Filled(c, n);
      }
      AddMissingStep(frame, cols[..k], c, n);
      k := k + 1;
    }
    assert cols[..|cols|] == cols;
  }

  /** What `float(val)` makes of a phone text; float parsing itself is not modelled. */
  datatype NumberReading = NotAFloat | NotANumber | Integer(k: int)

  /**
    The properties of Python's `float` the model relies on: the text of an
    integer reads back as that integer, surrounding white space is ignored,
    and "nan" reads as NaN.
  */
  ghost predicate FloatLike(asNumber: string -> NumberReading) {
    (forall k :: asNumber(IntToString(k)) == Integer(k))
    && (forall s :: asNumber(Trim(s)) == asNumber(s))
    && asNumber("nan") == NotANumber
  }

  /** `float(val)` on a phone cell: a number cell reads as itself, a text cell as `asNumber` says. */
  function NumberOf(v: Value, asNumber: string -> NumberReading): NumberReading {
    match v
    case Str(s) => asNumber(s)
    case Num(i) => Integer(i)
    case Bool(b) => Integer(if b then 1 else 0)
    case Nan => NotANumber
  }

  /** The part of format_phone after the blank checks, given the trimmed text and the number reading. */
  function FormatPresent(t: string, num: NumberReading): string {
    if StartsWith(t, "+") then t
    else
      match num
      case Integer(k) => IntToString(k)
      case NotANumber => ""
      case NotAFloat => t
  }

  /** format_phone: blank, NaN and "nan" become ""; a value starting with "+" is kept trimmed; otherwise `str(int(float(val)))`, "" for NaN, or the trimmed text when it is not a number. */
  function FormatPhone(v: Value, asNumber: string -> NumberReading): (r: string)
    ensures v == Nan || v == Str("") || v == Str("nan") ==> r == ""
    ensures v.Str? && v != Str("") && v != Str("nan") && StartsWith(Trim(v.s), "+") ==> r == Trim(v.s)
  {
    if v == Nan || v == Str("") || v == Str("nan") then ""
    else FormatPresent(Trim(StrOf(v)), NumberOf(v, asNumber))
  }

  /** The text of an integer is non-empty, has no white space at its ends and does not start with "+". */
  lemma IntToStringShape(k: int)
    ensures var t := IntToString(k);
            t != "" && t != "nan" && Trimmed(t) && !StartsWith(t, "+")
  {
    var t := IntToString(k);
    if k < 0 {
      var d := NatToString(-k);
      assert t == "-" + d;
      assert t[|t| - 1] == d[|d| - 1];
      assert IsDigit(d[|d| - 1]);
    } else {
      assert IsDigit(t[0]) && IsDigit(t[|t| - 1]);
    }
  }

  /** Formatting a phone number that is already formatted changes nothing. */
  lemma FormatPhoneStable(v: Value, asNumber: string -> NumberReading)
    requires FloatLike(asNumber)
    ensures FormatPhone(Str(FormatPhone(v, asNumber)), asNumber) == FormatPhone(v, asNumber)
  {
    if !(v == Nan || v == Str("") || v == Str("nan")) {
      var t := Trim(StrOf(v));
      var r := FormatPhone(v, asNumber);
      assert r == FormatPresent(t, NumberOf(v, asNumber));
      TrimIdempotent(StrOf(v));
      if StartsWith(t, "+") {
        assert r == t;
        FormatPhoneKeepsPlus(t, asNumber);
      } else {
        match NumberOf(v, asNumber) {
          case Integer(k) =>
            assert r == IntToString(k);
            FormatPhoneOfInteger(k, asNumber);
          case NotANumber =>
            assert r == "";
          case NotAFloat =>
            assert v.Str? && r == Trim(v.s);
            FormatPhoneOfText(v.s, asNumber);
        }
      }
    }
  }

  lemma FormatPhoneKeepsPlus(t: string, asNumber: string -> NumberReading)
    requires StartsWith(t, "+") && Trim(t) == t
    ensures FormatPhone(Str(t), asNumber) == t
  {
    assert t[0] == '+';
  }

  lemma FormatPhoneOfInteger(k: int, asNumber: string -> NumberReading)
    requires FloatLike(asNumber)
    ensures FormatPhone(Str(IntToString(k)), asNumber) == IntToString(k)
  {
    IntToStringShape(k);
    TrimOfTrimmed(IntToString(k));
  }

  lemma FormatPhoneOfText(s: string, asNumber: string -> NumberReading)
    requires FloatLike(asNumber)
    requires asNumber(s) == NotAFloat && !StartsWith(Trim(s), "+")
    ensures FormatPhone(Str(Trim(s)), asNumber) == Trim(s)
  {
    var t := Trim(s);
    TrimIdempotent(s);
    assert asNumber(t) == NotAFloat;
    assert asNumber("nan") == NotANumber;
  }

  function MapCells(cells: seq<Value>, f: Value -> Value): (r: seq<Value>)
    ensures |r| == |cells| && forall i :: 0 <= i < |cells| ==> r[i] == f(cells[i])
  {
    seq(|cells|, i requires 0 <= i < |cells| => f(cells[i]))
  }

  /** `astype(bool)` on one cell. */
  function ToBool(v: Value): (r: Value)
    ensures r.Bool?
  {
    Bool(Truthy(v))
  }

  /** `astype(str)` on one cell. */
  function ToText(v: Value): (r: Value)
    ensures r.Str?
  {
    Str(StrOf(v))
  }

  function ToPhone(asNumber: string -> NumberReading): Value -> Value {
    (v: Value) => Str(FormatPhone(v, asNumber))
  }

  /** The coercion _ensure_schema applies to one column. */
  function Coerce(c: string, cells: seq<Value>, asNumber: string -> NumberReading): seq<Value> {
    if c == "CheckedIn" then MapCells(cells, ToBool)
    else if c == "ID" then MapCells(cells, ToText)
    else if c == "Phone" then MapCells(cells, ToPhone(asNumber))
    else cells
  }

  /** The schema pass for a given column list: fill missing columns, coerce, keep only those columns. */
  function Schema(frame: map<string, seq<Value>>, cols: seq<string>, n: nat, asNumber: string -> NumberReading)
    : (r: map<string, seq<Value>>)
    ensures forall c :: c in r <==> c in cols
  {
    var f := AddMissing(frame, cols, n);
    map c | c in cols :: Coerce(c, f[c], asNumber)
  }

  /** _ensure_schema: the schema pass over the registry columns. */
  function EnsureSchema(frame: map<string, seq<Value>>, n: nat, asNumber: string -> NumberReading): map<string, seq<Value>> {
    Schema(frame, Columns, n, asNumber)
  }

  /** The schema pass yields booleans in CheckedIn and text in ID and Phone, for every row; a missing CheckedIn is all False. */
  lemma SchemaTypes(frame: map<string, seq<Value>>, cols: seq<string>, n: nat, asNumber: string -> NumberReading)
    requires forall c :: c in frame ==> |frame[c]| == n
    requires "CheckedIn" in cols && "ID" in cols && "Phone" in cols
    ensures var r := Schema(frame, cols, n, asNumber);
            "CheckedIn" in r && "ID" in r && "Phone" in r
            && |r["CheckedIn"]| == n && |r["ID"]| == n && |r["Phone"]| == n
            && (forall i :: 0 <= i < n ==> r["CheckedIn"][i].Bool? && r["ID"][i].Str? && r["Phone"][i].Str?)
            && ("CheckedIn" !in frame ==> forall i :: 0 <= i < n ==> r["CheckedIn"][i] == Bool(false))
  {
    var f := AddMissing(frame, cols, n);
    assert |f["CheckedIn"]| == n && |f["ID"]| == n && |f["Phone"]| == n;
  }

  lemma EnsureSchemaTypes(frame: map<string, seq<Value>>, n: nat, asNumber: string -> NumberReading)
    requires forall c :: c in frame ==> |frame[c]| == n
    ensures var r := EnsureSchema(frame, n, asNumber);
            "CheckedIn" in r && "ID" in r && "Phone" in r
            && |r["CheckedIn"]| == n && |r["ID"]| == n && |r["Phone"]| == n
            && (forall i :: 0 <= i < n ==> r["CheckedIn"][i].Bool? && r["ID"][i].Str? && r["Phone"][i].Str?)
            && ("CheckedIn" !in frame ==> forall i :: 0 <= i < n ==> r["CheckedIn"][i] == Bool(false))
  {
    assert Columns[1] == "ID" && Columns[7] == "Phone" && Columns[10] == "CheckedIn";
    SchemaTypes(frame, Columns, n, asNumber);
  }

  /** Each coercion is idempotent. */
  lemma CoerceIdempotent(c: string, cells: seq<Value>, asNumber: string -> NumberReading)
    requires FloatLike(asNumber)
    ensures Coerce(c, Coerce(c, cells, asNumber), asNumber) == Coerce(c, cells, asNumber)
  {
    if c == "Phone" && c != "CheckedIn" && c != "ID" {
      forall i | 0 <= i < |cells|
        ensures Str(FormatPhone(Str(FormatPhone(cells[i], asNumber)), asNumber)) == Str(FormatPhone(cells[i], asNumber))
      {
        FormatPhoneStable(cells[i], asNumber);
      }
    }
  }

  /** Applying the schema pass to its own output changes nothing, as happens when a loaded table is saved. */
  lemma SchemaIdempotent(frame: map<string, seq<Value>>, cols: seq<string>, n: nat, asNumber: string -> NumberReading)
    requires FloatLike(asNumber)
    ensures Schema(Schema(frame, cols, n, asNumber), cols, n, asNumber) == Schema(frame, cols, n, asNumber)
  {
    var r := Schema(frame, cols, n, asNumber);
    var f := AddMissing(frame, cols, n);
    assert AddMissing(r, cols, n) == r;
    forall c | c in cols
      ensures Coerce(c, r[c], asNumber) == r[c]
    {
      CoerceIdempotent(c, f[c], asNumber);
    }
  }

  lemma EnsureSchemaIdempotent(frame: map<string, seq<Value>>, n: nat, asNumber: string -> NumberReading)
    requires FloatLike(asNumber)
    ensures EnsureSchema(EnsureSchema(frame, n, asNumber), n, asNumber) == EnsureSchema(frame, n, asNumber)
  {
    SchemaIdempotent(frame, Columns, n, asNumber);
  }

  // ----- bulk import -----

  /** A spreadsheet row after the column renaming; a column the sheet lacks is filled with "". */
  datatype Incoming = Incoming(name: Value, category: Value, organization: Value, roleTitle: Value,
                               email: Value, phone: Value, notes: Value, nationality: Value)

  /**
    How the import reads a cell, as written: `str(cell).strip()`, which turns
    an empty cell (NaN) into "nan". Only a text cell can carry white space to
    strip (`ImportTextIsStrip`).
  */
  function ImportTextAsWritten(v: Value): string {
    if v.Str? then Trim(v.s) else StrOf(v)
  }

  /** How the import reads a cell as intended: an empty cell is "". */
  function ImportText(v: Value): string {
    if v.Nan? then "" else ImportTextAsWritten(v)
  }

  /** The as-written reading is `str(cell).strip()`, and the intended one differs only on an empty cell. */
  lemma ImportTextIsStrip(v: Value)
    ensures ImportTextAsWritten(v) == Trim(StrOf(v))
    ensures ImportText(v) == if v.Nan? then "" else Trim(StrOf(v))
  {
    match v {
      case Nan =>
        assert Trimmed("nan");
        TrimOfTrimmed("nan");
      case Bool(b) =>
        assert Trimmed("True") && Trimmed("False");
        TrimOfTrimmed(StrOf(v));
      case Num(n) =>
        IntToStringShape(n);
        TrimOfTrimmed(IntToString(n));
      case Str(_) =>
    }
  }

  /** The rows the import keeps: those whose name reads as non-blank. */
  function Named(rd: Reading): Incoming -> bool {
    (r: Incoming) => rd.text(r.name) != ""
  }

  /** As written, a row whose Name cell is empty survives the blank-name filter and is imported under the name "nan". */
  lemma MissingNameImportedAsNan(number: string -> NumberReading, row: Incoming, id: string, now: string)
    requires row.name == Nan
    ensures Candidates(AsWritten(number), [row]) == [row]
    ensures ImportedRow(AsWritten(number), row, id, now).name == "nan"
  {
    SingleCandidate(AsWritten(number), row);
  }

  /**
    An empty Phone cell is saved as "": as written the import reads it as
    "nan", which format_phone turns into "", and as intended it is "" already.
  */
  lemma ImportedBlankPhone(number: string -> NumberReading, row: Incoming, id: string, now: string)
    requires row.phone == Nan
    ensures ImportedRow(AsWritten(number), row, id, now).phone == ""
    ensures ImportedRow(AsIntended(number), row, id, now).phone == ""
  {
  }

  /** A single row with a non-blank name is its own list of candidates. */
  lemma SingleCandidate(rd: Reading, row: Incoming)
    requires rd.text(row.name) != ""
    ensures Candidates(rd, [row]) == [row]
  {
    var p := Named(rd);
    assert p(row);
    assert [row][1..] == [];
    assert Keep([row], p) == [row] + Keep([], p);
    assert DedupeFrom([row], IncomingKey(rd), {}) == [row] + DedupeFrom([], IncomingKey(rd), {IncomingKey(rd)(row)});
  }

  /** Read as intended, a row survives the filter exactly when its name cell is present and not blank. */
  lemma ImportKeepsOnlyNamed(number: string -> NumberReading, incoming: seq<Incoming>)
    ensures forall r :: r in Keep(incoming, Named(AsIntended(number))) <==>
              r in incoming && r.name != Nan && Trim(StrOf(r.name)) != ""
  {
    KeepIn(incoming, Named(AsIntended(number)));
    forall r | r in incoming
      ensures Named(AsIntended(number))(r) <==> r.name != Nan && Trim(StrOf(r.name)) != ""
    {
      ImportTextIsStrip(r.name);
    }
  }

  /** The key `_norm_str(Name) + "|" + _norm_str(Organization)` the import builds for an incoming row. */
  function IncomingKey(rd: Reading): Incoming -> string {
    (r: Incoming) => DedupeKey(rd.text(r.name), rd.text(r.organization))
  }

  /** The rows after dropping blank names and keeping the first row per key. */
  function Candidates(rd: Reading, incoming: seq<Incoming>): seq<Incoming> {
    Dedupe(Keep(incoming, Named(rd)), IncomingKey(rd))
  }

  function NotInTable(rd: Reading, table: seq<Delegate>): Incoming -> bool {
    (r: Incoming) => !KeyTaken(rd, table, IncomingKey(rd)(r))
  }

  /** The candidates whose key is not already in the reloaded table. */
  function ToAdd(rd: Reading, table: seq<Delegate>, incoming: seq<Incoming>): seq<Incoming> {
    Keep(Candidates(rd, incoming), NotInTable(rd, table))
  }

  /** The row the import saves for an incoming row: its cells read and trimmed, no photo, not checked in, and the phone text formatted by save_staff_df. */
  function ImportedRow(rd: Reading, r: Incoming, id: string, now: string): Delegate {
    Delegate(rd.text(r.nationality), id, rd.text(r.name), rd.text(r.category), rd.text(r.organization), rd.text(r.roleTitle),
             rd.text(r.email), FormatPhone(Str(rd.text(r.phone)), rd.number), "", rd.text(r.notes), false, NoDays, now)
  }

  /** The rows appended for `s`, numbered from `base` one by one. */
  function NewRows(rd: Reading, s: seq<Incoming>, base: nat, now: string): (r: seq<Delegate>)
    ensures |r| == |s|
    decreases |s|
  {
    if |s| == 0 then [] else [ImportedRow(rd, s[0], NatToString(base), now)] + NewRows(rd, s[1..], base + 1, now)
  }

  /** Row `k` of the appended rows is incoming row `k` under ID `base + k`. */
  lemma {:induction false} NewRowsAt(rd: Reading, s: seq<Incoming>, base: nat, now: string, k: nat)
    requires k < |s|
    ensures NewRows(rd, s, base, now)[k] == ImportedRow(rd, s[k], NatToString(base + k), now)
    decreases k
  {
    if k > 0 {
      NewRowsAt(rd, s[1..], base + 1, now, k - 1);
    }
  }

  lemma {:induction false} NewRowsSnoc(rd: Reading, s: seq<Incoming>, x: Incoming, base: nat, now: string)
    ensures NewRows(rd, s + [x], base, now) == NewRows(rd, s, base, now) + [ImportedRow(rd, x, NatToString(base + |s|), now)]
    decreases |s|
  {
    if |s| == 0 {
      assert (s + [x])[1..] == [];
    } else {
      assert (s + [x])[1..] == s[1..] + [x];
      NewRowsSnoc(rd, s[1..], x, base + 1, now);
    }
  }

  /** The table import_staff_excel saves: the new rows appended, numbered on from the largest numeric ID. */
  function AfterImport(rd: Reading, table: seq<Delegate>, incoming: seq<Incoming>, now: string): seq<Delegate> {
    table + NewRows(rd, ToAdd(rd, table, incoming), MaxNumericId(Ids(table)) + 1, now)
  }

  /**
    import_staff_excel: returns (added, skipped) and the table saved. Each new
    row takes the next ID of the table grown so far, so the IDs continue from
    the largest numeric ID one by one.
  */
  method ImportStaff(rd: Reading, table: seq<Delegate>, incoming: seq<Incoming>, now: string)
    returns (added: nat, skipped: nat, r: seq<Delegate>)
    ensures added == |ToAdd(rd, table, incoming)|
    ensures skipped == |Candidates(rd, incoming)| - added
    ensures r == AfterImport(rd, table, incoming, now)
  {
    var candidates := Candidates(rd, incoming);
    var toAdd := ToAdd(rd, table, incoming);
    skipped := |candidates| - |toAdd|;
    var out := AppendRows(rd, table, toAdd, now);
    assert |out| == |toAdd|;
    added := |out|;
    r := table + out;
  }

  /** The loop of import_staff_excel: each row takes `_next_id` of the table grown so far. */
  method AppendRows(rd: Reading, table: seq<Delegate>, toAdd: seq<Incoming>, now: string) returns (out: seq<Delegate>)
    ensures out == NewRows(rd, toAdd, MaxNumericId(Ids(table)) + 1, now)
  {
    var m := MaxNumericId(Ids(table));
    out := [];
    var cur := table;
    var k := 0;
    while k < |toAdd|
      invariant 0 <= k <= |toAdd|
      invariant cur == table + out
      invariant MaxNumericId(Ids(cur)) == m + k
      invariant out == NewRows(rd, toAdd[..k], m + 1, now)
    {
      var nid := NextId(Ids(cur));
      var row := ImportedRow(rd, toAdd[k], nid, now);
      AppendStep(rd, cur, toAdd, k, m, out, now);
      assert cur + [row] == table + (out + [row]);
      out := out + [row];
      cur := cur + [row];
      k := k + 1;
    }
    assert k == |toAdd|;
    TakeAll(toAdd);
  }

  /** One turn of the import loop: the row it appends is the next of NewRows, and the largest ID goes up by one. */
  lemma AppendStep(rd: Reading, cur: seq<Delegate>, toAdd: seq<Incoming>, k: nat, m: nat, out: seq<Delegate>, now: string)
    requires k < |toAdd| && MaxNumericId(Ids(cur)) == m + k && out == NewRows(rd, toAdd[..k], m + 1, now)
    ensures var row := ImportedRow(rd, toAdd[k], NextId(Ids(cur)), now);
            MaxNumericId(Ids(cur + [row])) == m + k + 1 && out + [row] == NewRows(rd, toAdd[..k + 1], m + 1, now)
  {
    var row := ImportedRow(rd, toAdd[k], NextId(Ids(cur)), now);
    ImportStep(cur, row, m + k);
    NewRowsSnoc(rd, toAdd[..k], toAdd[k], m + 1, now);
    TakeSnoc(toAdd, k);
  }

  /** Appending a row with the next ID raises the largest numeric ID by one. */
  lemma ImportStep(cur: seq<Delegate>, row: Delegate, v: nat)
    requires MaxNumericId(Ids(cur)) == v && row.id == NextId(Ids(cur))
    ensures MaxNumericId(Ids(cur + [row])) == v + 1
  {
    IdsSnoc(cur, row);
    MaxNumericIdAppend(Ids(cur), v + 1);
  }

  lemma IdsSnoc(t: seq<Delegate>, d: Delegate)
    ensures Ids(t + [d]) == Ids(t) + [d.id]
  {
  }

  /** Every row to add is a named row of the sheet, and no two of them share a key. */
  lemma ToAddSpec(rd: Reading, table: seq<Delegate>, incoming: seq<Incoming>)
    ensures var add := ToAdd(rd, table, incoming);
            (forall k :: 0 <= k < |add| ==> add[k] in incoming && Named(rd)(add[k]) && NotInTable(rd, table)(add[k]))
            && (forall j, k :: 0 <= j < k < |add| ==> IncomingKey(rd)(add[j]) != IncomingKey(rd)(add[k]))
  {
    var named := Keep(incoming, Named(rd));
    var cands := Candidates(rd, incoming);
    DedupeFromSpec(named, IncomingKey(rd), {});
    KeepMembers(incoming, Named(rd));
    KeepMembers(cands, NotInTable(rd, table));
    KeepIn(incoming, Named(rd));
    KeepDistinct(cands, NotInTable(rd, table), IncomingKey(rd));
  }

  /** The row appended for `x`, under any ID and time, carries `x`'s key once stored. */
  ghost predicate RowKeyKept(rd: Reading, x: Incoming) {
    forall id: string, now: string :: rd.rowKey(ImportedRow(rd, x, id, now)) == IncomingKey(rd)(x)
  }

  /** Read as intended, every imported row keeps its key. */
  lemma RowKeyKeptAsIntended(number: string -> NumberReading, x: Incoming)
    ensures RowKeyKept(AsIntended(number), x)
  {
  }

  /** As written, an imported row keeps its key when its name and organization survive the reload. */
  lemma RowKeyKeptAsWritten(load: string -> Value, number: string -> NumberReading, x: Incoming)
    requires KeyStable(load, ImportTextAsWritten(x.name)) && KeyStable(load, ImportTextAsWritten(x.organization))
    ensures RowKeyKept(AsWrittenWith(load, number), x)
  {
  }

  /**
    The import adds no row whose key is already in the table or among the
    other added rows, for a reading under which imported rows keep their keys:
    read as intended every sheet (`RowKeyKeptAsIntended`), as written a sheet
    whose names and organizations survive the reload (`RowKeyKeptAsWritten`).
  */
  lemma ImportAddsNoDuplicate(rd: Reading, table: seq<Delegate>, incoming: seq<Incoming>, now: string, base: nat)
    requires forall x :: x in incoming ==> RowKeyKept(rd, x)
    ensures var add := ToAdd(rd, table, incoming);
            (forall k :: 0 <= k < |add| ==> !KeyTaken(rd, table, rd.rowKey(ImportedRow(rd, add[k], NatToString(base + k), now))))
            && (forall j, k :: 0 <= j < k < |add| ==>
                  rd.rowKey(ImportedRow(rd, add[j], NatToString(base + j), now))
                  != rd.rowKey(ImportedRow(rd, add[k], NatToString(base + k), now)))
  {
    var add := ToAdd(rd, table, incoming);
    ToAddSpec(rd, table, incoming);
    forall k | 0 <= k < |add|
      ensures rd.rowKey(ImportedRow(rd, add[k], NatToString(base + k), now)) == IncomingKey(rd)(add[k])
    {
      assert RowKeyKept(rd, add[k]);
    }
  }

  /** Importing the same sheet a second time adds nothing, for a reading under which imported rows keep their keys. */
  lemma ReimportAddsNothing(rd: Reading, table: seq<Delegate>, incoming: seq<Incoming>, now: string)
    requires forall x :: x in incoming ==> RowKeyKept(rd, x)
    ensures ToAdd(rd, AfterImport(rd, table, incoming, now), incoming) == []
  {
    var add := ToAdd(rd, table, incoming);
    var base := MaxNumericId(Ids(table)) + 1;
    var t := AfterImport(rd, table, incoming, now);
    var cands := Candidates(rd, incoming);
    KeepIn(cands, NotInTable(rd, table));
    CandidatesFromSheet(rd, incoming);
    forall i | 0 <= i < |cands|
      ensures !NotInTable(rd, t)(cands[i])
    {
      assert cands[i] in incoming;
      CandidateKeyTaken(rd, table, add, base, now, cands[i]);
    }
    KeepNone(cands, NotInTable(rd, t));
  }

  /** Every candidate is a row of the sheet. */
  lemma CandidatesFromSheet(rd: Reading, incoming: seq<Incoming>)
    ensures forall i :: 0 <= i < |Candidates(rd, incoming)| ==> Candidates(rd, incoming)[i] in incoming
  {
    DedupeFromSpec(Keep(incoming, Named(rd)), IncomingKey(rd), {});
    KeepIn(incoming, Named(rd));
  }

  /** A candidate's key is taken once the rows to add have been appended: by the table, or by its own new row. */
  lemma CandidateKeyTaken(rd: Reading, table: seq<Delegate>, add: seq<Incoming>, base: nat, now: string, c: Incoming)
    requires RowKeyKept(rd, c)
    requires NotInTable(rd, table)(c) ==> c in add
    ensures KeyTaken(rd, table + NewRows(rd, add, base, now), IncomingKey(rd)(c))
  {
    var t := table + NewRows(rd, add, base, now);
    if KeyTaken(rd, table, IncomingKey(rd)(c)) {
      var j :| 0 <= j < |table| && rd.rowKey(table[j]) == IncomingKey(rd)(c);
      assert t[j] == table[j];
    } else {
      var k :| 0 <= k < |add| && add[k] == c;
      NewRowsAt(rd, add, base, now, k);
      assert t[|table| + k] == ImportedRow(rd, c, NatToString(base + k), now);
    }
  }

  /** Read as intended, importing the same sheet a second time adds nothing. */
  lemma ReimportAsIntended(number: string -> NumberReading, table: seq<Delegate>, incoming: seq<Incoming>, now: string)
    ensures ToAdd(AsIntended(number), AfterImport(AsIntended(number), table, incoming, now), incoming) == []
  {
    forall x | x in incoming
      ensures RowKeyKept(AsIntended(number), x)
    {
      RowKeyKeptAsIntended(number, x);
    }
    ReimportAddsNothing(AsIntended(number), table, incoming, now);
  }

  /**
    As written, a sheet row with a name and a blank organization (a sheet
    without that column fills it with "") is added again by a second import of
    the same sheet: the saved "" reloads as NaN, so the stored key ends in
    "|nan" and never matches the row's key ending in "|".
  */
  lemma BlankOrganizationReimported(load: string -> Value, number: string -> NumberReading, table: seq<Delegate>, x: Incoming, now: string)
    requires load("") == Nan
    requires ImportTextAsWritten(x.name) != "" && ImportTextAsWritten(x.organization) == ""
    requires NotInTable(AsWrittenWith(load, number), table)(x)
    ensures ToAdd(AsWrittenWith(load, number), table, [x]) == [x]
    ensures ToAdd(AsWrittenWith(load, number), AfterImport(AsWrittenWith(load, number), table, [x], now), [x]) == [x]
  {
    var rd := AsWrittenWith(load, number);
    var row := ImportedRow(rd, x, NatToString(MaxNumericId(Ids(table)) + 1), now);
    assert rd.rowKey(row) != IncomingKey(rd)(x) by {
      assert row.organization == "";
      BlankReloadsAsNan(load);
      BlankKeyDiffers(rd.text(x.name), rd.text(x.organization), StrOf(load(row.name)), StrOf(load(row.organization)));
      assert rd.rowKey(row) == DedupeKey(StrOf(load(row.name)), StrOf(load(row.organization)));
      assert IncomingKey(rd)(x) == DedupeKey(rd.text(x.name), rd.text(x.organization));
    }
    ImportedAgain(rd, table, x, now);
  }

  /** A named sheet row whose key is new, and whose stored row has another key, is imported again by a second import. */
  lemma ImportedAgain(rd: Reading, table: seq<Delegate>, x: Incoming, now: string)
    requires rd.text(x.name) != "" && NotInTable(rd, table)(x)
    requires rd.rowKey(ImportedRow(rd, x, NatToString(MaxNumericId(Ids(table)) + 1), now)) != IncomingKey(rd)(x)
    ensures ToAdd(rd, table, [x]) == [x]
    ensures ToAdd(rd, AfterImport(rd, table, [x], now), [x]) == [x]
  {
    var row := ImportedRow(rd, x, NatToString(MaxNumericId(Ids(table)) + 1), now);
    SingleImport(rd, table, x, now);
    KeyNotTakenAfter(rd, table, row, IncomingKey(rd)(x));
    SingleImport(rd, table + [row], x, now);
  }

  /** A named sheet row whose key is new is imported alone as one appended row. */
  lemma SingleImport(rd: Reading, table: seq<Delegate>, x: Incoming, now: string)
    requires rd.text(x.name) != "" && NotInTable(rd, table)(x)
    ensures ToAdd(rd, table, [x]) == [x]
    ensures AfterImport(rd, table, [x], now) == table + [ImportedRow(rd, x, NatToString(MaxNumericId(Ids(table)) + 1), now)]
  {
    SingleCandidate(rd, x);
    KeepOne(x, NotInTable(rd, table));
    NewRowsOne(rd, x, MaxNumericId(Ids(table)) + 1, now);
  }

  lemma NewRowsOne(rd: Reading, x: Incoming, base: nat, now: string)
    ensures NewRows(rd, [x], base, now) == [ImportedRow(rd, x, NatToString(base), now)]
  {
    assert [x][1..] == [];
  }

  /** Appending a row with another key leaves a key that was free still free. */
  lemma KeyNotTakenAfter(rd: Reading, table: seq<Delegate>, row: Delegate, key: string)
    requires !KeyTaken(rd, table, key) && rd.rowKey(row) != key
    ensures !KeyTaken(rd, table + [row], key)
  {
    forall i | 0 <= i < |table| + 1
      ensures rd.rowKey((table + [row])[i]) != key
    {
      if i < |table| {
        assert (table + [row])[i] == table[i];
      }
    }
  }
}
