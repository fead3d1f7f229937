/**
  The delegate QR codes of lib/qr_system.py: the login payload a badge
  carries, its validation when scanned, authentication against the
  delegate registry, the speaker look-up for delegates who also speak, and
  the truncation of the texts printed on a badge.

  `json.dumps`/`json.loads` are not part of this model: a payload is the
  decoded JSON object, a map from field names to JSON values, and the scan
  takes the decoded document. Time is whole seconds; `datetime.fromisoformat`
  and the subtraction from the clock are one parameter, `instant`, which
  gives the instant a timestamp text denotes, or `None` when it cannot be
  parsed or compared with the clock (a naive and an aware time, say).
*/
module QrSystem {
  import opened Wrappers
  import opened Text
  import opened Seqs
  import Staff

  // ----- the payload -----

  /** A decoded JSON value: text, an integer, a boolean, or anything else (null, a list, an object). */
  datatype Json = JStr(s: string) | JInt(i: int) | JBool(b: bool) | JOther

  type Payload = map<string, Json>

  /** What `json.loads` gives: an object, or a `JSONDecodeError`. */
  datatype Document = Malformed | Object(fields: Payload)

  const LoginType: string := "delegate_login"
  const Conference: string := "Insaka Conference 2025"

  /** The longest age, in seconds, a scanned code may have. */
  const MaxAge: int := 86400

  /** `generate_delegate_qr_data`, with the clock's ISO text `stamp` as a parameter. */
  function Generate(delegateId: Staff.Value, name: string, organization: string, stamp: string): (p: Payload)
    ensures p.Keys == {"type", "delegate_id", "delegate_name", "organization", "timestamp", "conference"}
    ensures p["type"] == JStr(LoginType) && p["conference"] == JStr(Conference)
    ensures p["delegate_id"] == JStr(Staff.StrOf(delegateId))
    ensures p["delegate_name"] == JStr(name) && p["organization"] == JStr(organization)
    ensures p["timestamp"] == JStr(stamp)
  {
    map["type" := JStr(LoginType),
        "delegate_id" := JStr(Staff.StrOf(delegateId)),
        "delegate_name" := JStr(name),
        "organization" := JStr(organization),
        "timestamp" := JStr(stamp),
        "conference" := JStr(Conference)]
  }

  // ----- scanning -----

  /** The fields a scanned payload must have, in the order they are checked. */
  const Required: seq<string> := ["type", "delegate_id", "delegate_name", "organization", "timestamp"]

  function MissingFrom(p: Payload): string -> bool {
    f => f !in p
  }

  datatype Scan = Scanned(data: Payload) | ScanError(message: string)

  /** `scan_qr_code_data` on a decoded document, `now` being the clock in seconds. */
  function ScanCode(doc: Document, now: int, instant: string -> Option<int>): Scan {
    match doc
    case Malformed => ScanError("Invalid QR code data format")
    case Object(p) =>
      match FirstWhere(Required, MissingFrom(p))
      case Some(i) => ScanError("Missing required field: " + Required[i])
      case None =>
        if p["type"] != JStr(LoginType) then ScanError("Invalid QR code type")
        else match p["timestamp"]
          case JStr(t) =>
            (match instant(t)
             case None => ScanError("Invalid timestamp format")
             case Some(at) => if now - at > MaxAge then ScanError("QR code has expired") else Scanned(p))
          case _ => ScanError("Invalid timestamp format")
  }

  /** The payload passes the field, type and age checks. */
  predicate Acceptable(p: Payload, now: int, instant: string -> Option<int>) {
    (forall f :: f in Required ==> f in p)
    && p["type"] == JStr(LoginType)
    && p["timestamp"].JStr? && instant(p["timestamp"].s).Some?
    && now - instant(p["timestamp"].s).value <= MaxAge
  }

  /** The missing field reported is the first absent one in the checking order, before any other check. */
  lemma ScanReportsFirstMissing(p: Payload, now: int, instant: string -> Option<int>, i: nat)
    requires i < |Required|
    ensures ScanCode(Object(p), now, instant) == ScanError("Missing required field: " + Required[i])
            <==> Required[i] !in p && forall j :: 0 <= j < i ==> Required[j] in p
  {
    var r := FirstWhere(Required, MissingFrom(p));
    if Required[i] !in p && forall j :: 0 <= j < i ==> Required[j] in p {
      FirstWhereAt(Required, MissingFrom(p), i);
    } else if r.Some? {
      MissingLabels(r.value, i);
    }
  }

  /** The five "Missing required field" messages are distinct. */
  lemma MissingLabels(a: nat, b: nat)
    requires a < |Required| && b < |Required| && a != b
    ensures "Missing required field: " + Required[a] != "Missing required field: " + Required[b]
  {
    var pre := "Missing required field: ";
    assert (pre + Required[a])[|pre|..] == Required[a];
    assert (pre + Required[b])[|pre|..] == Required[b];
  }

  /** A scan succeeds exactly on an object passing every check, and then returns the payload unchanged. */
  lemma ScanAccepts(doc: Document, now: int, instant: string -> Option<int>)
    ensures ScanCode(doc, now, instant).Scanned? <==> doc.Object? && Acceptable(doc.fields, now, instant)
    ensures ScanCode(doc, now, instant).Scanned? ==> ScanCode(doc, now, instant).data == doc.fields
  {
    if doc.Object? {
      var p := doc.fields;
      if forall f :: f in Required ==> f in p {
        assert FirstWhere(Required, MissingFrom(p)) == None;
      } else {
        var f :| f in Required && f !in p;
        var k :| 0 <= k < |Required| && Required[k] == f;
        assert MissingFrom(p)(Required[k]);
      }
    }
  }

  /** With every field present, a type other than the login type is refused. */
  lemma ScanRejectsType(p: Payload, now: int, instant: string -> Option<int>)
    requires forall f :: f in Required ==> f in p
    requires p["type"] != JStr(LoginType)
    ensures ScanCode(Object(p), now, instant) == ScanError("Invalid QR code type")
  {
    assert FirstWhere(Required, MissingFrom(p)) == None;
  }

  /** A well-formed login payload is refused exactly when it is more than a day old; a day exactly is accepted. */
  lemma ScanExpiry(p: Payload, now: int, instant: string -> Option<int>, at: int)
    requires forall f :: f in Required ==> f in p
    requires p["type"] == JStr(LoginType) && p["timestamp"].JStr? && instant(p["timestamp"].s) == Some(at)
    ensures ScanCode(Object(p), now, instant) == (if now - at > 86400 then ScanError("QR code has expired") else Scanned(p))
  {
    assert FirstWhere(Required, MissingFrom(p)) == None;
  }

  /** A freshly generated code, scanned within a day of its timestamp, is accepted with its own payload. */
  lemma GenerateThenScan(delegateId: Staff.Value, name: string, organization: string, stamp: string,
                         now: int, instant: string -> Option<int>, at: int)
    requires instant(stamp) == Some(at) && now - at <= MaxAge
    ensures ScanCode(Object(Generate(delegateId, name, organization, stamp)), now, instant)
            == Scanned(Generate(delegateId, name, organization, stamp))
  {
    var p := Generate(delegateId, name, organization, stamp);
    assert FirstWhere(Required, MissingFrom(p)) == None;
  }

  // ----- authentication -----

  /** A table as pandas holds it: its column names and, per row, the cells by column. */
  datatype Frame = Frame(columns: set<string>, rows: seq<map<string, Staff.Value>>)

  function Cell(row: map<string, Staff.Value>, c: string): Staff.Value {
    if c in row then row[c] else Staff.Nan
  }

  /** `row.get(c, '')`: the cell, or the empty text when the table has no such column. */
  function Get(f: Frame, row: map<string, Staff.Value>, c: string): Staff.Value {
    if c in f.columns then Cell(row, c) else Staff.Str("")
  }

  /** Python's `int(x)` on a JSON value; `None` where it raises. */
  function IntOf(j: Json): Option<int> {
    match j
    case JInt(i) => Some(i)
    case JBool(b) => Some(if b then 1 else 0)
    case JStr(s) => IntText(s)
    case JOther => None
  }

  /** Python's `int(s)` on text: an optional sign and decimal digits, surrounding white space ignored. */
  function IntText(s: string): Option<int> {
    var t := Trim(s);
    var signed := |t| > 0 && (t[0] == '-' || t[0] == '+');
    match ParseNat(if signed then t[1..] else t)
    case None => None
    case Some(n) => Some(if signed && t[0] == '-' then -(n as int) else n as int)
  }

  /** `int(str(n))` is `n`. */
  lemma IntTextOfNat(n: nat)
    ensures IntText(NatToString(n)) == Some(n)
  {
    var t := NatToString(n);
    assert IsDigit(t[0]) && IsDigit(t[|t| - 1]);
    TrimOfTrimmed(t);
    ParseNatToString(n);
  }

  /** The text an f-string writes for a JSON value that `int` accepted. */
  function Show(j: Json): string {
    match j
    case JStr(s) => s
    case JInt(i) => IntToString(i)
    case JBool(b) => if b then "True" else "False"
    case JOther => "None"
  }

  /** pandas' `cell == n` for an integer `n`: a text cell never equals a number. */
  predicate CellIs(v: Staff.Value, n: int) {
    match v
    case Num(m) => m == n
    case Bool(b) => (if b then 1 else 0) == n
    case Str(_) => false
    case Nan => false
  }

  function IdIs(n: int): map<string, Staff.Value> -> bool {
    row => CellIs(Cell(row, "ID"), n)
  }

  /** The three ways authentication ends: the delegate's row, a refusal, or an exception it does not catch. */
  datatype Auth = Authenticated(row: map<string, Staff.Value>) | Denied(message: string) | Raises

  /** Names and organizations are compared trimmed; `.strip()` on a cell that is not text raises. */
  function Matches(cell: Staff.Value, claimed: Json): Option<bool> {
    if cell.Str? && claimed.JStr? then Some(Trim(cell.s) == Trim(claimed.s)) else None
  }

  /** `authenticate_with_qr_code`, as the code is written. */
  function Authenticate(doc: Document, now: int, instant: string -> Option<int>, table: Frame): Auth {
    match ScanCode(doc, now, instant)
    case ScanError(e) => Denied(e)
    case Scanned(p) => Identify(p, table)
  }

  /** The checks after a successful scan: the ID, then the name, then the organization. */
  function Identify(p: Payload, table: Frame): Auth
    requires "delegate_id" in p && "delegate_name" in p && "organization" in p
  {
    var claimed := p["delegate_id"];
    match IntOf(claimed)
    case None => Raises
    case Some(n) =>
      if "ID" !in table.columns then Raises
      else match FirstWhere(table.rows, IdIs(n))
        case None => Denied("Delegate with ID " + Show(claimed) + " not found")
        case Some(i) =>
          var row := table.rows[i];
          match Matches(Get(table, row, "Full Name"), p["delegate_name"])
          case None => Raises
          case Some(false) => Denied("Delegate name mismatch")
          case Some(true) =>
            match Matches(Get(table, row, "Organization"), p["organization"])
            case None => Raises
            case Some(false) => Denied("Organization mismatch")
            case Some(true) => Authenticated(row)
  }

  /** A scan error is reported as it is, before the table is looked at. */
  lemma AuthenticateScansFirst(doc: Document, now: int, instant: string -> Option<int>, table: Frame)
    ensures ScanCode(doc, now, instant).ScanError? ==> Authenticate(doc, now, instant, table) == Denied(ScanCode(doc, now, instant).message)
    ensures ScanCode(doc, now, instant).Scanned? ==> Authenticate(doc, now, instant, table) == Identify(ScanCode(doc, now, instant).data, table)
  {
    ScanAccepts(doc, now, instant);
  }

  /**
    After the scan the checks run in order, ID, name, organization, and
    success needs all of them: the first row with the ID, whose name and
    organization both equal the code's once trimmed.
  */
  lemma IdentifyOrder(p: Payload, table: Frame)
    requires "delegate_id" in p && "delegate_name" in p && "organization" in p
    ensures Identify(p, table).Authenticated? <==>
              IntOf(p["delegate_id"]).Some? && "ID" in table.columns
              && var n := IntOf(p["delegate_id"]).value;
                 FirstWhere(table.rows, IdIs(n)).Some?
                 && var row := table.rows[FirstWhere(table.rows, IdIs(n)).value];
                    Matches(Get(table, row, "Full Name"), p["delegate_name"]) == Some(true)
                    && Matches(Get(table, row, "Organization"), p["organization"]) == Some(true)
    ensures Identify(p, table).Authenticated? ==> Identify(p, table).row in table.rows
    ensures Identify(p, table) == Denied("Delegate name mismatch") ==>
              exists i :: 0 <= i < |table.rows| && IdIs(IntOf(p["delegate_id"]).value)(table.rows[i])
  {
  }

  // ----- the registry table -----

  /** The registry's columns; `load_staff_df` writes every ID as text. */
  function RegistryRow(d: Staff.Delegate): map<string, Staff.Value> {
    map["ID" := Staff.Str(d.id), "Name" := Staff.Str(d.name), "Organization" := Staff.Str(d.organization)]
  }

  function RegistryRows(table: seq<Staff.Delegate>): (r: seq<map<string, Staff.Value>>)
    ensures |r| == |table| && forall i :: 0 <= i < |table| ==> r[i] == RegistryRow(table[i])
  {
    seq(|table|, i requires 0 <= i < |table| => RegistryRow(table[i]))
  }

  /** The frame `load_staff_df` returns for a registry. */
  function RegistryFrame(table: seq<Delegate>): Frame {
    Frame((set c | c in Staff.Columns), RegistryRows(table))
  }

  type Delegate = Staff.Delegate

  /** No row of the registry frame has an integer ID cell. */
  lemma RegistryIdsAreText(table: seq<Delegate>, n: int)
    ensures FirstWhere(RegistryFrame(table).rows, IdIs(n)) == None
  {
    var rows := RegistryRows(table);
    forall i | 0 <= i < |rows|
      ensures !IdIs(n)(rows[i])
    {
      assert Cell(rows[i], "ID") == Staff.Str(table[i].id);
    }
  }

  /**
    As written, authentication against the registry never succeeds: its ID
    cells are text and are compared with the integer `int(delegate_id)`.
  */
  lemma RegistryNeverAuthenticates(doc: Document, now: int, instant: string -> Option<int>, table: seq<Delegate>)
    ensures !Authenticate(doc, now, instant, RegistryFrame(table)).Authenticated?
  {
    AuthenticateScansFirst(doc, now, instant, RegistryFrame(table));
    if ScanCode(doc, now, instant).Scanned? {
      var p := ScanCode(doc, now, instant).data;
      if IntOf(p["delegate_id"]).Some? {
        RegistryIdsAreText(table, IntOf(p["delegate_id"]).value);
      }
    }
  }

  /** So a code just generated for a registered delegate is refused as unknown. */
  lemma RegisteredDelegateNotFound(table: seq<Delegate>, k: nat, name: string, organization: string,
                                   stamp: string, now: int, instant: string -> Option<int>, at: int)
    requires instant(stamp) == Some(at) && now - at <= MaxAge
    ensures Authenticate(Object(Generate(Staff.Str(NatToString(k)), name, organization, stamp)), now, instant,
                         RegistryFrame(table))
            == Denied("Delegate with ID " + NatToString(k) + " not found")
  {
    var p := Generate(Staff.Str(NatToString(k)), name, organization, stamp);
    GenerateThenScan(Staff.Str(NatToString(k)), name, organization, stamp, now, instant, at);
    IdentifyUnknown(table, k, p);
  }

  lemma IdentifyUnknown(table: seq<Delegate>, k: nat, p: Payload)
    requires "delegate_id" in p && "delegate_name" in p && "organization" in p
    requires p["delegate_id"] == JStr(NatToString(k))
    ensures Identify(p, RegistryFrame(table)) == Denied("Delegate with ID " + NatToString(k) + " not found")
  {
    IntTextOfNat(k);
    RegistryIdsAreText(table, k);
    RegistryHasIds(table);
  }

  lemma RegistryHasIds(table: seq<Delegate>)
    ensures "ID" in RegistryFrame(table).columns
  {
    assert Staff.Columns[1] == "ID";
  }

  /** A registry row has the delegate's ID, read as an integer. */
  function RegistryIdIs(n: int): Delegate -> bool {
    (d: Delegate) => IntText(d.id) == Some(n)
  }

  /**
    Authentication against the registry as intended: the row whose ID reads
    as the code's `int(delegate_id)`, with the name taken from the registry's
    Name column.
  */
  function AuthenticateRegistry(doc: Document, now: int, instant: string -> Option<int>, table: seq<Delegate>)
    : Option<Delegate>
  {
    match ScanCode(doc, now, instant)
    case ScanError(_) => None
    case Scanned(p) => IdentifyRegistered(p, table)
  }

  /** The intended checks after a successful scan. */
  function IdentifyRegistered(p: Payload, table: seq<Delegate>): Option<Delegate>
    requires "delegate_id" in p && "delegate_name" in p && "organization" in p
  {
    match IntOf(p["delegate_id"])
    case None => None
    case Some(n) =>
      match FirstWhere(table, RegistryIdIs(n))
      case None => None
      case Some(i) =>
        var d := table[i];
        if p["delegate_name"].JStr? && Trim(p["delegate_name"].s) == Trim(d.name)
           && p["organization"].JStr? && Trim(p["organization"].s) == Trim(d.organization)
        then Some(d) else None
  }

  /** A registered delegate's fresh code authenticates that delegate, the first row with the ID. */
  lemma RegistryRoundTrip(table: seq<Delegate>, i: nat, k: nat, stamp: string, now: int,
                          instant: string -> Option<int>, at: int)
    requires i < |table| && table[i].id == NatToString(k)
    requires forall j :: 0 <= j < i ==> IntText(table[j].id) != Some(k)
    requires instant(stamp) == Some(at) && now - at <= MaxAge
    ensures AuthenticateRegistry(Object(Generate(Staff.Str(table[i].id), table[i].name, table[i].organization, stamp)),
                                 now, instant, table) == Some(table[i])
  {
    var d := table[i];
    var p := Generate(Staff.Str(d.id), d.name, d.organization, stamp);
    GenerateThenScan(Staff.Str(d.id), d.name, d.organization, stamp, now, instant, at);
    IntTextOfNat(k);
    assert IntOf(p["delegate_id"]) == Some(k);
    assert RegistryIdIs(k)(d);
    FirstWhereAt(table, RegistryIdIs(k), i);
    assert IdentifyRegistered(p, table) == Some(d);
  }

  /** The intended checks return a row whose ID is the code's and whose name and organization match it. */
  lemma IdentifyRegisteredSound(p: Payload, table: seq<Delegate>)
    requires "delegate_id" in p && "delegate_name" in p && "organization" in p
    ensures var r := IdentifyRegistered(p, table);
            r.Some? ==> r.value in table && IntOf(p["delegate_id"]).Some? && IntText(r.value.id) == IntOf(p["delegate_id"])
                        && p["delegate_name"].JStr? && Trim(p["delegate_name"].s) == Trim(r.value.name)
                        && p["organization"].JStr? && Trim(p["organization"].s) == Trim(r.value.organization)
  {
    var r := IdentifyRegistered(p, table);
    if r.Some? {
      var n := IntOf(p["delegate_id"]).value;
      var i := FirstWhere(table, RegistryIdIs(n)).value;
      assert r.value == table[i];
      assert RegistryIdIs(n)(table[i]);
    }
  }

  /** And only a code that passes the scan authenticates anyone. */
  lemma AuthenticateRegistryScans(doc: Document, now: int, instant: string -> Option<int>, table: seq<Delegate>)
    ensures AuthenticateRegistry(doc, now, instant, table).Some? ==>
              doc.Object? && Acceptable(doc.fields, now, instant)
              && AuthenticateRegistry(doc, now, instant, table) == IdentifyRegistered(doc.fields, table)
  {
    ScanAccepts(doc, now, instant);
  }

  // ----- delegates who also speak -----

  /** A speaker record: its "name" (`None` when absent or null) and the rest of its fields. */
  datatype Speaker = Speaker(name: Option<string>, fields: map<string, Json>)

  /** Trimmed and lower-cased, the form both names are compared in. */
  function Folded(s: string): string { Trim(Lower(s)) }

  /** A speaker with a usable name (present, not empty, not "nan") equal to the folded delegate name. */
  function SpeaksAs(folded: string): Speaker -> bool {
    (sp: Speaker) => sp.name.Some? && sp.name.value != "" && sp.name.value != "nan" && Folded(sp.name.value) == folded
  }

  /** `check_dual_role_user`: the first speaker whose name matches the delegate's. */
  function DualRole(delegateName: string, speakers: seq<Speaker>): (r: Option<Speaker>)
  {
    match FirstWhere(speakers, SpeaksAs(Folded(delegateName)))
    case None => None
    case Some(i) => Some(speakers[i])
  }

  /** The delegate is a speaker exactly when some usable speaker name matches, and the first such speaker is returned. */
  lemma DualRoleFirst(delegateName: string, speakers: seq<Speaker>)
    ensures DualRole(delegateName, speakers).Some? <==>
            exists i :: 0 <= i < |speakers| && SpeaksAs(Folded(delegateName))(speakers[i])
    ensures DualRole(delegateName, speakers).Some? ==>
            exists i :: 0 <= i < |speakers| && speakers[i] == DualRole(delegateName, speakers).value
                        && SpeaksAs(Folded(delegateName))(speakers[i])
                        && forall j :: 0 <= j < i ==> !SpeaksAs(Folded(delegateName))(speakers[j])
  {
    var r := FirstWhere(speakers, SpeaksAs(Folded(delegateName)));
    if r.Some? {
      assert speakers[r.value] == DualRole(delegateName, speakers).value;
    }
  }

  /** The match ignores letter case and surrounding white space of the delegate's name. */
  lemma {:induction false} DualRoleIgnoresCase(delegateName: string, speakers: seq<Speaker>)
    ensures DualRole(Lower(delegateName), speakers) == DualRole(delegateName, speakers)
    ensures DualRole(Trim(delegateName), speakers) == DualRole(delegateName, speakers)
  {
    LowerIdempotent(delegateName);
    TrimLowerCommute(delegateName);
    TrimIdempotent(Lower(delegateName));
    assert Folded(Lower(delegateName)) == Folded(delegateName);
    assert Folded(Trim(delegateName)) == Folded(delegateName);
  }

  // ----- badge texts -----

  /** A badge line longer than `limit` is cut to its first `limit` characters and "..." */
  function Truncated(s: string, limit: nat): (r: string)
    ensures |s| <= limit ==> r == s
    ensures |s| > limit ==> |r| == limit + 3 && r[..limit] == s[..limit] && r[limit..] == "..."
  {
    if |s| > limit then s[..limit] + "..." else s
  }

  /** The organization line of a badge, at most 30 characters before the dots. */
  function OrganizationLine(organization: string): string { Truncated(organization, 30) }

  /** The title line of a badge, at most 25 characters before the dots. */
  function TitleLine(title: string): string { Truncated(title, 25) }

  /**
    A badge line is never longer than its limit and the dots, and cutting
    it again changes nothing: a line is left as it is exactly when it fits
    or already ends in the dots right after the limit.
  */
  lemma TruncatedIdempotent(s: string, limit: nat)
    ensures |Truncated(s, limit)| <= limit + 3
    ensures Truncated(Truncated(s, limit), limit) == Truncated(s, limit)
    ensures Truncated(s, limit) == s <==> |s| <= limit || (|s| == limit + 3 && s[limit..] == "...")
  {
    if |s| > limit && |s| == limit + 3 && s[limit..] == "..." {
      assert s == s[..limit] + s[limit..];
    }
  }
}
