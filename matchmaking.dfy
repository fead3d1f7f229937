/**
  The matchmaking interaction log of pages/11_Matchmaking.py: one list of
  connection requests and chat messages between delegates, with the
  request lifecycle (pending, then accepted or declined), the read marks
  on chat messages, the list of conversations and the recommendation
  score over the delegate registry.

  The log is the list the JSON file holds, passed in and returned.
*/
module Matchmaking {
  import opened Wrappers
  import opened Text
  import opened Seqs
  import Notifications
  import Staff

  /** One record of the log; `status` is `None` when the record has none. */
  datatype Record = Record(
    id: int,
    fromUser: string,
    toUser: string,
    fromName: string,
    toName: string,
    kind: string,
    status: Option<string>,
    message: string,
    createdAt: Option<nat>)

  /** Every record's id is its position + 1, as in a log that only ever grew by appends. */
  predicate IdsArePositions(records: seq<Record>) {
    forall i :: 0 <= i < |records| ==> records[i].id == i + 1
  }

  // ----- the header badge -----

  function PendingFor(u: string): Record -> bool {
    (x: Record) => x.toUser == u && x.kind == "connection_request" && x.status == Some("pending")
  }

  function SentTo(u: string): Record -> bool {
    (x: Record) => x.toUser == u && x.kind == "chat_message" && x.status == Some("sent")
  }

  /** get_matchmaking_notifications: pending requests to `u` and chat messages to `u` still marked 'sent'. */
  function MatchmakingCount(records: seq<Record>, u: string): nat {
    Count(records, PendingFor(u)) + Count(records, SentTo(u))
  }

  /** Appending a record changes the count by that record alone. */
  lemma MatchmakingCountAppend(records: seq<Record>, x: Record, u: string)
    ensures MatchmakingCount(records + [x], u) == MatchmakingCount(records, u)
              + (if PendingFor(u)(x) then 1 else 0) + (if SentTo(u)(x) then 1 else 0)
  {
    CountSnoc(records, x, PendingFor(u));
    CountSnoc(records, x, SentTo(u));
  }

  // ----- a user's records and the status between two users -----

  function Involves(u: string): Record -> bool {
    (x: Record) => x.fromUser == u || x.toUser == u
  }

  /** get_user_interactions: every record sent by or to `u`, in stored order. */
  function UserInteractions(records: seq<Record>, u: string): (r: seq<Record>)
    ensures forall x :: x in r <==> x in records && (x.fromUser == u || x.toUser == u)
  {
    KeepIn(records, Involves(u));
    Keep(records, Involves(u))
  }

  function Between(a: string, b: string): Record -> bool {
    (x: Record) => (x.fromUser == a && x.toUser == b) || (x.fromUser == b && x.toUser == a)
  }

  /**
    get_connection_status: the status of the first record of any type
    between the two users in either direction ('pending' when it has none),
    or 'none' when they have no record at all.
  */
  function ConnectionStatus(records: seq<Record>, a: string, b: string): string {
    match FirstWhere(records, Between(a, b))
    case None => "none"
    case Some(i) => records[i].status.GetOr("pending")
  }

  /** The status is read off the first record between the two, and only a log with no such record gives 'none' by default. */
  lemma ConnectionStatusFirst(records: seq<Record>, a: string, b: string, i: nat)
    requires i < |records| && Between(a, b)(records[i])
    requires forall j :: 0 <= j < i ==> !Between(a, b)(records[j])
    ensures ConnectionStatus(records, a, b) == records[i].status.GetOr("pending")
    ensures (forall j :: 0 <= j < |records| ==> !Between(a, b)(records[j])) ==> ConnectionStatus(records, a, b) == "none"
  {
    FirstWhereAt(records, Between(a, b), i);
  }

  /** The status does not depend on who asks. */
  lemma ConnectionStatusSymmetric(records: seq<Record>, a: string, b: string)
    ensures ConnectionStatus(records, a, b) == ConnectionStatus(records, b, a)
  {
    FirstWhereSame(records, Between(a, b), Between(b, a));
  }

  // ----- the request lifecycle -----

  /** The record the Connect button appends. */
  function RequestRecord(records: seq<Record>, me: string, meName: string, to: string, toName: string, now: nat): Record {
    Record(|records| + 1, me, to, meName, toName, "connection_request", Some("pending"),
           meName + " wants to connect with you", Some(now))
  }

  /**
    Sending a connection request, offered only while the two have no
    record: the request is appended and the recipient is notified.
  */
  function SendRequest(records: seq<Record>, notes: seq<Notifications.Notification>, me: string, meName: string,
                       to: string, toName: string, now: nat): (r: (seq<Record>, seq<Notifications.Notification>))
    requires ConnectionStatus(records, me, to) == "none"
    ensures |r.0| == |records| + 1 && r.0[..|records|] == records
    ensures r.0[|records|].id == |records| + 1 && r.0[|records|].status == Some("pending")
    ensures r.0[|records|].kind == "connection_request" && r.0[|records|].fromUser == me && r.0[|records|].toUser == to
    ensures r.1 == Notifications.ConnectionNotification(notes, me, to, "request", now)
  {
    (records + [RequestRecord(records, me, meName, to, toName, now)],
     Notifications.ConnectionNotification(notes, me, to, "request", now))
  }

  /**
    When the two had no record yet, after a request they are 'pending' whichever of them asks, the
    recipient's badge count goes up by one, and ids stay positions.
  */
  lemma SendRequestEffect(records: seq<Record>, notes: seq<Notifications.Notification>, me: string, meName: string,
                          to: string, toName: string, now: nat, u: string)
    requires forall j :: 0 <= j < |records| ==> !Between(me, to)(records[j])
    ensures var r := SendRequest(records, notes, me, meName, to, toName, now).0;
            ConnectionStatus(r, me, to) == "pending" && ConnectionStatus(r, to, me) == "pending"
            && MatchmakingCount(r, u) == MatchmakingCount(records, u) + (if u == to then 1 else 0)
            && (IdsArePositions(records) ==> IdsArePositions(r))
  {
    var x := RequestRecord(records, me, meName, to, toName, now);
    var r := records + [x];
    FirstWhereAppended(records, x, Between(me, to));
    ConnectionStatusSymmetric(r, me, to);
    MatchmakingCountAppend(records, x, u);
  }

  function RecordHasId(id: int): Record -> bool {
    (x: Record) => x.id == id
  }

  /** The status change of accept and decline: the first record with the id gets the new status. */
  function Respond(records: seq<Record>, id: int, status: string): seq<Record> {
    match FirstWhere(records, RecordHasId(id))
    case None => records
    case Some(i) => records[i := records[i].(status := Some(status))]
  }

  /** The loop of the Accept and Decline buttons, which stops at the first record with the id. */
  method SetStatus(records: seq<Record>, id: int, status: string) returns (r: seq<Record>)
    ensures r == Respond(records, id, status)
  {
    var i := 0;
    while i < |records|
      invariant 0 <= i <= |records|
      invariant forall j :: 0 <= j < i ==> records[j].id != id
    {
      if records[i].id == id {
        assert FirstWhere(records, RecordHasId(id)) == Some(i);
        return records[i := records[i].(status := Some(status))];
      }
      i := i + 1;
    }
    return records;
  }

  /** Accept: the request becomes 'accepted' and its sender is notified. */
  function Accept(records: seq<Record>, notes: seq<Notifications.Notification>, me: string, request: Record, now: nat)
    : (seq<Record>, seq<Notifications.Notification>) {
    (Respond(records, request.id, "accepted"),
     Notifications.ConnectionNotification(notes, me, request.fromUser, "accepted", now))
  }

  /** Decline: the request becomes 'declined'; nobody is notified. */
  function Decline(records: seq<Record>, request: Record): seq<Record> {
    Respond(records, request.id, "declined")
  }

  /** Only the request's own record changes, and in it only the status; in a log whose ids are positions that is record id − 1. */
  lemma RespondEffect(records: seq<Record>, id: int, status: string)
    ensures |Respond(records, id, status)| == |records|
    ensures forall j :: 0 <= j < |records| && records[j].id != id ==> Respond(records, id, status)[j] == records[j]
    ensures forall j :: 0 <= j < |records| ==> Respond(records, id, status)[j].(status := None) == records[j].(status := None)
    ensures IdsArePositions(records) && 1 <= id <= |records| ==>
              Respond(records, id, status) == records[id - 1 := records[id - 1].(status := Some(status))]
  {
    if IdsArePositions(records) && 1 <= id <= |records| {
      FirstWhereAt(records, RecordHasId(id), id - 1);
    }
  }

  /**
    Accepting the request that opened the exchange makes the two connected:
    both of them then see 'accepted' (and 'declined' after a decline).
  */
  lemma RespondToFirst(records: seq<Record>, i: nat, status: string)
    requires IdsArePositions(records) && i < |records|
    requires forall j :: 0 <= j < i ==> !Between(records[i].fromUser, records[i].toUser)(records[j])
    ensures var a, b := records[i].fromUser, records[i].toUser;
            ConnectionStatus(Respond(records, records[i].id, status), a, b) == status
            && ConnectionStatus(Respond(records, records[i].id, status), b, a) == status
  {
    var a, b := records[i].fromUser, records[i].toUser;
    var r := Respond(records, records[i].id, status);
    RespondEffect(records, records[i].id, status);
    assert r[i].fromUser == a && r[i].toUser == b && r[i].status == Some(status);
    ConnectionStatusFirst(r, a, b, i);
    ConnectionStatusSymmetric(r, a, b);
  }

  // ----- opening a chat -----

  function ChatWith(me: string, partner: string): Record -> bool {
    (x: Record) => x.kind == "chat_message" &&
      ((x.fromUser == me && x.toUser == partner) || (x.toUser == me && x.fromUser == partner))
  }

  function UnreadFor(me: string): Record -> bool {
    (x: Record) => x.toUser == me && x.status == Some("sent")
  }

  /** The chat history shown for the partner: the chat messages between the two among `me`'s records. */
  function ChatMessages(records: seq<Record>, me: string, partner: string): seq<Record> {
    Keep(UserInteractions(records, me), ChatWith(me, partner))
  }

  /** One step of the mark-read loop: the first record whose id is the message's becomes 'read'. */
  function ReadFirst(records: seq<Record>, id: int): seq<Record> {
    Respond(records, id, "read")
  }

  /** The mark-read loop over the shown messages, message by message. */
  function ReadAll(records: seq<Record>, msgs: seq<Record>, me: string): seq<Record>
    decreases |msgs|
  {
    if msgs == [] then records
    else
      var acc := ReadAll(records, msgs[..|msgs| - 1], me);
      var m := msgs[|msgs| - 1];
      if UnreadFor(me)(m) then ReadFirst(acc, m.id) else acc
  }

  /** Opening a chat: the messages shown are marked read one by one. */
  method OpenChat(records: seq<Record>, me: string, partner: string) returns (r: seq<Record>)
    ensures r == ReadAll(records, ChatMessages(records, me, partner), me)
  {
    var msgs := ChatMessages(records, me, partner);
    r := records;
    var k := 0;
    while k < |msgs|
      invariant 0 <= k <= |msgs|
      invariant r == ReadAll(records, msgs[..k], me)
    {
      var m := msgs[k];
      TakeSnoc(msgs, k);
      assert msgs[..k + 1][..k] == msgs[..k];
      if m.toUser == me && m.status == Some("sent") {
        r := SetStatus(r, m.id, "read");
      }
      k := k + 1;
    }
    assert k == |msgs|;
    TakeAll(msgs);
  }

  function MarkedIf(x: Record, c: bool): Record {
    if c then x.(status := Some("read")) else x
  }

  /** What opening the chat with `partner` does to the log: exactly the partner's messages to `me` still marked 'sent' become 'read'. */
  function Opened(records: seq<Record>, me: string, partner: string): (r: seq<Record>)
    ensures |r| == |records|
  {
    seq(|records|, j requires 0 <= j < |records| =>
      MarkedIf(records[j], ChatWith(me, partner)(records[j]) && UnreadFor(me)(records[j])))
  }

  /** `acc` is `records` with the unread records among `msgs` marked read. */
  predicate MarksFrom(records: seq<Record>, acc: seq<Record>, msgs: seq<Record>, me: string) {
    |acc| == |records|
    && forall j :: 0 <= j < |records| ==> acc[j] == MarkedIf(records[j], records[j] in msgs && UnreadFor(me)(records[j]))
  }

  lemma MarkStep(records: seq<Record>, acc: seq<Record>, init: seq<Record>, m: Record, me: string)
    requires IdsArePositions(records) && m in records
    requires MarksFrom(records, acc, init, me)
    ensures MarksFrom(records, if UnreadFor(me)(m) then ReadFirst(acc, m.id) else acc, init + [m], me)
  {
    forall j | 0 <= j < |records|
      ensures (records[j] in init + [m]) == (records[j] in init || records[j] == m)
    {
    }
    if UnreadFor(me)(m) {
      var t :| 0 <= t < |records| && records[t] == m;
      assert IdsArePositions(acc) by {
        forall j | 0 <= j < |acc|
          ensures acc[j].id == j + 1
        {
          assert acc[j].id == records[j].id;
        }
      }
      RespondEffect(acc, m.id, "read");
      forall j | 0 <= j < |records| && j != t
        ensures records[j] != m
      {
        assert records[j].id != records[t].id;
      }
    }
  }

  /** After marking the first `msgs`, the records among them that were unread for `me` are read and nothing else differs. */
  lemma {:induction false} ReadAllMarks(records: seq<Record>, msgs: seq<Record>, me: string)
    requires IdsArePositions(records)
    requires forall k :: 0 <= k < |msgs| ==> msgs[k] in records
    ensures MarksFrom(records, ReadAll(records, msgs, me), msgs, me)
    decreases |msgs|
  {
    if msgs != [] {
      var init := msgs[..|msgs| - 1];
      var m := msgs[|msgs| - 1];
      assert forall k :: 0 <= k < |init| ==> init[k] == msgs[k];
      ReadAllMarks(records, init, me);
      assert msgs == init + [m];
      MarkStep(records, ReadAll(records, init, me), init, m, me);
    }
  }

  /** With ids as positions, opening the chat marks exactly the partner's unread messages to `me` and changes nothing else. */
  lemma OpenChatEffect(records: seq<Record>, me: string, partner: string)
    requires IdsArePositions(records)
    ensures ReadAll(records, ChatMessages(records, me, partner), me) == Opened(records, me, partner)
  {
    var msgs := ChatMessages(records, me, partner);
    KeepIn(UserInteractions(records, me), ChatWith(me, partner));
    ReadAllMarks(records, msgs, me);
  }

  /** After opening the chat, `me` has no unread message from `partner` left, and every other record is as it was. */
  lemma OpenChatReadsAll(records: seq<Record>, me: string, partner: string)
    requires IdsArePositions(records)
    ensures var r := Opened(records, me, partner);
            (forall j :: 0 <= j < |r| ==> !(ChatWith(me, partner)(r[j]) && UnreadFor(me)(r[j])))
            && (forall j :: 0 <= j < |r| && !ChatWith(me, partner)(records[j]) ==> r[j] == records[j])
  {
  }

  // ----- conversations -----

  /** One entry of the conversations list. */
  datatype Conn = Conn(userId: string, userName: string, last: Option<nat>)

  function AcceptedWith(me: string): Record -> bool {
    (x: Record) => x.status == Some("accepted") && (x.fromUser == me || x.toUser == me)
  }

  /** The other side of an accepted record. */
  function PartnerOf(x: Record, me: string): Conn {
    if x.fromUser == me then Conn(x.toUser, x.toName, x.createdAt) else Conn(x.fromUser, x.fromName, x.createdAt)
  }

  function Partners(s: seq<Record>, me: string): (r: seq<Conn>)
    ensures |r| == |s|
  {
    seq(|s|, i requires 0 <= i < |s| => PartnerOf(s[i], me))
  }

  /** The loop over `me`'s records that lists the partner of every accepted one. */
  method BuildConnections(mine: seq<Record>, me: string) returns (conns: seq<Conn>)
    ensures conns == Partners(Keep(mine, AcceptedWith(me)), me)
  {
    conns := [];
    var k := 0;
    while k < |mine|
      invariant 0 <= k <= |mine|
      invariant conns == Partners(Keep(mine[..k], AcceptedWith(me)), me)
    {
      var x := mine[k];
      TakeSnoc(mine, k);
      KeepSnoc(mine[..k], x, AcceptedWith(me));
      if x.status == Some("accepted") {
        if x.fromUser == me {
          conns := conns + [Conn(x.toUser, x.toName, x.createdAt)];
        } else if x.toUser == me {
          conns := conns + [Conn(x.fromUser, x.fromName, x.createdAt)];
        }
      }
      assert conns == Partners(Keep(mine[..k + 1], AcceptedWith(me)), me);
      k := k + 1;
    }
    assert k == |mine|;
    TakeAll(mine);
  }

  function ConnUser(c: Conn): string { c.userId }

  /** The seen-set loop that keeps the first entry per partner. */
  method DedupeConnections(conns: seq<Conn>) returns (unique: seq<Conn>)
    ensures unique == Dedupe(conns, ConnUser)
  {
    unique := [];
    var seen: set<string> := {};
    var k := 0;
    while k < |conns|
      invariant 0 <= k <= |conns|
      invariant Dedupe(conns, ConnUser) == unique + DedupeFrom(conns[k..], ConnUser, seen)
    {
      var c := conns[k];
      assert conns[k..][1..] == conns[k + 1..];
      if c.userId !in seen {
        unique := unique + [c];
        seen := seen + {c.userId};
      }
      k := k + 1;
    }
  }

  /** Each partner appears once, at the place of their first accepted record, and every entry comes from the list. */
  lemma DedupeConnectionsSpec(conns: seq<Conn>)
    ensures var u := Dedupe(conns, ConnUser);
            (forall i :: 0 <= i < |u| ==> u[i] in conns)
            && (forall i, j :: 0 <= i < j < |u| ==> u[i].userId != u[j].userId)
            && (forall i :: 0 <= i < |conns| ==> conns[i].userId in Keys(u, ConnUser))
  {
    DedupeFromSpec(conns, ConnUser, {});
  }

  // ----- recommendations -----

  /** A text cell of the registry as load_staff_df reloads it: `None` is a cell `read_csv` loads as NaN. */
  type Cell = Option<string>

  /** The registry fields the score reads, as load_delegates hands them over. */
  datatype Delegate = Delegate(id: string, name: string, organization: Cell, category: Cell, roleTitle: Cell)

  /** A saved text as the reload gives it: NaN for pandas' NA texts, among them "". */
  function LoadedCell(s: string): (c: Cell)
    ensures c.None? <==> s in Staff.CsvNaValues
    ensures c.Some? ==> c.value == s
  {
    if Staff.Loaded(s).Nan? then None else Some(s)
  }

  /**
    load_delegates: a registry row as load_staff_df reads it back. The ID is
    kept as text by `_ensure_schema`; the organization, category and role
    title are NaN exactly when their saved text is one of pandas' NA texts.
  */
  function LoadDelegate(row: Staff.Delegate): (d: Delegate)
    ensures d.id == row.id && d.name == row.name
    ensures d.organization == LoadedCell(row.organization) && d.category == LoadedCell(row.category)
    ensures d.roleTitle == LoadedCell(row.roleTitle)
    ensures row.roleTitle == "" ==> d.roleTitle.None?
  {
    Delegate(row.id, row.name, LoadedCell(row.organization), LoadedCell(row.category), LoadedCell(row.roleTitle))
  }

  /** Python's `==` on two cells: NaN equals nothing, not even another NaN. */
  predicate SameCell(a: Cell, b: Cell) {
    a.Some? && a == b
  }

  /** Python's truth value of a cell: NaN is true, a text when it is non-empty. */
  predicate CellTruthy(c: Cell) {
    c.None? || c.value != ""
  }

  /** Some word of my role title occurs in theirs, both lower-cased; both titles must be non-empty. */
  predicate RolesOverlap(mine: string, theirs: string) {
    mine != "" && theirs != "" &&
    exists k :: 0 <= k < |Words(Lower(mine))| && Contains(Lower(theirs), Words(Lower(mine))[k])
  }

  /**
    The role test of the scoring loop as written; `None` is the AttributeError
    it raises. Both cells must be truthy; then `.lower()` is called on my cell
    and, once my title has a word, on theirs, and NaN has no `.lower()`.
  */
  function RoleTestAsWritten(mine: Cell, theirs: Cell): Option<bool> {
    if !CellTruthy(theirs) || !CellTruthy(mine) then Some(false)
    else if mine.None? then None
    else if Words(Lower(mine.value)) == [] then Some(false)
    else if theirs.None? then None
    else Some(RolesOverlap(mine.value, theirs.value))
  }

  /** The role test as intended: a blank role title, NaN included, reads as "" and overlaps nothing. */
  predicate RoleTest(mine: Cell, theirs: Cell) {
    RolesOverlap(mine.GetOr(""), theirs.GetOr(""))
  }

  /** The cells on which the role test as written raises: both truthy, and a NaN reached by `.lower()`. */
  predicate RoleRaises(mine: Cell, theirs: Cell) {
    CellTruthy(mine) && CellTruthy(theirs) && (mine.None? || (Words(Lower(mine.value)) != [] && theirs.None?))
  }

  /** The role test as written raises exactly on RoleRaises, and otherwise agrees with the intended one. */
  lemma RoleTestAgrees(mine: Cell, theirs: Cell)
    ensures RoleTestAsWritten(mine, theirs).None? <==> RoleRaises(mine, theirs)
    ensures !RoleRaises(mine, theirs) ==> RoleTestAsWritten(mine, theirs) == Some(RoleTest(mine, theirs))
  {
  }

  /** The intended score: 10 for a shared organization, 5 for a shared category, 3 for overlapping roles. */
  function Score(me: Delegate, d: Delegate): int {
    (if SameCell(d.organization, me.organization) then 10 else 0)
    + (if SameCell(d.category, me.category) then 5 else 0)
    + (if RoleTest(me.roleTitle, d.roleTitle) then 3 else 0)
  }

  /** The score of one delegate as the loop computes it; `None` when its role test raises. */
  function ScoreAsWritten(me: Delegate, d: Delegate): Option<int> {
    match RoleTestAsWritten(me.roleTitle, d.roleTitle)
    case None => None
    case Some(overlap) =>
      Some((if SameCell(d.organization, me.organization) then 10 else 0)
           + (if SameCell(d.category, me.category) then 5 else 0)
           + (if overlap then 3 else 0))
  }

  /** As written, scoring raises exactly on RoleRaises and otherwise gives the intended score. */
  lemma ScoreAsWrittenAgrees(me: Delegate, d: Delegate)
    ensures ScoreAsWritten(me, d) == if RoleRaises(me.roleTitle, d.roleTitle) then None else Some(Score(me, d))
  {
    RoleTestAgrees(me.roleTitle, d.roleTitle);
  }

  /**
    A delegate is recommended when any of the three criteria holds, and the
    weights rank them strictly: the same organization outscores anything
    without it, and with that equal the same category outscores a role overlap.
    A blank organization, being NaN, is shared with nobody.
  */
  lemma ScoreRanks(me: Delegate, d1: Delegate, d2: Delegate)
    ensures 0 <= Score(me, d1) <= 18
    ensures Score(me, d1) > 0 <==> SameCell(d1.organization, me.organization) || SameCell(d1.category, me.category)
                                   || RoleTest(me.roleTitle, d1.roleTitle)
    ensures SameCell(d1.organization, me.organization) && !SameCell(d2.organization, me.organization) ==>
              Score(me, d1) > Score(me, d2)
    ensures ((SameCell(d1.organization, me.organization) <==> SameCell(d2.organization, me.organization))
             && SameCell(d1.category, me.category) && !SameCell(d2.category, me.category)) ==> Score(me, d1) > Score(me, d2)
    ensures me.organization.None? || d1.organization.None? ==> Score(me, d1) <= 8
  {
  }

  /** As intended, a blank role title on either side adds nothing: the score is the organization and category part. */
  lemma BlankRoleNoBonus(me: Delegate, d: Delegate)
    requires !CellTruthy(me.roleTitle) || !CellTruthy(d.roleTitle) || me.roleTitle.None? || d.roleTitle.None?
    ensures Score(me, d) == (if SameCell(d.organization, me.organization) then 10 else 0)
                            + (if SameCell(d.category, me.category) then 5 else 0)
  {
  }

  /**
    As written, two delegates registered with the default blank organization and
    role title get no organization bonus, and scoring one raises once the
    other's role title has a word.
  */
  lemma BlankCellsAsWritten(meRow: Staff.Delegate, row: Staff.Delegate)
    requires meRow.organization == "" && row.organization == "" && row.roleTitle == ""
    requires meRow.roleTitle !in Staff.CsvNaValues && Words(Lower(meRow.roleTitle)) != []
    ensures !SameCell(LoadDelegate(row).organization, LoadDelegate(meRow).organization)
    ensures ScoreAsWritten(LoadDelegate(meRow), LoadDelegate(row)).None?
    ensures ScoreAsWritten(LoadDelegate(row), LoadDelegate(meRow)).None?
  {
  }

  datatype Match = Match(delegate: Delegate, score: int)

  function MatchKey(m: Match): Key { Key(m.score, 0) }

  /** The matches the scoring loop appends: every delegate scoring above 0, with the score, in registry order. */
  function Scored(ds: seq<Delegate>, me: Delegate): seq<Match>
    decreases |ds|
  {
    if ds == [] then []
    else
      var d := ds[|ds| - 1];
      Scored(ds[..|ds| - 1], me) + (if Score(me, d) > 0 then [Match(d, Score(me, d))] else [])
  }

  lemma {:induction false} ScoredMembers(ds: seq<Delegate>, me: Delegate)
    ensures forall m :: m in Scored(ds, me) <==> m.delegate in ds && m.score == Score(me, m.delegate) && m.score > 0
    decreases |ds|
  {
    if ds != [] {
      var init := ds[..|ds| - 1];
      ScoredMembers(init, me);
      assert ds == init + [ds[|ds| - 1]];
    }
  }

  /** The scoring loop as written: it stops at the first delegate whose role test raises. */
  function ScoredAsWritten(ds: seq<Delegate>, me: Delegate): Option<seq<Match>>
    decreases |ds|
  {
    if ds == [] then Some([])
    else
      var d := ds[|ds| - 1];
      match ScoredAsWritten(ds[..|ds| - 1], me)
      case None => None
      case Some(init) =>
        match ScoreAsWritten(me, d)
        case None => None
        case Some(s) => Some(init + (if s > 0 then [Match(d, s)] else []))
  }

  /** Some delegate of the list makes the role test raise against me. */
  predicate AnyRaises(ds: seq<Delegate>, me: Delegate) {
    exists k :: 0 <= k < |ds| && RoleRaises(me.roleTitle, ds[k].roleTitle)
  }

  /** The loop as written raises exactly when some delegate's role test does; otherwise it builds the intended list. */
  lemma {:induction false} ScoredAsWrittenAgrees(ds: seq<Delegate>, me: Delegate)
    ensures ScoredAsWritten(ds, me) == if AnyRaises(ds, me) then None else Some(Scored(ds, me))
    decreases |ds|
  {
    if ds != [] {
      var init := ds[..|ds| - 1];
      var d := ds[|ds| - 1];
      ScoredAsWrittenAgrees(init, me);
      ScoreAsWrittenAgrees(me, d);
      assert AnyRaises(ds, me) <==> AnyRaises(init, me) || RoleRaises(me.roleTitle, d.roleTitle) by {
        if AnyRaises(init, me) {
          var k :| 0 <= k < |init| && RoleRaises(me.roleTitle, init[k].roleTitle);
          assert ds[k] == init[k];
        }
        if AnyRaises(ds, me) && !RoleRaises(me.roleTitle, d.roleTitle) {
          var k :| 0 <= k < |ds| && RoleRaises(me.roleTitle, ds[k].roleTitle);
          assert k < |init| && init[k] == ds[k];
        }
      }
    }
  }

  /** One turn of the scoring loop as written, for a delegate whose score does not raise. */
  lemma ScoredAsWrittenStep(ds: seq<Delegate>, k: nat, me: Delegate)
    requires k < |ds| && ScoredAsWritten(ds[..k], me).Some? && ScoreAsWritten(me, ds[k]).Some?
    ensures var s := ScoreAsWritten(me, ds[k]).value;
            ScoredAsWritten(ds[..k + 1], me)
            == Some(ScoredAsWritten(ds[..k], me).value + (if s > 0 then [Match(ds[k], s)] else []))
  {
    TakeSnoc(ds, k);
    assert ds[..k + 1][..k] == ds[..k];
  }

  /** Once one delegate's score raises, the whole loop does. */
  lemma RaisedStops(ds: seq<Delegate>, k: nat, me: Delegate)
    requires k < |ds| && ScoreAsWritten(me, ds[k]).None?
    ensures ScoredAsWritten(ds, me).None?
  {
    ScoreAsWrittenAgrees(me, ds[k]);
    ScoredAsWrittenAgrees(ds, me);
  }

  function HasDelegateId(id: string): Delegate -> bool {
    (d: Delegate) => d.id == id
  }

  function NotDelegate(id: string): Delegate -> bool {
    (d: Delegate) => d.id != id
  }

  /** The intended recommendations: the scored other delegates, highest score first, at most 5; none when `meId` is not registered. */
  function Recommendations(delegates: seq<Delegate>, meId: string): seq<Match> {
    match FirstWhere(delegates, HasDelegateId(meId))
    case None => []
    case Some(i) => Take(SortDesc(Scored(Keep(delegates, NotDelegate(meId)), delegates[i]), MatchKey), 5)
  }

  /** The tab raises when the user is registered and some other delegate's role test raises against them. */
  predicate TabRaises(delegates: seq<Delegate>, meId: string) {
    match FirstWhere(delegates, HasDelegateId(meId))
    case None => false
    case Some(i) => AnyRaises(Keep(delegates, NotDelegate(meId)), delegates[i])
  }

  /** The recommendation tab as written; `None` is the AttributeError that ends it. */
  function RecommendationsAsWritten(delegates: seq<Delegate>, meId: string): Option<seq<Match>> {
    match FirstWhere(delegates, HasDelegateId(meId))
    case None => Some([])
    case Some(i) =>
      match ScoredAsWritten(Keep(delegates, NotDelegate(meId)), delegates[i])
      case None => None
      case Some(recs) => Some(Take(SortDesc(recs, MatchKey), 5))
  }

  /** As written, the tab raises exactly on TabRaises and otherwise shows the intended recommendations. */
  lemma RecommendationsAsWrittenAgrees(delegates: seq<Delegate>, meId: string)
    ensures RecommendationsAsWritten(delegates, meId) ==
            if TabRaises(delegates, meId) then None else Some(Recommendations(delegates, meId))
  {
    var found := FirstWhere(delegates, HasDelegateId(meId));
    if found.Some? {
      ScoredAsWrittenAgrees(Keep(delegates, NotDelegate(meId)), delegates[found.value]);
    }
  }

  /**
    As written, a registered user whose role title has a word cannot open the
    tab once another delegate's role title is NaN, as a registration with the
    default empty role title leaves it.
  */
  lemma BlankRoleEndsTab(delegates: seq<Delegate>, meId: string, i: nat, j: nat)
    requires i < |delegates| && delegates[i].id == meId
    requires forall k :: 0 <= k < i ==> delegates[k].id != meId
    requires delegates[i].roleTitle.Some? && Words(Lower(delegates[i].roleTitle.value)) != []
    requires j < |delegates| && delegates[j].id != meId && delegates[j].roleTitle.None?
    ensures RecommendationsAsWritten(delegates, meId).None?
  {
    FirstWhereAt(delegates, HasDelegateId(meId), i);
    var me := delegates[i];
    var others := Keep(delegates, NotDelegate(meId));
    KeepIn(delegates, NotDelegate(meId));
    assert delegates[j] in others;
    var k :| 0 <= k < |others| && others[k] == delegates[j];
    assert RoleRaises(me.roleTitle, others[k].roleTitle);
    ScoredAsWrittenAgrees(others, me);
  }

  /** The score of one delegate, in the order the loop body tests the criteria; `None` when the role test raises. */
  method ScoreOne(me: Delegate, d: Delegate) returns (r: Option<int>)
    ensures r == ScoreAsWritten(me, d)
  {
    var score := 0;
    if d.organization.Some? && d.organization == me.organization {
      score := score + 10;
    }
    if d.category.Some? && d.category == me.category {
      score := score + 5;
    }
    if CellTruthy(d.roleTitle) && CellTruthy(me.roleTitle) {
      if me.roleTitle.None? {
        return None;
      }
      if Words(Lower(me.roleTitle.value)) != [] {
        if d.roleTitle.None? {
          return None;
        }
        if RolesOverlap(me.roleTitle.value, d.roleTitle.value) {
          score := score + 3;
        }
      }
    }
    return Some(score);
  }

  /**
    The recommendation tab: find the user, score every other delegate in a
    loop, sort, show the top 5; `None` when scoring raises.
  */
  method Recommend(delegates: seq<Delegate>, meId: string) returns (shown: Option<seq<Match>>)
    ensures shown == RecommendationsAsWritten(delegates, meId)
    ensures shown == if TabRaises(delegates, meId) then None else Some(Recommendations(delegates, meId))
  {
    RecommendationsAsWrittenAgrees(delegates, meId);
    var found := FirstWhere(delegates, HasDelegateId(meId));
    if found.None? {
      return Some([]);
    }
    var me := delegates[found.value];
    var others := Keep(delegates, NotDelegate(meId));
    var recs: seq<Match> := [];
    var k := 0;
    while k < |others|
      invariant 0 <= k <= |others|
      invariant ScoredAsWritten(others[..k], me) == Some(recs)
    {
      var d := others[k];
      var score := ScoreOne(me, d);
      if score.None? {
        RaisedStops(others, k, me);
        return None;
      }
      ScoredAsWrittenStep(others, k, me);
      var added := if score.value > 0 then [Match(d, score.value)] else [];
      assert ScoredAsWritten(others[..k + 1], me) == Some(recs + added);
      recs := recs + added;
      k := k + 1;
    }
    TakeAll(others);
    shown := Some(Take(SortDesc(recs, MatchKey), 5));
  }

  /**
    At most five are shown, each another delegate with its true positive
    score, highest first; a scoring delegate left out is outscored by all
    five shown. Unless scoring raises, the tab as written shows exactly these.
  */
  lemma RecommendationsSpec(delegates: seq<Delegate>, meId: string, i: nat)
    requires i < |delegates| && delegates[i].id == meId
    requires forall j :: 0 <= j < i ==> delegates[j].id != meId
    ensures var r := Recommendations(delegates, meId);
            var me := delegates[i];
            |r| <= 5
            && (forall m :: m in r ==> m.delegate in delegates && m.delegate.id != meId && m.score == Score(me, m.delegate) > 0)
            && (forall a, b :: 0 <= a < b < |r| ==> r[a].score >= r[b].score)
            && (forall d :: d in delegates && d.id != meId && Score(me, d) > 0 && Match(d, Score(me, d)) !in r ==>
                  |r| == 5 && forall m :: m in r ==> m.score >= Score(me, d))
    ensures !TabRaises(delegates, meId) ==> RecommendationsAsWritten(delegates, meId) == Some(Recommendations(delegates, meId))
  {
    RecommendationsAsWrittenAgrees(delegates, meId);
    FirstWhereAt(delegates, HasDelegateId(meId), i);
    var me := delegates[i];
    var others := Keep(delegates, NotDelegate(meId));
    KeepIn(delegates, NotDelegate(meId));
    var recs := Scored(others, me);
    ScoredMembers(others, me);
    SortDescIn(recs, MatchKey);
    var sorted := SortDesc(recs, MatchKey);
    TakeOfSorted(sorted, MatchKey, 5);
    var r := Take(sorted, 5);
    assert Recommendations(delegates, meId) == r;
    forall a, b | 0 <= a < b < |r|
      ensures r[a].score >= r[b].score
    {
      assert !Above(MatchKey(r[b]), MatchKey(r[a]));
    }
    forall d | d in delegates && d.id != meId && Score(me, d) > 0 && Match(d, Score(me, d)) !in r
      ensures |r| == 5 && forall m :: m in r ==> m.score >= Score(me, d)
    {
      var x := Match(d, Score(me, d));
      assert d in others;
      assert x in recs && x in sorted;
      forall m | m in r
        ensures m.score >= Score(me, d)
      {
        assert !Above(MatchKey(x), MatchKey(m));
      }
    }
  }

  /** Delegates with the same score keep their registry order, in the list the loop as written builds too. */
  lemma RecommendationsStable(ds: seq<Delegate>, me: Delegate, k: Key)
    ensures WithKey(SortDesc(Scored(ds, me), MatchKey), MatchKey, k) == WithKey(Scored(ds, me), MatchKey, k)
    ensures forall recs :: ScoredAsWritten(ds, me) == Some(recs) ==>
              WithKey(SortDesc(recs, MatchKey), MatchKey, k) == WithKey(recs, MatchKey, k)
  {
    SortDescStable(Scored(ds, me), MatchKey, k);
    ScoredAsWrittenAgrees(ds, me);
  }
}
