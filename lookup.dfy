/**
 * The result query of `doGet`: with `action=getResult`, the rows of the sheet
 * are searched from the newest to the oldest for the first whose phone number
 * and birthdate equal the query's, and its status decides the answer: the six
 * result cells for DONE, ERROR, or PENDING for anything else and for no match.
 * Any other action is a health check.
 */
module Lookup {
  import opened Wrappers
  import opened Text
  import opened Table
  import opened SectionParser
  import opened Intake
  import opened Spreadsheet
  import opened SheetSetup
  import opened Jobs

  /** The error doGet gives when the phone number or the birthdate is blank. */
  const QueryError: string := "phone/birthdate 필요"

  /** The service name the health check reports. */
  const ServiceName: string := "saju-intake"

  /** The action that asks for a result. */
  const GetResultAction: string := "getResult"

  /** The answers of doGet. */
  datatype GetReply =
    | Ready(result: Sections)                 // {ok: true, status: "DONE", result}
    | Unfinished(status: string)              // {ok: true, status: "ERROR" | "PENDING"}
    | Refused(error: string)                  // {ok: false, error}
    | Health(service: string, time: string)   // {ok: true, service, time}

  /** The sheet after a request, with the answer. */
  datatype Got = Got(grid: Grid, reply: GetReply)

  /**
   * A stored birthdate as the query compares it: trimmed, without the leading
   * apostrophe, and cut to its first ten characters when it holds a 'T' (the
   * date part of an ISO timestamp).
   */
  function NormalizeBirthdate(v: string): (bd: string)
    ensures |bd| <= |v|
    ensures var s := StripApostrophe(Trim(v));
      ('T' !in s ==> bd == s) &&
      ('T' in s ==> |bd| == (if |s| < 10 then |s| else 10) && bd == s[..|bd|])
  {
    var s := StripApostrophe(Trim(v));
    if 'T' in s then Prefix(s, 10) else s
  }

  /** Row r holds the phone number (column pc) and the birthdate (column bc) asked for. */
  predicate Matches(g: Grid, r: nat, pc: nat, bc: nat, phone: string, birthdate: string)
    ensures Matches(g, r, pc, bc, phone, birthdate) ==> IsTrimmed(phone) && |birthdate| <= |Cell(g, r, bc)|
    ensures !(1 <= r <= |g|) ==> (Matches(g, r, pc, bc, phone, birthdate) <==> phone == "" && birthdate == "")
  {
    Trim(Cell(g, r, pc)) == phone && NormalizeBirthdate(Cell(g, r, bc)) == birthdate
  }

  /** The matching test of the search, as a function of the row index. */
  function Matcher(g: Grid, pc: nat, bc: nat, phone: string, birthdate: string): (m: nat -> bool)
    ensures forall r: nat :: m(r) == Matches(g, r, pc, bc, phone, birthdate)
  {
    (r: nat) => Matches(g, r, pc, bc, phone, birthdate)
  }

  /**
   * The newest of rows 2..r for which `matches` holds: such a row, and every
   * such row in that range is at or before it; None when there is none.
   */
  function NewestMatch(matches: nat -> bool, r: nat): (k: Option<nat>)
    ensures k.Some? ==> 2 <= k.value <= r && matches(k.value)
    decreases r
  {
    if r < 2 then None
    else if matches(r) then Some(r)
    else NewestMatch(matches, r - 1)
  }

  /** No matching row in 2..r lies after the newest match, and there is one whenever some row matches. */
  lemma {:induction false} NewestMatchNewest(matches: nat -> bool, r: nat)
    ensures var k := NewestMatch(matches, r);
      forall j: nat | 2 <= j <= r && matches(j) :: k.Some? && j <= k.value
    decreases r
  {
    if r >= 2 && !matches(r) {
      NewestMatchNewest(matches, r - 1);
    }
  }

  /** The answer for the matching row r, by its status. */
  function StatusAnswer(g: Grid, r: nat, h: Row): (a: GetReply)
    ensures a.Ready? <==> Cell(g, r, Col(h, StatusHeader)) == Done
    ensures a.Ready? ==>
      a.result.summary == Cell(g, r, Col(h, SummaryHeader)) && a.result.health == Cell(g, r, Col(h, HealthHeader)) && a.result.foods == Cell(g, r, Col(h, FoodsHeader)) &&
      a.result.avoid == Cell(g, r, Col(h, AvoidHeader)) &&
      a.result.productKeywords == Cell(g, r, Col(h, KeywordsHeader)) &&
      a.result.promo == Cell(g, r, Col(h, PromoHeader))
    ensures !a.Ready? ==> a == Unfinished(if Cell(g, r, Col(h, StatusHeader)) == Errored then Errored else Pending)
  {
    var status := Cell(g, r, Col(h, StatusHeader));
    if status == Done then
      Ready(Sections(Cell(g, r, Col(h, SummaryHeader)), Cell(g, r, Col(h, HealthHeader)),
                     Cell(g, r, Col(h, FoodsHeader)), Cell(g, r, Col(h, AvoidHeader)),
                     Cell(g, r, Col(h, KeywordsHeader)), Cell(g, r, Col(h, PromoHeader))))
    else if status == Errored then Unfinished(Errored)
    else Unfinished(Pending)
  }

  /**
   * The search of doGet on the prepared sheet: the newest matching row
   * decides; no match is PENDING; a missing phone or birthdate header makes
   * the first read raise, when there is a row to read.
   */
  function FindResult(g: Grid, phone: string, birthdate: string): (a: GetReply)
    requires g != []
  {
    var h := HeaderOf(g);
    var pc, bc := Col(h, PhoneHeader), Col(h, BirthdateHeader);
    if |g| < 2 then Unfinished(Pending)
    else if pc == 0 || bc == 0 then Refused(RangeError)
    else match NewestMatch(Matcher(g, pc, bc, phone, birthdate), |g|)
      case None => Unfinished(Pending)
      case Some(r) => StatusAnswer(g, r, h)
  }

  /**
   * doGet: a result query with a blank phone number or birthdate is refused
   * before the sheet is opened; any other result query opens the sheet, which
   * getSheet_ prepares, and searches it; any other action is a health check.
   */
  function Get(g: Grid, p: Params, now: string): (q: Got)
    ensures Param(p, "action") != GetResultAction ==> q == Got(g, Health(ServiceName, now))
    ensures q.grid == g || q.grid == Prepared(g)
  {
    if Param(p, "action") == GetResultAction then
      var phone, birthdate := Trim(Param(p, "phone")), Trim(Param(p, "birthdate"));
      if phone == [] || birthdate == [] then Got(g, Refused(QueryError))
      else
        var g1 := Prepared(g);
        Got(g1, FindResult(g1, phone, birthdate))
    else Got(g, Health(ServiceName, now))
  }

  // ---------------------------------------------------------------------------
  // Properties of the query
  // ---------------------------------------------------------------------------

  /**
   * A request is refused with "phone/birthdate 필요", the sheet untouched,
   * exactly when it is a result query whose phone number or birthdate is blank.
   */
  lemma BlankQueryRefused(g: Grid, p: Params, now: string)
    ensures Get(g, p, now).reply == Refused(QueryError) <==>
      Param(p, "action") == GetResultAction && (Trim(Param(p, "phone")) == [] || Trim(Param(p, "birthdate")) == [])
    ensures Get(g, p, now).reply == Refused(QueryError) ==> Get(g, p, now).grid == g
  {
    if Param(p, "action") == GetResultAction {
      var phone, birthdate := Trim(Param(p, "phone")), Trim(Param(p, "birthdate"));
      if phone != [] && birthdate != [] {
        var a := FindResult(Prepared(g), phone, birthdate);
        assert Get(g, p, now).reply == a;
        assert a != Refused(QueryError) by {
          assert QueryError != RangeError;
        }
      }
    }
  }

  /**
   * When the phone and birthdate headers are present, the answer is the one of
   * the newest matching row: row k matches and no later row does.
   */
  lemma NewestMatchDecides(g: Grid, phone: string, birthdate: string, k: nat)
    requires g != []
    requires PhoneHeader in g[0] && BirthdateHeader in g[0]
    requires 2 <= k <= |g|
    requires var h := HeaderOf(g);
      Matches(g, k, Col(h, PhoneHeader), Col(h, BirthdateHeader), phone, birthdate) &&
      forall j: nat | k < j <= |g| :: !Matches(g, j, Col(h, PhoneHeader), Col(h, BirthdateHeader), phone, birthdate)
    ensures FindResult(g, phone, birthdate) == StatusAnswer(g, k, HeaderOf(g))
  {
    var h := HeaderOf(g);
    var pc, bc := Col(h, PhoneHeader), Col(h, BirthdateHeader);
    assert pc >= 1 && bc >= 1 by {
      ColsOfHeader(g);
    }
    var matches := Matcher(g, pc, bc, phone, birthdate);
    assert matches(k);
    NewestMatchNewest(matches, |g|);
    var m := NewestMatch(matches, |g|);
    assert m.Some? && k <= m.value;
    var v := m.value;
    assert matches(v) && Matches(g, v, pc, bc, phone, birthdate);
    assert v == k;
  }

  /** With the headers present, a sheet in which no row matches answers PENDING. */
  lemma NoMatchPending(g: Grid, phone: string, birthdate: string)
    requires g != []
    requires PhoneHeader in g[0] && BirthdateHeader in g[0]
    requires var h := HeaderOf(g);
      forall j: nat | 2 <= j <= |g| :: !Matches(g, j, Col(h, PhoneHeader), Col(h, BirthdateHeader), phone, birthdate)
    ensures FindResult(g, phone, birthdate) == Unfinished(Pending)
  {
    var h := HeaderOf(g);
    assert Col(h, PhoneHeader) >= 1 && Col(h, BirthdateHeader) >= 1 by {
      ColsOfHeader(g);
    }
  }

  /**
   * The birthdate doPost stores, "'" followed by the trimmed date, is found
   * again by a query for that date exactly when the date holds no 'T' or is at
   * most ten characters long: a longer date with a 'T' is cut on comparison.
   */
  lemma StoredBirthdateMatches(bd: string)
    requires IsTrimmed(bd)
    ensures NormalizeBirthdate("'" + bd) == bd <==> ('T' !in bd || |bd| <= 10)
  {
    assert IsTrimmed("'" + bd) by {
      if bd != [] {
        assert ("'" + bd)[|"'" + bd| - 1] == bd[|bd| - 1];
      }
    }
    TrimOfTrimmed("'" + bd);
    assert ("'" + bd)[1..] == bd;
  }

  // ---------------------------------------------------------------------------
  // The query on the sheet object
  // ---------------------------------------------------------------------------

  /** The reads of doGet for the matching row r: its status, then the six results when it is DONE. */
  method ReadAnswer(sheet: Sheet, r: nat, header: Row) returns (a: GetReply)
    requires r >= 1 && HasExtraHeaders(header)
    ensures a == StatusAnswer(sheet.rows, r, header)
  {
    ExtraColumnsPresent(header);
    var status := sheet.GetValue(r, Col(header, StatusHeader));
    if status.value == Done {
      var summary := sheet.GetValue(r, Col(header, SummaryHeader));
      var health := sheet.GetValue(r, Col(header, HealthHeader));
      var foods := sheet.GetValue(r, Col(header, FoodsHeader));
      var avoid := sheet.GetValue(r, Col(header, AvoidHeader));
      var keywords := sheet.GetValue(r, Col(header, KeywordsHeader));
      var promo := sheet.GetValue(r, Col(header, PromoHeader));
      return Ready(Sections(summary.value, health.value, foods.value, avoid.value, keywords.value, promo.value));
    }
    if status.value == Errored {
      return Unfinished(Errored);
    }
    return Unfinished(Pending);
  }

  /** The two reads of doGet for row r and their comparison with the query; a missing header raises. */
  method ReadMatches(sheet: Sheet, r: nat, pc: nat, bc: nat, phone: string, birthdate: string)
    returns (res: Result<bool>)
    requires r >= 1
    ensures pc == 0 || bc == 0 ==> res == Failure(RangeError)
    ensures pc >= 1 && bc >= 1 ==> res == Success(Matches(sheet.rows, r, pc, bc, phone, birthdate))
  {
    var rowPhone := sheet.GetValue(r, pc);
    if rowPhone.Failure? {
      return Failure(rowPhone.error);
    }
    var rawBirthdate := sheet.GetValue(r, bc);
    if rawBirthdate.Failure? {
      return Failure(rawBirthdate.error);
    }
    return Success(Trim(rowPhone.value) == phone && NormalizeBirthdate(rawBirthdate.value) == birthdate);
  }

  /**
   * The search loop of doGet, from the last row up to row 2: the newest
   * matching row, or the exception of the first read when a column is missing.
   */
  method Search(sheet: Sheet, pc: nat, bc: nat, phone: string, birthdate: string) returns (res: Result<Option<nat>>)
    ensures pc == 0 || bc == 0 ==> res == if |sheet.rows| < 2 then Success(None) else Failure(RangeError)
    ensures pc >= 1 && bc >= 1 ==> res == Success(NewestMatch(Matcher(sheet.rows, pc, bc, phone, birthdate), |sheet.rows|))
  {
    var lastRow := sheet.LastRow();
    ghost var matches := Matcher(sheet.rows, pc, bc, phone, birthdate);
    var r: nat := lastRow;
    while r >= 2
      invariant r <= lastRow
      invariant r < lastRow ==> pc >= 1 && bc >= 1
      invariant NewestMatch(matches, r) == NewestMatch(matches, lastRow)
    {
      var found := ReadMatches(sheet, r, pc, bc, phone, birthdate);
      if found.Failure? {
        return Failure(found.error);
      }
      assert found.value == matches(r);
      if found.value {
        return Success(Some(r));
      }
      r := r - 1;
    }
    return Success(None);
  }

  /** The query of doGet on the prepared sheet: the header is read, the rows searched, the match answered. */
  method FindResultOn(sheet: Sheet, phone: string, birthdate: string) returns (a: GetReply)
    requires sheet.rows != [] && HasExtraHeaders(sheet.rows[0])
    ensures a == FindResult(sheet.rows, phone, birthdate)
  {
    var header := sheet.HeaderValues();
    HeaderReadHasExtraHeaders(sheet.rows);
    var found := Search(sheet, Col(header, PhoneHeader), Col(header, BirthdateHeader), phone, birthdate);
    match found
    case Failure(e) =>
      a := Refused(e);
    case Success(None) =>
      a := Unfinished(Pending);
    case Success(Some(r)) =>
      a := ReadAnswer(sheet, r, header);
  }

  /** doGet on the sheet object. */
  method DoGet(sheet: Sheet, p: Params, now: string) returns (reply: GetReply)
    modifies sheet
    ensures sheet.rows == Get(old(sheet.rows), p, now).grid
    ensures reply == Get(old(sheet.rows), p, now).reply
  {
    var action := Param(p, "action");
    if action == GetResultAction {
      var phone := Trim(Param(p, "phone"));
      var birthdate := Trim(Param(p, "birthdate"));
      if phone == [] || birthdate == [] {
        return Refused(QueryError);
      }
      GetSheet(sheet);
      reply := FindResultOn(sheet, phone, birthdate);
      return;
    }
    return Health(ServiceName, now);
  }
}
