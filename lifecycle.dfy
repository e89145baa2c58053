/**
 * doPost and doGet together: on a sheet in the standard layout (empty, or with
 * the header row getSheet_ writes), a submission is analysed from the fields
 * the customer sent, and a later result query with the same phone number and
 * birthdate finds it and reports the parsed answer, or ERROR.
 */
module Lifecycle {
  import opened Wrappers
  import opened Text
  import opened Table
  import opened SectionParser
  import opened Intake
  import opened Prompt
  import opened Jobs
  import opened Lookup

  /** A sheet whose header row holds every extra header is left as it is by getSheet_. */
  lemma PreparedUnchanged(g: Grid)
    requires g != [] && HasExtraHeaders(g[0])
    ensures Prepared(g) == g
  {
    HeaderReadHasExtraHeaders(g);
    AbsentNone(ExtraHeaders, HeaderOf(g));
  }

  /** getSheet_ is idempotent: opening the sheet a second time changes nothing. */
  lemma GetSheetIdempotent(g: Grid)
    ensures Prepared(Prepared(g)) == Prepared(g)
  {
    PreparedHasExtraHeaders(g);
    PreparedUnchanged(Prepared(g));
  }

  /** A sheet in the standard layout keeps its header row when a row is appended. */
  lemma StandardAppended(g: Grid, s: Submission, createdAt: string)
    requires g == [] || g[0] == FullHeader
    ensures Appended(g, s, createdAt)[0] == FullHeader
  {
    if g != [] {
      FullHeaderHasExtraHeaders();
      PreparedUnchanged(g);
    }
  }

  /** In the standard layout each header is read in the column where the new row places its value. */
  lemma StandardColumn(g: Grid, i: nat)
    requires g != [] && g[0] == FullHeader && i < |FullHeader|
    ensures Col(HeaderOf(g), FullHeader[i]) == i + 1
  {
    FullHeaderColumn(i);
    assert FullHeader[i] != "";
    HeaderOfShows(g);
    SameCellsCol(HeaderOf(g), g[0], FullHeader[i]);
  }

  /** In the standard layout the inputs of a row are read from columns 3 and 5 to 9. */
  lemma StandardInputs(g: Grid, r: nat)
    requires g != [] && g[0] == FullHeader
    ensures ReadInput(g, r) ==
      Success(PromptInput(Cell(g, r, 3), Cell(g, r, 5), Cell(g, r, 6), Cell(g, r, 7), Cell(g, r, 8), Cell(g, r, 9)))
  {
    var h := HeaderOf(g);
    StandardColumn(g, 2);
    StandardColumn(g, 4);
    StandardColumn(g, 5);
    StandardColumn(g, 6);
    StandardColumn(g, 7);
    StandardColumn(g, 8);
    assert Col(h, NameHeader) == 3 && Col(h, BirthdateHeader) == 5 && Col(h, BirthtimeHeader) == 6;
    assert Col(h, CalendarHeader) == 7 && Col(h, GenderHeader) == 8 && Col(h, MemoHeader) == 9;
  }

  /**
   * In the standard layout the request for the new row is built from the
   * submitted fields, the birthdate with the apostrophe it is stored behind.
   */
  lemma StandardRequest(g: Grid, s: Submission, createdAt: string)
    requires g == [] || g[0] == FullHeader
    ensures var g1 := Appended(g, s, createdAt);
      ReadInput(g1, |g1|) == Success(PromptInput(s.name, "'" + s.birthdate, s.birthtime, s.calendarType, s.gender, s.memo))
  {
    var g1 := Appended(g, s, createdAt);
    StandardAppended(g, s, createdAt);
    StandardInputs(g1, |g1|);
    NewRowCells(g1, s, createdAt);
  }

  /**
   * The cells of a last row written by doPost: the creation time, the source,
   * the submission's fields, the user agent, PENDING in column 11, and nothing
   * from column 12 on.
   */
  lemma NewRowCells(g: Grid, s: Submission, createdAt: string)
    requires g != [] && g[|g| - 1] == NewRow(s, createdAt)
    ensures Cell(g, |g|, 1) == createdAt && Cell(g, |g|, 2) == s.source
    ensures Cell(g, |g|, 3) == s.name && Cell(g, |g|, 4) == s.phone && Cell(g, |g|, 5) == "'" + s.birthdate
    ensures Cell(g, |g|, 6) == s.birthtime && Cell(g, |g|, 7) == s.calendarType
    ensures Cell(g, |g|, 8) == s.gender && Cell(g, |g|, 9) == s.memo
    ensures Cell(g, |g|, 10) == s.userAgent && Cell(g, |g|, 11) == Pending
    ensures forall c: nat | c >= 12 :: Cell(g, |g|, c) == ""
  {
    var row := NewRow(s, createdAt);
    assert |row| == 18;
    assert row[0] == createdAt && row[1] == s.source && row[9] == s.userAgent && row[10] == Pending;
    assert row[2] == s.name && row[3] == s.phone && row[4] == "'" + s.birthdate && row[5] == s.birthtime;
    assert row[6] == s.calendarType && row[7] == s.gender && row[8] == s.memo;
    forall c: nat | c >= 12 ensures Cell(g, |g|, c) == "" {
      if c <= 18 {
        assert row[c - 1] == "";
      }
    }
  }

  /** In the standard layout the extra headers stand in columns 11 to 18, the status header first. */
  lemma StandardExtraColumns()
    ensures Col(FullHeader, StatusHeader) == 11 && Col(FullHeader, ProcessedAtHeader) == 12
    ensures Col(FullHeader, SummaryHeader) == 13 && Col(FullHeader, HealthHeader) == 14
    ensures Col(FullHeader, FoodsHeader) == 15 && Col(FullHeader, AvoidHeader) == 16
    ensures Col(FullHeader, KeywordsHeader) == 17 && Col(FullHeader, PromoHeader) == 18
  {
    assert FullHeader[10..] == ExtraHeaders;
    FullHeaderColumn(10);
    FullHeaderColumn(11);
    FullHeaderColumn(12);
    FullHeaderColumn(13);
    FullHeaderColumn(14);
    FullHeaderColumn(15);
    FullHeaderColumn(16);
    FullHeaderColumn(17);
  }

  /**
   * In the standard layout, the row doPost appends holds PENDING under the
   * status header and an empty cell under each of the seven other extra headers.
   */
  lemma NewRowUnderHeaders(g: Grid, s: Submission, createdAt: string)
    requires |g| >= 2 && g[0] == FullHeader && g[|g| - 1] == NewRow(s, createdAt)
    ensures var r, h := |g|, g[0];
      Cell(g, r, Col(h, StatusHeader)) == Pending && Cell(g, r, Col(h, ProcessedAtHeader)) == "" &&
      Cell(g, r, Col(h, SummaryHeader)) == "" && Cell(g, r, Col(h, HealthHeader)) == "" &&
      Cell(g, r, Col(h, FoodsHeader)) == "" && Cell(g, r, Col(h, AvoidHeader)) == "" &&
      Cell(g, r, Col(h, KeywordsHeader)) == "" && Cell(g, r, Col(h, PromoHeader)) == ""
  {
    NewRowCells(g, s, createdAt);
    StandardExtraColumns();
  }

  /**
   * When the analysis of a row doPost wrote on a sheet in the standard layout
   * fails, the five result cells other than the summary stay empty.
   */
  lemma SettledErrorEmpty(g1: Grid, s: Submission, createdAt: string, respond: string -> Reply, now: string)
    requires |g1| >= 2 && g1[0] == FullHeader && g1[|g1| - 1] == NewRow(s, createdAt)
    requires Requested(g1, |g1|) == [] || respond(Requested(g1, |g1|)[0]).Fault?
    ensures var g', r, h := Settle(g1, respond, now), |g1|, g1[0];
      Cell(g', r, Col(h, HealthHeader)) == "" && Cell(g', r, Col(h, FoodsHeader)) == "" &&
      Cell(g', r, Col(h, AvoidHeader)) == "" && Cell(g', r, Col(h, KeywordsHeader)) == "" &&
      Cell(g', r, Col(h, PromoHeader)) == ""
  {
    FailedCellKept(g1, respond, now, 14);
    FailedCellKept(g1, respond, now, 15);
    FailedCellKept(g1, respond, now, 16);
    FailedCellKept(g1, respond, now, 17);
    FailedCellKept(g1, respond, now, 18);
    NewRowCells(g1, s, createdAt);
    StandardExtraColumns();
  }

  /** A failed analysis in the standard layout leaves every cell after column 13 as it was. */
  lemma FailedCellKept(g1: Grid, respond: string -> Reply, now: string, c: nat)
    requires |g1| >= 2 && g1[0] == FullHeader && c > 13
    requires Requested(g1, |g1|) == [] || respond(Requested(g1, |g1|)[0]).Fault?
    ensures Cell(Settle(g1, respond, now), |g1|, c) == Cell(g1, |g1|, c)
  {
    FullHeaderHasExtraHeaders();
    SettleFailed(g1, respond, now);
    StandardExtraColumns();
  }

  /** A column whose header is not an extra header is none of the extra headers' columns. */
  lemma NotExtraColumn(h: Row, c: nat)
    requires HasExtraHeaders(h) && c >= 1 && At(h, c - 1) !in ExtraHeaders
    ensures c !in ExtraColumns(h)
    ensures Col(h, StatusHeader) != c && Col(h, ProcessedAtHeader) != c && Col(h, SummaryHeader) != c
  {
    forall x | x in ExtraHeaders ensures Col(h, x) != c {
      assert At(h, Col(h, x) - 1) == x;
    }
    assert StatusHeader in ExtraHeaders && ProcessedAtHeader in ExtraHeaders && SummaryHeader in ExtraHeaders;
  }

  /** When the request was answered, the last row is written as a successful analysis after PENDING. */
  lemma SettleAnswered(g1: Grid, respond: string -> Reply, now: string)
    requires |g1| >= 2 && HasExtraHeaders(g1[0])
    requires Requested(g1, |g1|) != [] && respond(Requested(g1, |g1|)[0]).Answer?
    ensures var r, h := |g1|, HeaderOf(g1);
      HasExtraHeaders(h) && Col(h, StatusHeader) >= 1 &&
      Settle(g1, respond, now) == WithResults(SetCell(g1, r, Col(h, StatusHeader), Pending), r, h,
        ParseAiSections(respond(Requested(g1, r)[0]).text), now)
  {
    var r := |g1|;
    var h := HeaderOf(g1);
    HeaderReadHasExtraHeaders(g1);
    ExtraColumnsPresent(h);
    var d := ReadInput(g1, r).value;
    assert Requested(g1, r) == [BuildSajuPrompt(d)];
    var sec := ParseAiSections(respond(BuildSajuPrompt(d)).text);
    var g2 := SetCell(g1, r, Col(h, StatusHeader), Pending);
    assert RunSpec(g1, r, respond, now) == Run(WithResults(g2, r, h, sec, now), Success(sec));
  }

  /**
   * The analysis of the last row and writeAiError_ change no cell of it whose
   * header is not an extra header: the submitted fields stay as written.
   */
  lemma SettleKeepsCell(g1: Grid, respond: string -> Reply, now: string, c: nat)
    requires |g1| >= 2 && HasExtraHeaders(g1[0])
    requires c >= 1 && At(g1[0], c - 1) !in ExtraHeaders
    ensures Cell(Settle(g1, respond, now), |g1|, c) == Cell(g1, |g1|, c)
  {
    var r := |g1|;
    var sent := Requested(g1, r);
    if sent == [] || respond(sent[0]).Fault? {
      SettleFailed(g1, respond, now);
      NotExtraColumn(g1[0], c);
    } else {
      var h := HeaderOf(g1);
      SettleAnswered(g1, respond, now);
      var g2 := SetCell(g1, r, Col(h, StatusHeader), Pending);
      var sec := ParseAiSections(respond(sent[0]).text);
      ResultsWritten(g2, r, h, sec, now);
      HeaderOfShows(g1);
      assert At(h, c - 1) == At(g1[0], c - 1);
      NotExtraColumn(h, c);
    }
  }

  /** The phone and birthdate columns of the standard layout are not extra headers. */
  lemma KeysNotExtra()
    ensures FullHeader[3] == PhoneHeader && PhoneHeader !in ExtraHeaders
    ensures FullHeader[4] == BirthdateHeader && BirthdateHeader !in ExtraHeaders
  {
    FullHeaderDistinct();
    assert forall i | 0 <= i < |ExtraHeaders| :: ExtraHeaders[i] == FullHeader[|BaseHeaders| + i];
  }

  /**
   * After the analysis, a row doPost wrote last on a sheet in the standard
   * layout still holds the phone number and the stored birthdate.
   */
  lemma SettledRowKeeps(g1: Grid, s: Submission, createdAt: string, respond: string -> Reply, now: string)
    requires |g1| >= 2 && g1[0] == FullHeader && g1[|g1| - 1] == NewRow(s, createdAt)
    ensures var g' := Settle(g1, respond, now);
      |g'| == |g1| && g'[0] == FullHeader &&
      Cell(g', |g'|, 4) == s.phone && Cell(g', |g'|, 5) == "'" + s.birthdate
  {
    FullHeaderHasExtraHeaders();
    KeysNotExtra();
    SettleKeepsCell(g1, respond, now, 4);
    SettleKeepsCell(g1, respond, now, 5);
    NewRowCells(g1, s, createdAt);
  }

  /** A row holding a trimmed phone number and "'" followed by a findable trimmed birthdate matches a query for them. */
  lemma StoredRowMatches(g: Grid, r: nat, phone: string, birthdate: string)
    requires Cell(g, r, 4) == phone && Cell(g, r, 5) == "'" + birthdate
    requires IsTrimmed(phone) && IsTrimmed(birthdate) && ('T' !in birthdate || |birthdate| <= 10)
    ensures Matches(g, r, 4, 5, phone, birthdate)
  {
    TrimOfTrimmed(phone);
    StoredBirthdateMatches(birthdate);
  }

  /** In the standard layout, a last row that matches the query is the one the search reports. */
  lemma LastRowFound(g: Grid, phone: string, birthdate: string)
    requires |g| >= 2 && g[0] == FullHeader && Matches(g, |g|, 4, 5, phone, birthdate)
    ensures FindResult(g, phone, birthdate) == StatusAnswer(g, |g|, HeaderOf(g))
  {
    var h := HeaderOf(g);
    KeysNotExtra();
    StandardColumn(g, 3);
    StandardColumn(g, 4);
    assert Col(h, PhoneHeader) == 4 && Col(h, BirthdateHeader) == 5;
    assert PhoneHeader in g[0] && BirthdateHeader in g[0];
    assert Matches(g, |g|, Col(h, PhoneHeader), Col(h, BirthdateHeader), phone, birthdate);
    NewestMatchDecides(g, phone, birthdate, |g|);
  }

  /** The status answer for the last row after the analysis: the parsed answer, or ERROR. */
  lemma SettledAnswer(g1: Grid, respond: string -> Reply, now: string)
    requires |g1| >= 2 && HasExtraHeaders(g1[0]) && Requested(g1, |g1|) != []
    ensures var g' := Settle(g1, respond, now);
      StatusAnswer(g', |g1|, HeaderOf(g')) == match respond(Requested(g1, |g1|)[0])
        case Answer(text) => Ready(ParseAiSections(text))
        case Fault(_) => Unfinished(Errored)
  {
    if respond(Requested(g1, |g1|)[0]).Answer? {
      SettledAnswerDone(g1, respond, now);
    } else {
      SettledAnswerFailed(g1, respond, now);
    }
  }

  /** When the request was answered, the status answer for the last row is the parsed answer. */
  lemma SettledAnswerDone(g1: Grid, respond: string -> Reply, now: string)
    requires |g1| >= 2 && HasExtraHeaders(g1[0])
    requires Requested(g1, |g1|) != [] && respond(Requested(g1, |g1|)[0]).Answer?
    ensures var g' := Settle(g1, respond, now);
      StatusAnswer(g', |g1|, HeaderOf(g')) == Ready(ParseAiSections(respond(Requested(g1, |g1|)[0]).text))
  {
    var g' := Settle(g1, respond, now);
    assert g'[0] == g1[0];
    SettleStatus(g1, respond, now);
    SettleDone(g1, respond, now);
    DoneRowAnswer(g', |g1|, ParseAiSections(respond(Requested(g1, |g1|)[0]).text));
  }

  /** A row whose status cell holds DONE answers with its six result cells. */
  lemma DoneRowAnswer(g: Grid, r: nat, sec: Sections)
    requires g != []
    requires var h := g[0];
      Cell(g, r, Col(h, StatusHeader)) == Done &&
      Cell(g, r, Col(h, SummaryHeader)) == sec.summary && Cell(g, r, Col(h, HealthHeader)) == sec.health &&
      Cell(g, r, Col(h, FoodsHeader)) == sec.foods && Cell(g, r, Col(h, AvoidHeader)) == sec.avoid &&
      Cell(g, r, Col(h, KeywordsHeader)) == sec.productKeywords && Cell(g, r, Col(h, PromoHeader)) == sec.promo
    ensures StatusAnswer(g, r, HeaderOf(g)) == Ready(sec)
  {
    var h := HeaderOf(g);
    ColsOfHeader(g);
    assert Col(h, StatusHeader) == Col(g[0], StatusHeader);
    assert Col(h, SummaryHeader) == Col(g[0], SummaryHeader) && Col(h, HealthHeader) == Col(g[0], HealthHeader);
    assert Col(h, FoodsHeader) == Col(g[0], FoodsHeader) && Col(h, AvoidHeader) == Col(g[0], AvoidHeader);
    assert Col(h, KeywordsHeader) == Col(g[0], KeywordsHeader) && Col(h, PromoHeader) == Col(g[0], PromoHeader);
  }

  /** When the request raised, the status answer for the last row is ERROR. */
  lemma SettledAnswerFailed(g1: Grid, respond: string -> Reply, now: string)
    requires |g1| >= 2 && HasExtraHeaders(g1[0])
    requires Requested(g1, |g1|) != [] && respond(Requested(g1, |g1|)[0]).Fault?
    ensures var g' := Settle(g1, respond, now);
      StatusAnswer(g', |g1|, HeaderOf(g')) == Unfinished(Errored)
  {
    var g' := Settle(g1, respond, now);
    assert g'[0] == g1[0];
    SameHeaderColumns(g1, g');
    SettleStatus(g1, respond, now);
  }

  /** A result query on a sheet getSheet_ leaves as it is searches that sheet for the trimmed values. */
  lemma QueryOnPrepared(g: Grid, phone: string, birthdate: string, later: string)
    requires g != [] && HasExtraHeaders(g[0])
    requires Trim(phone) != [] && Trim(birthdate) != []
    ensures var query := map["action" := GetResultAction, "phone" := phone, "birthdate" := birthdate];
      Get(g, query, later) == Got(g, FindResult(g, Trim(phone), Trim(birthdate)))
  {
    PreparedUnchanged(g);
    var query := map["action" := GetResultAction, "phone" := phone, "birthdate" := birthdate];
    assert Param(query, "action") == GetResultAction;
    assert Param(query, "phone") == phone && Param(query, "birthdate") == birthdate;
  }

  /**
   * A result query with the phone number and birthdate of an accepted
   * submission, made on the sheet doPost left behind in the standard layout,
   * answers with the sections parsed from the generator's answer when the
   * request was answered, and ERROR when it raised; the query changes nothing.
   * The one request is built from the submitted fields. A birthdate longer than
   * ten characters that holds a 'T' is not found again (StoredBirthdateMatches).
   */
  lemma SubmissionFound(g: Grid, p: Params, createdAt: string, now: string, respond: string -> Reply, later: string)
    requires g == [] || g[0] == FullHeader
    requires NormalizeIntake(p).Success?
    requires var bd := Trim(Param(p, "birthdate")); 'T' !in bd || |bd| <= 10
    ensures var q, s := Post(g, p, createdAt, now, respond), NormalizeIntake(p).value;
      var query := map["action" := GetResultAction, "phone" := Param(p, "phone"), "birthdate" := Param(p, "birthdate")];
      var sent := Requests(g, p, createdAt);
      sent == [BuildSajuPrompt(PromptInput(s.name, "'" + s.birthdate, s.birthtime, s.calendarType, s.gender, s.memo))] &&
      Get(q.grid, query, later) == Got(q.grid, match respond(sent[0])
        case Answer(text) => Ready(ParseAiSections(text))
        case Fault(_) => Unfinished(Errored))
  {
    var s := NormalizeIntake(p).value;
    var g1 := Appended(g, s, createdAt);
    var g' := Settle(g1, respond, now);
    assert Post(g, p, createdAt, now, respond).grid == g';
    assert Requests(g, p, createdAt) == Requested(g1, |g1|);
    AcceptedFields(p);
    AcceptedTrimmed(p);
    StandardAppended(g, s, createdAt);
    StandardRequest(g, s, createdAt);
    FullHeaderHasExtraHeaders();
    SettledRowKeeps(g1, s, createdAt, respond, now);
    StoredRowMatches(g', |g'|, s.phone, s.birthdate);
    LastRowFound(g', s.phone, s.birthdate);
    SettledAnswer(g1, respond, now);
    QueryOnPrepared(g', Param(p, "phone"), Param(p, "birthdate"), later);
  }
}
