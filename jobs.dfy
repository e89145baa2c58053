/**
 * The life of one submission (`doPost`, `runAiForRow_`, `writeAiError_`): an
 * accepted form becomes a new row with status PENDING; the analysis then
 * either writes the six result cells and DONE, or, when it raises an
 * exception, `writeAiError_` writes ERROR and the message into the summary.
 * The caller is told the row number in both cases.
 *
 * The functions state the effect of each step on the grid; the methods
 * perform the same steps on the sheet object, one cell at a time, and are
 * proved to have that effect.
 */
module Jobs {
  import opened Wrappers
  import opened Text
  import opened Table
  import opened SectionParser
  import opened Intake
  import opened Prompt
  import opened Spreadsheet
  import opened SheetSetup

  const Pending: string := "PENDING"
  const Done: string := "DONE"
  const Errored: string := "ERROR"

  /** What writeAiError_ puts in front of the message in the summary cell. */
  const ErrorPrefix: string := "AI 처리 중 오류: "

  /** What the text generator gives for a request text: its answer, or the message of the exception it raised. */
  datatype Reply = Answer(text: string) | Fault(message: string)

  /** callOpenAI_, as a fixed function of the request text; `prompts` records every request made. */
  class Oracle {
    const respond: string -> Reply
    ghost var prompts: seq<string>

    constructor (respond: string -> Reply)
      ensures this.respond == respond && prompts == []
    {
      this.respond := respond;
      prompts := [];
    }

    method Call(prompt: string) returns (reply: Reply)
      modifies this
      ensures reply == respond(prompt)
      ensures prompts == old(prompts) + [prompt]
    {
      reply := respond(prompt);
      prompts := prompts + [prompt];
    }
  }

  /** The answer of doPost: `{ok: true, row}` or `{ok: false, error}`. */
  datatype PostReply = Accepted(row: nat) | Rejected(error: string)

  /** The sheet after a request, with the answer. */
  datatype Posted = Posted(grid: Grid, reply: PostReply)

  /** The effect of runAiForRow_: the sheet afterwards, and the parsed sections or the message of the exception raised. */
  datatype Run = Run(grid: Grid, outcome: Result<Sections>)

  /** The header names whose cells runAiForRow_ reads to build the request. */
  const InputHeaders: Row := [NameHeader, BirthdateHeader, BirthtimeHeader, CalendarHeader, GenderHeader, MemoHeader]

  /** The columns of the extra headers in a header row. */
  function ExtraColumns(h: Row): set<nat> {
    set x | x in ExtraHeaders :: Col(h, x)
  }

  /**
   * The row doPost appends: the creation time, the submission's fields in
   * the order of the base headers, the birthdate behind an apostrophe so that
   * the sheet keeps it as text, PENDING and seven empty cells.
   */
  function NewRow(s: Submission, createdAt: string): (row: Row)
    ensures |row| == |FullHeader|
  {
    [createdAt, s.source, s.name, s.phone, "'" + s.birthdate, s.birthtime, s.calendarType, s.gender, s.memo,
     s.userAgent, Pending, "", "", "", "", "", "", ""]
  }

  /**
   * The six reads at the start of runAiForRow_: the values of row r under the
   * input headers, or the exception of the first read whose header is missing.
   */
  function ReadInput(g: Grid, r: nat): (res: Result<PromptInput>)
    requires g != []
    ensures res.Success? <==> forall x | x in InputHeaders :: x in HeaderOf(g)
    ensures res.Failure? ==> res.error == RangeError
  {
    var h := HeaderOf(g);
    if Col(h, NameHeader) == 0 || Col(h, BirthdateHeader) == 0 || Col(h, BirthtimeHeader) == 0
       || Col(h, CalendarHeader) == 0 || Col(h, GenderHeader) == 0 || Col(h, MemoHeader) == 0
    then
      Failure(RangeError)
    else
      Success(PromptInput(Cell(g, r, Col(h, NameHeader)), Cell(g, r, Col(h, BirthdateHeader)),
                          Cell(g, r, Col(h, BirthtimeHeader)), Cell(g, r, Col(h, CalendarHeader)),
                          Cell(g, r, Col(h, GenderHeader)), Cell(g, r, Col(h, MemoHeader))))
  }

  /** Every extra header has a column of its own. */
  lemma ExtraColumnsPresent(h: Row)
    requires HasExtraHeaders(h)
    ensures Col(h, StatusHeader) >= 1 && Col(h, ProcessedAtHeader) >= 1 && Col(h, SummaryHeader) >= 1
    ensures Col(h, HealthHeader) >= 1 && Col(h, FoodsHeader) >= 1 && Col(h, AvoidHeader) >= 1
    ensures Col(h, KeywordsHeader) >= 1 && Col(h, PromoHeader) >= 1
  {
    assert StatusHeader in ExtraHeaders && ProcessedAtHeader in ExtraHeaders && SummaryHeader in ExtraHeaders;
    assert HealthHeader in ExtraHeaders && FoodsHeader in ExtraHeaders && AvoidHeader in ExtraHeaders;
    assert KeywordsHeader in ExtraHeaders && PromoHeader in ExtraHeaders;
  }

  /**
   * The writes of runAiForRow_ once the reply is parsed: each section into the
   * column of its header (read once, before any write), then DONE and the time.
   */
  function WithResults(g: Grid, r: nat, h: Row, p: Sections, now: string): (g': Grid)
    requires 1 <= r <= |g| && HasExtraHeaders(h)
    ensures |g'| == |g| && forall i | 0 <= i < |g| && i != r - 1 :: g'[i] == g[i]
  {
    ExtraColumnsPresent(h);
    var g1 := SetCell(g, r, Col(h, SummaryHeader), p.summary);
    var g2 := SetCell(g1, r, Col(h, HealthHeader), p.health);
    var g3 := SetCell(g2, r, Col(h, FoodsHeader), p.foods);
    var g4 := SetCell(g3, r, Col(h, AvoidHeader), p.avoid);
    var g5 := SetCell(g4, r, Col(h, KeywordsHeader), p.productKeywords);
    var g6 := SetCell(g5, r, Col(h, PromoHeader), p.promo);
    var g7 := SetCell(g6, r, Col(h, StatusHeader), Done);
    SetCell(g7, r, Col(h, ProcessedAtHeader), now)
  }

  /** writeAiError_: ERROR, the time, and the message behind the prefix in the summary cell. */
  function WithError(g: Grid, r: nat, message: string, now: string): (g': Grid)
    requires 1 <= r <= |g| && HasExtraHeaders(g[0])
    ensures |g'| == |g| && forall i | 0 <= i < |g| && i != r - 1 :: g'[i] == g[i]
  {
    var h := HeaderOf(g);
    HeaderReadHasExtraHeaders(g);
    ExtraColumnsPresent(h);
    var g1 := SetCell(g, r, Col(h, StatusHeader), Errored);
    var g2 := SetCell(g1, r, Col(h, ProcessedAtHeader), now);
    SetCell(g2, r, Col(h, SummaryHeader), ErrorPrefix + message)
  }

  /**
   * The part of runAiForRow_ after the inputs are read: the status becomes
   * PENDING, the request is sent (an exception from the generator stops
   * here), and the parsed answer is written with DONE. `h` is the header row
   * as read before any write.
   */
  function Analysed(g: Grid, r: nat, h: Row, d: PromptInput, respond: string -> Reply, now: string): (run: Run)
    requires 1 <= r <= |g| && HasExtraHeaders(h)
    ensures |run.grid| == |g| && forall i | 0 <= i < |g| && i != r - 1 :: run.grid[i] == g[i]
  {
    ExtraColumnsPresent(h);
    var g1 := SetCell(g, r, Col(h, StatusHeader), Pending);
    match respond(BuildSajuPrompt(d))
    case Fault(m) => Run(g1, Failure(m))
    case Answer(text) =>
      var p := ParseAiSections(text);
      Run(WithResults(g1, r, h, p, now), Success(p))
  }

  /**
   * runAiForRow_ on row r: the input cells are read, a missing input header
   * raising before anything is written, and the record is analysed.
   */
  function RunSpec(g: Grid, r: nat, respond: string -> Reply, now: string): (run: Run)
    requires 1 <= r <= |g| && HasExtraHeaders(g[0])
    ensures |run.grid| == |g| && forall i | 0 <= i < |g| && i != r - 1 :: run.grid[i] == g[i]
  {
    match ReadInput(g, r)
    case Failure(e) => Run(g, Failure(e))
    case Success(d) =>
      HeaderReadHasExtraHeaders(g);
      Analysed(g, r, HeaderOf(g), d, respond, now)
  }

  /** The requests runAiForRow_ sends: one, unless an input header is missing. */
  function Requested(g: Grid, r: nat): (ps: seq<string>)
    requires g != []
    ensures |ps| <= 1
    ensures ps == [] <==> ReadInput(g, r).Failure?
  {
    match ReadInput(g, r)
    case Failure(_) => []
    case Success(d) => [BuildSajuPrompt(d)]
  }

  /** The sheet once getSheet_ has prepared it and the new row is appended. */
  function Appended(g: Grid, s: Submission, createdAt: string): (g': Grid)
    ensures |g'| == |Prepared(g)| + 1 >= 2
    ensures forall i | 0 <= i < |Prepared(g)| :: g'[i] == Prepared(g)[i]
    ensures g'[|Prepared(g)|] == NewRow(s, createdAt)
    ensures HasExtraHeaders(g'[0])
  {
    PreparedHasExtraHeaders(g);
    Prepared(g) + [NewRow(s, createdAt)]
  }

  /**
   * The part of doPost after the new row is appended: runAiForRow_ on the last
   * row, then writeAiError_ when it raised.
   */
  function Settle(g1: Grid, respond: string -> Reply, now: string): (g': Grid)
    requires |g1| >= 2 && HasExtraHeaders(g1[0])
    ensures |g'| == |g1| && forall i | 0 <= i < |g1| - 1 :: g'[i] == g1[i]
  {
    var r := |g1|;
    var run := RunSpec(g1, r, respond, now);
    if run.outcome.Success? then run.grid else WithError(run.grid, r, run.outcome.error, now)
  }

  /**
   * doPost: a submission that fails validation is refused and nothing else
   * happens; an accepted one is appended to the prepared sheet, analysed, and
   * marked as failed when the analysis raised an exception.
   */
  function Post(g: Grid, p: Params, createdAt: string, now: string, respond: string -> Reply): (q: Posted)
    ensures q.reply.Rejected? ==> q.grid == g && q.reply.error == MissingRequired
    ensures q.reply.Accepted? ==> q.reply.row == |q.grid| == |Prepared(g)| + 1
    ensures q.reply.Accepted? ==> HasExtraHeaders(q.grid[0])
    ensures q.reply.Accepted? ==> forall i | 0 <= i < |Prepared(g)| :: q.grid[i] == Prepared(g)[i]
  {
    match NormalizeIntake(p)
    case Failure(e) => Posted(g, Rejected(e))
    case Success(s) =>
      var g1 := Appended(g, s, createdAt);
      var g2 := Settle(g1, respond, now);
      assert g2[0] == g1[0];
      assert forall i | 0 <= i < |Prepared(g)| :: g2[i] == g1[i];
      Posted(g2, Accepted(|g1|))
  }

  /** The requests doPost sends: none for a refused submission, at most one otherwise. */
  function Requests(g: Grid, p: Params, createdAt: string): (ps: seq<string>)
    ensures |ps| <= 1
    ensures NormalizeIntake(p).Failure? ==> ps == []
  {
    match NormalizeIntake(p)
    case Failure(_) => []
    case Success(s) =>
      var g1 := Appended(g, s, createdAt);
      Requested(g1, |g1|)
  }

  // ---------------------------------------------------------------------------
  // Properties of the steps
  // ---------------------------------------------------------------------------

  /** The eight extra headers are different names. */
  lemma ExtraHeadersDistinct()
    ensures forall i, j | 0 <= i < j < |ExtraHeaders| :: ExtraHeaders[i] != ExtraHeaders[j]
  {
  }

  /** The columns of the extra headers, in the order of ExtraHeaders. */
  function ExtraColumnList(h: Row): (cs: seq<nat>)
    requires HasExtraHeaders(h)
    ensures |cs| == |ExtraHeaders|
    ensures forall i | 0 <= i < |cs| :: cs[i] == Col(h, ExtraHeaders[i]) && 1 <= cs[i] <= |h| && h[cs[i] - 1] == ExtraHeaders[i]
  {
    seq(|ExtraHeaders|, i requires 0 <= i < |ExtraHeaders| => Col(h, ExtraHeaders[i]))
  }

  /** The extra headers stand in eight different columns. */
  lemma ExtraColumnsDistinct(h: Row)
    requires HasExtraHeaders(h)
    ensures forall i, j | 0 <= i < j < 8 :: ExtraColumnList(h)[i] != ExtraColumnList(h)[j]
    ensures ExtraColumns(h) == set i | 0 <= i < 8 :: ExtraColumnList(h)[i]
  {
    var cs := ExtraColumnList(h);
    ExtraHeadersDistinct();
    forall i, j | 0 <= i < j < 8 ensures cs[i] != cs[j] {
      assert h[cs[i] - 1] != h[cs[j] - 1];
    }
    forall x | x in ExtraHeaders ensures Col(h, x) in set i | 0 <= i < 8 :: cs[i] {
      var i :| 0 <= i < 8 && ExtraHeaders[i] == x;
      assert cs[i] == Col(h, x);
    }
  }

  /**
   * After the writes of a successful analysis, the six result cells of row r
   * hold the parsed sections, the status is DONE and the time is `now`; no
   * other cell of the row changes, and no other row.
   */
  lemma ResultsWritten(g: Grid, r: nat, h: Row, p: Sections, now: string)
    requires 1 <= r <= |g| && HasExtraHeaders(h)
    ensures var g' := WithResults(g, r, h, p, now);
      Cell(g', r, Col(h, SummaryHeader)) == p.summary && Cell(g', r, Col(h, HealthHeader)) == p.health &&
      Cell(g', r, Col(h, FoodsHeader)) == p.foods && Cell(g', r, Col(h, AvoidHeader)) == p.avoid &&
      Cell(g', r, Col(h, KeywordsHeader)) == p.productKeywords && Cell(g', r, Col(h, PromoHeader)) == p.promo &&
      Cell(g', r, Col(h, StatusHeader)) == Done && Cell(g', r, Col(h, ProcessedAtHeader)) == now
    ensures var g' := WithResults(g, r, h, p, now);
      forall c: nat | c !in ExtraColumns(h) :: Cell(g', r, c) == Cell(g, r, c)
  {
    ExtraColumnsDistinct(h);
    var cs := ExtraColumnList(h);
    var c1, c2, c3, c4 := cs[2], cs[3], cs[4], cs[5];
    var c5, c6, c7, c8 := cs[6], cs[7], cs[0], cs[1];
    var g1 := SetCell(g, r, c1, p.summary);
    var g2 := SetCell(g1, r, c2, p.health);
    var g3 := SetCell(g2, r, c3, p.foods);
    var g4 := SetCell(g3, r, c4, p.avoid);
    var g5 := SetCell(g4, r, c5, p.productKeywords);
    var g6 := SetCell(g5, r, c6, p.promo);
    var g7 := SetCell(g6, r, c7, Done);
    var g8 := SetCell(g7, r, c8, now);
    assert g8 == WithResults(g, r, h, p, now);
    forall c: nat | c !in ExtraColumns(h) ensures Cell(g8, r, c) == Cell(g, r, c) {
      assert c != c1 && c != c2 && c != c3 && c != c4 && c != c5 && c != c6 && c != c7 && c != c8;
    }
  }

  /**
   * writeAiError_ sets the status to ERROR, the time to `now` and the summary
   * to the prefixed message; every other cell, the five other result cells
   * among them, keeps its content, and no other row changes.
   */
  lemma ErrorWritten(g: Grid, r: nat, message: string, now: string)
    requires 1 <= r <= |g| && HasExtraHeaders(g[0])
    ensures var g', h := WithError(g, r, message, now), HeaderOf(g);
      Cell(g', r, Col(h, StatusHeader)) == Errored && Cell(g', r, Col(h, ProcessedAtHeader)) == now &&
      Cell(g', r, Col(h, SummaryHeader)) == ErrorPrefix + message
    ensures var g', h := WithError(g, r, message, now), HeaderOf(g);
      forall c: nat | c != Col(h, StatusHeader) && c != Col(h, ProcessedAtHeader) && c != Col(h, SummaryHeader) ::
        Cell(g', r, c) == Cell(g, r, c)
  {
    var h := HeaderOf(g);
    HeaderReadHasExtraHeaders(g);
    ExtraColumnsDistinct(h);
    var cs := ExtraColumnList(h);
    assert cs[0] == Col(h, StatusHeader) && cs[1] == Col(h, ProcessedAtHeader) && cs[2] == Col(h, SummaryHeader);
    var g1 := SetCell(g, r, cs[0], Errored);
    var g2 := SetCell(g1, r, cs[1], now);
    var g3 := SetCell(g2, r, cs[2], ErrorPrefix + message);
    assert g3 == WithError(g, r, message, now);
    assert cs[0] != cs[1] && cs[0] != cs[2] && cs[1] != cs[2];
  }

  /** `col(name)` on the header row as read (across the sheet's last column) is its column in the stored row. */
  lemma ColsOfHeader(g: Grid)
    requires g != []
    ensures forall x: string | x != "" :: Col(HeaderOf(g), x) == Col(g[0], x)
  {
    HeaderOfShows(g);
    forall x: string | x != "" ensures Col(HeaderOf(g), x) == Col(g[0], x) {
      SameCellsCol(HeaderOf(g), g[0], x);
    }
  }

  /** Grids with the same stored header row read the same columns. */
  lemma SameHeaderColumns(g: Grid, g': Grid)
    requires g != [] && g' != [] && g[0] == g'[0]
    ensures forall x: string | x != "" :: Col(HeaderOf(g'), x) == Col(HeaderOf(g), x) == Col(g[0], x)
  {
    ColsOfHeader(g);
    ColsOfHeader(g');
  }

  /**
   * A submission is refused, with the sheet untouched, exactly when one of the
   * required parameters is missing or blank.
   */
  lemma PostRejectsExactlyBlank(g: Grid, p: Params, createdAt: string, now: string, respond: string -> Reply)
    ensures Post(g, p, createdAt, now, respond).reply.Rejected? <==>
      (Trim(Param(p, "name")) == [] || Trim(Param(p, "phone")) == [] ||
       Trim(Param(p, "birthdate")) == [] || Trim(Param(p, "calendar_type")) == [] ||
       Trim(Param(p, "gender")) == [])
    ensures Post(g, p, createdAt, now, respond).reply.Rejected? ==>
      Post(g, p, createdAt, now, respond).grid == g && Requests(g, p, createdAt) == []
  {
    RejectsExactlyBlankRequired(p);
  }

  /**
   * After the analysis of the last row it is never left PENDING: its status
   * is DONE exactly when the request was sent and answered, ERROR otherwise.
   */
  lemma SettleStatus(g1: Grid, respond: string -> Reply, now: string)
    requires |g1| >= 2 && HasExtraHeaders(g1[0])
    ensures var g', r := Settle(g1, respond, now), |g1|;
      var st, sent := Cell(g', r, Col(g1[0], StatusHeader)), Requested(g1, r);
      (st == Done || st == Errored) && (st == Done <==> sent != [] && respond(sent[0]).Answer?)
  {
    var r := |g1|;
    var h := HeaderOf(g1);
    var run := RunSpec(g1, r, respond, now);
    HeaderReadHasExtraHeaders(g1);
    ColsOfHeader(g1);
    assert Done != Errored;
    var g' := Settle(g1, respond, now);
    if ReadInput(g1, r).Failure? {
      assert Requested(g1, r) == [];
      assert g' == WithError(g1, r, RangeError, now);
      ErrorWritten(g1, r, RangeError, now);
    } else {
      var d := ReadInput(g1, r).value;
      assert Requested(g1, r) == [BuildSajuPrompt(d)];
      var g2 := SetCell(g1, r, Col(h, StatusHeader), Pending);
      assert g2[0] == g1[0];
      SameHeaderColumns(g1, g2);
      match respond(BuildSajuPrompt(d))
      case Fault(m) =>
        assert RunSpec(g1, r, respond, now) == Run(g2, Failure(m));
        assert g' == WithError(g2, r, m, now);
        ErrorWritten(g2, r, m, now);
      case Answer(text) =>
        var sec := ParseAiSections(text);
        assert RunSpec(g1, r, respond, now) == Run(WithResults(g2, r, h, sec, now), Success(sec));
        assert g' == WithResults(g2, r, h, sec, now);
        ResultsWritten(g2, r, h, sec, now);
    }
  }

  /**
   * When the request was answered, the six result cells of the last row hold
   * the sections parsed from the answer and the time cell holds `now`.
   */
  lemma SettleDone(g1: Grid, respond: string -> Reply, now: string)
    requires |g1| >= 2 && HasExtraHeaders(g1[0])
    requires Requested(g1, |g1|) != [] && respond(Requested(g1, |g1|)[0]).Answer?
    ensures var g', r, h := Settle(g1, respond, now), |g1|, g1[0];
      var sec := ParseAiSections(respond(Requested(g1, r)[0]).text);
      Cell(g', r, Col(h, SummaryHeader)) == sec.summary && Cell(g', r, Col(h, HealthHeader)) == sec.health &&
      Cell(g', r, Col(h, FoodsHeader)) == sec.foods && Cell(g', r, Col(h, AvoidHeader)) == sec.avoid &&
      Cell(g', r, Col(h, KeywordsHeader)) == sec.productKeywords &&
      Cell(g', r, Col(h, PromoHeader)) == sec.promo && Cell(g', r, Col(h, ProcessedAtHeader)) == now
  {
    var r := |g1|;
    var h := HeaderOf(g1);
    HeaderReadHasExtraHeaders(g1);
    ColsOfHeader(g1);
    var d := ReadInput(g1, r).value;
    assert Requested(g1, r) == [BuildSajuPrompt(d)];
    var sec := ParseAiSections(respond(BuildSajuPrompt(d)).text);
    var g2 := SetCell(g1, r, Col(h, StatusHeader), Pending);
    assert RunSpec(g1, r, respond, now) == Run(WithResults(g2, r, h, sec, now), Success(sec));
    assert Settle(g1, respond, now) == WithResults(g2, r, h, sec, now);
    ResultsWritten(g2, r, h, sec, now);
    assert Col(h, SummaryHeader) == Col(g1[0], SummaryHeader) && Col(h, HealthHeader) == Col(g1[0], HealthHeader);
    assert Col(h, FoodsHeader) == Col(g1[0], FoodsHeader) && Col(h, AvoidHeader) == Col(g1[0], AvoidHeader);
    assert Col(h, KeywordsHeader) == Col(g1[0], KeywordsHeader) && Col(h, PromoHeader) == Col(g1[0], PromoHeader);
    assert Col(h, ProcessedAtHeader) == Col(g1[0], ProcessedAtHeader);
  }

  /**
   * When the inputs could not be read or the generator raised an exception,
   * the summary cell of the last row holds the prefixed message, the time cell
   * holds `now`, and every cell but status, time and summary is as before.
   */
  lemma SettleFailed(g1: Grid, respond: string -> Reply, now: string)
    requires |g1| >= 2 && HasExtraHeaders(g1[0])
    requires Requested(g1, |g1|) == [] || respond(Requested(g1, |g1|)[0]).Fault?
    ensures var g', r, h := Settle(g1, respond, now), |g1|, g1[0];
      var sent := Requested(g1, r);
      Cell(g', r, Col(h, SummaryHeader)) == ErrorPrefix + (if sent == [] then RangeError else respond(sent[0]).message) &&
      Cell(g', r, Col(h, ProcessedAtHeader)) == now
    ensures var g', r, h := Settle(g1, respond, now), |g1|, g1[0];
      forall c: nat | c != Col(h, StatusHeader) && c != Col(h, ProcessedAtHeader) && c != Col(h, SummaryHeader) ::
        Cell(g', r, c) == Cell(g1, r, c)
  {
    var r := |g1|;
    var h := HeaderOf(g1);
    HeaderReadHasExtraHeaders(g1);
    ColsOfHeader(g1);
    var g' := Settle(g1, respond, now);
    if ReadInput(g1, r).Failure? {
      assert Requested(g1, r) == [];
      assert g' == WithError(g1, r, RangeError, now);
      ErrorWritten(g1, r, RangeError, now);
    } else {
      var d := ReadInput(g1, r).value;
      assert Requested(g1, r) == [BuildSajuPrompt(d)];
      var m := respond(BuildSajuPrompt(d)).message;
      var g2 := SetCell(g1, r, Col(h, StatusHeader), Pending);
      assert RunSpec(g1, r, respond, now) == Run(g2, Failure(m));
      assert g' == WithError(g2, r, m, now);
      assert g2[0] == g1[0];
      SameHeaderColumns(g1, g2);
      ErrorWritten(g2, r, m, now);
    }
  }

  // ---------------------------------------------------------------------------
  // The steps on the sheet object
  // ---------------------------------------------------------------------------

  /** The header row as read holds the extra headers the stored one holds. */
  lemma HeaderReadHasExtraHeaders(g: Grid)
    requires g != [] && HasExtraHeaders(g[0])
    ensures HasExtraHeaders(HeaderOf(g))
  {
    HeaderOfShows(g);
    ExtraHeadersNonEmpty();
    forall x | x in ExtraHeaders ensures x in HeaderOf(g) {
      SameCellsCol(HeaderOf(g), g[0], x);
    }
  }

  /** The six reads of runAiForRow_, stopping at the first that raises. */
  method ReadInputs(sheet: Sheet, r: nat, header: Row) returns (res: Result<PromptInput>)
    requires sheet.rows != [] && r >= 1 && header == HeaderOf(sheet.rows)
    ensures res == ReadInput(sheet.rows, r)
  {
    var name := sheet.GetValue(r, Col(header, NameHeader));
    if name.Failure? { return Failure(name.error); }
    var birthdate := sheet.GetValue(r, Col(header, BirthdateHeader));
    if birthdate.Failure? { return Failure(birthdate.error); }
    var birthtime := sheet.GetValue(r, Col(header, BirthtimeHeader));
    if birthtime.Failure? { return Failure(birthtime.error); }
    var calendarType := sheet.GetValue(r, Col(header, CalendarHeader));
    if calendarType.Failure? { return Failure(calendarType.error); }
    var gender := sheet.GetValue(r, Col(header, GenderHeader));
    if gender.Failure? { return Failure(gender.error); }
    var memo := sheet.GetValue(r, Col(header, MemoHeader));
    if memo.Failure? { return Failure(memo.error); }
    return Success(PromptInput(name.value, birthdate.value, birthtime.value, calendarType.value, gender.value, memo.value));
  }

  /** The writes of runAiForRow_ after the answer is parsed. */
  method WriteResults(sheet: Sheet, r: nat, header: Row, parsed: Sections, now: string)
    requires 1 <= r <= |sheet.rows| && HasExtraHeaders(header)
    modifies sheet
    ensures sheet.rows == WithResults(old(sheet.rows), r, header, parsed, now)
  {
    ExtraColumnsPresent(header);
    sheet.SetValue(r, Col(header, SummaryHeader), parsed.summary);
    sheet.SetValue(r, Col(header, HealthHeader), parsed.health);
    sheet.SetValue(r, Col(header, FoodsHeader), parsed.foods);
    sheet.SetValue(r, Col(header, AvoidHeader), parsed.avoid);
    sheet.SetValue(r, Col(header, KeywordsHeader), parsed.productKeywords);
    sheet.SetValue(r, Col(header, PromoHeader), parsed.promo);
    sheet.SetValue(r, Col(header, StatusHeader), Done);
    sheet.SetValue(r, Col(header, ProcessedAtHeader), now);
  }

  /** The part of runAiForRow_ after the inputs are read, on the sheet object and the generator. */
  method Analyse(sheet: Sheet, r: nat, header: Row, d: PromptInput, oracle: Oracle, now: string)
    returns (res: Result<Sections>)
    requires 1 <= r <= |sheet.rows| && HasExtraHeaders(header)
    modifies sheet, oracle
    ensures sheet.rows == Analysed(old(sheet.rows), r, header, d, oracle.respond, now).grid
    ensures res == Analysed(old(sheet.rows), r, header, d, oracle.respond, now).outcome
    ensures oracle.prompts == old(oracle.prompts) + [BuildSajuPrompt(d)]
  {
    ExtraColumnsPresent(header);
    sheet.SetValue(r, Col(header, StatusHeader), Pending);
    var reply := oracle.Call(BuildSajuPrompt(d));
    if reply.Fault? {
      return Failure(reply.message);
    }
    var parsed := ParseAiSections(reply.text);
    WriteResults(sheet, r, header, parsed, now);
    return Success(parsed);
  }

  /** runAiForRow_ on the sheet object. */
  method RunAiForRow(sheet: Sheet, r: nat, oracle: Oracle, now: string) returns (res: Result<Sections>)
    requires 1 <= r <= |sheet.rows| && HasExtraHeaders(sheet.rows[0])
    modifies sheet, oracle
    ensures sheet.rows == RunSpec(old(sheet.rows), r, oracle.respond, now).grid
    ensures res == RunSpec(old(sheet.rows), r, oracle.respond, now).outcome
    ensures oracle.prompts == old(oracle.prompts) + Requested(old(sheet.rows), r)
  {
    var header := sheet.HeaderValues();
    HeaderReadHasExtraHeaders(sheet.rows);
    var input := ReadInputs(sheet, r, header);
    if input.Failure? {
      return Failure(input.error);
    }
    res := Analyse(sheet, r, header, input.value, oracle, now);
  }

  /** writeAiError_ on the sheet object. */
  method WriteAiError(sheet: Sheet, r: nat, message: string, now: string)
    requires 1 <= r <= |sheet.rows| && HasExtraHeaders(sheet.rows[0])
    modifies sheet
    ensures sheet.rows == WithError(old(sheet.rows), r, message, now)
  {
    var header := sheet.HeaderValues();
    HeaderReadHasExtraHeaders(sheet.rows);
    ExtraColumnsPresent(header);
    sheet.SetValue(r, Col(header, StatusHeader), Errored);
    sheet.SetValue(r, Col(header, ProcessedAtHeader), now);
    sheet.SetValue(r, Col(header, SummaryHeader), ErrorPrefix + message);
  }

  /** The part of doPost after the new row is appended: runAiForRow_, then writeAiError_ when it raised. */
  method SettleLastRow(sheet: Sheet, oracle: Oracle, now: string)
    requires |sheet.rows| >= 2 && HasExtraHeaders(sheet.rows[0])
    modifies sheet, oracle
    ensures sheet.rows == Settle(old(sheet.rows), oracle.respond, now)
    ensures oracle.prompts == old(oracle.prompts) + Requested(old(sheet.rows), |old(sheet.rows)|)
  {
    var rowIndex := sheet.LastRow();
    var res := RunAiForRow(sheet, rowIndex, oracle, now);
    if res.Failure? {
      WriteAiError(sheet, rowIndex, res.error, now);
    }
  }

  /** The accepted path of doPost: the sheet is opened, the row appended and analysed. */
  method Record(sheet: Sheet, oracle: Oracle, s: Submission, createdAt: string, now: string) returns (rowIndex: nat)
    modifies sheet, oracle
    ensures var g1 := Appended(old(sheet.rows), s, createdAt);
      sheet.rows == Settle(g1, oracle.respond, now) && rowIndex == |g1| &&
      oracle.prompts == old(oracle.prompts) + Requested(g1, |g1|)
  {
    GetSheet(sheet);
    sheet.AppendRow(NewRow(s, createdAt));
    rowIndex := sheet.LastRow();
    SettleLastRow(sheet, oracle, now);
  }

  /** doPost on the sheet object and the text generator. */
  method DoPost(sheet: Sheet, oracle: Oracle, p: Params, createdAt: string, now: string) returns (reply: PostReply)
    modifies sheet, oracle
    ensures sheet.rows == Post(old(sheet.rows), p, createdAt, now, oracle.respond).grid
    ensures reply == Post(old(sheet.rows), p, createdAt, now, oracle.respond).reply
    ensures oracle.prompts == old(oracle.prompts) + Requests(old(sheet.rows), p, createdAt)
  {
    var submission := NormalizeIntake(p);
    if submission.Failure? {
      return Rejected(submission.error);
    }
    var rowIndex := Record(sheet, oracle, submission.value, createdAt, now);
    return Accepted(rowIndex);
  }
}
