/**
 * The `responses` sheet as a value: a sequence of rows, each a sequence of cell
 * strings. Row r of the sheet (1-based) is `g[r - 1]` and column c (1-based) of
 * that row is `g[r - 1][c - 1]`; a cell beyond the end of its row is empty,
 * and so is a cell holding "". The last row is |g|; the last column is the
 * last one in which some row has content.
 *
 * This module holds the pure functions that describe what the script's sheet
 * operations compute: cell reads and writes, column lookup by header name, and
 * the repair of the header row (`ensureExtraHeaders_`, `getSheet_`).
 */
module Table {

  type Row = seq<string>
  type Grid = seq<Row>

  const DateHeader: string := "등록일"
  const SourceHeader: string := "유입경로"
  const NameHeader: string := "이름"
  const PhoneHeader: string := "전화번호"
  const BirthdateHeader: string := "생년월일"
  const BirthtimeHeader: string := "출생시간"
  const CalendarHeader: string := "음양력"
  const GenderHeader: string := "성별"
  const MemoHeader: string := "메모"
  const AgentHeader: string := "접속정보"

  const StatusHeader: string := "AI처리상태"
  const ProcessedAtHeader: string := "AI처리시간"
  const SummaryHeader: string := "사주요약"
  const HealthHeader: string := "건강주의"
  const FoodsHeader: string := "추천음식"
  const AvoidHeader: string := "피해야할음식"
  const KeywordsHeader: string := "상품추천키워드"
  const PromoHeader: string := "홍보문구"

  /** The ten columns of the form data. */
  const BaseHeaders: Row := [DateHeader, SourceHeader, NameHeader, PhoneHeader, BirthdateHeader,
                             BirthtimeHeader, CalendarHeader, GenderHeader, MemoHeader, AgentHeader]

  /** EXTRA_HEADERS: the eight columns of the analysis, in the order they are added. */
  const ExtraHeaders: Row := [StatusHeader, ProcessedAtHeader, SummaryHeader, HealthHeader,
                              FoodsHeader, AvoidHeader, KeywordsHeader, PromoHeader]

  /** The header row written into an empty sheet. */
  const FullHeader: Row := BaseHeaders + ExtraHeaders

  /** The cell at 0-based index `j` of a row as the sheet shows it: "" beyond the row's end. */
  function At(row: Row, j: nat): string {
    if j < |row| then row[j] else ""
  }

  /** Two rows the sheet shows alike: they differ at most in trailing empty cells. */
  ghost predicate SameCells(a: Row, b: Row) {
    forall j: nat :: At(a, j) == At(b, j)
  }

  /** The number of columns of a row up to its last cell with content. */
  function Used(row: Row): (n: nat)
    ensures n <= |row|
    ensures forall j | n <= j < |row| :: row[j] == ""
    ensures n > 0 ==> row[n - 1] != ""
  {
    if row == [] then 0
    else if row[|row| - 1] != "" then |row|
    else
      var n := Used(row[..|row| - 1]);
      assert forall j | n <= j < |row| - 1 :: row[j] == row[..|row| - 1][j];
      n
  }

  /** getLastColumn(): the last column in which some row has content, 0 when none has. */
  function Width(g: Grid): nat {
    if g == [] then 0
    else
      var w := Width(g[1..]);
      if Used(g[0]) >= w then Used(g[0]) else w
  }

  /** No row has content beyond the sheet's last column. */
  lemma {:induction false} WidthCovers(g: Grid)
    ensures forall i | 0 <= i < |g| :: Used(g[i]) <= Width(g)
  {
    if g != [] {
      WidthCovers(g[1..]);
      assert forall i | 1 <= i < |g| :: g[i] == g[1..][i - 1];
    }
  }

  /** A sheet with content has a row whose last cell with content is in the last column. */
  lemma {:induction false} WidthAttained(g: Grid)
    requires Width(g) > 0
    ensures exists i | 0 <= i < |g| :: Used(g[i]) == Width(g)
  {
    if Used(g[0]) < Width(g) {
      WidthAttained(g[1..]);
      var i :| 0 <= i < |g[1..]| && Used(g[1..][i]) == Width(g[1..]);
      assert Used(g[i + 1]) == Width(g);
    }
  }

  /** `n` empty cells. */
  function Blanks(n: nat): (r: Row)
    ensures |r| == n && forall i | 0 <= i < n :: r[i] == ""
  {
    seq(n, _ => "")
  }

  /** The row as a range `n` columns wide reads it: missing cells are empty. */
  function Pad(row: Row, n: nat): (r: Row)
    ensures |r| == if |row| >= n then |row| else n
    ensures r[..|row|] == row
    ensures forall i | |row| <= i < |r| :: r[i] == ""
  {
    if |row| >= n then row else row + Blanks(n - |row|)
  }

  /** `row.indexOf(name)` from index `i` on: the first index holding `name`, or -1. */
  function FindFrom(row: Row, name: string, i: nat): (k: int)
    requires i <= |row|
    ensures -1 <= k < |row|
    ensures k >= 0 ==> i <= k && row[k] == name && forall j | i <= j < k :: row[j] != name
    ensures k == -1 ==> forall j | i <= j < |row| :: row[j] != name
    decreases |row| - i
  {
    if i == |row| then -1
    else if row[i] == name then i
    else FindFrom(row, name, i + 1)
  }

  /**
   * `header.indexOf(name) + 1`: the 1-based column of the first header cell
   * holding `name`, or 0 when there is none.
   */
  function Col(header: Row, name: string): (c: nat)
    ensures c <= |header|
    ensures c == 0 <==> name !in header
    ensures c > 0 ==> header[c - 1] == name && forall j | 0 <= j < c - 1 :: header[j] != name
  {
    var k := FindFrom(header, name, 0);
    assert k == -1 ==> forall j | 0 <= j < |header| :: header[j] != name;
    (k + 1) as nat
  }

  /**
   * getRange(1, 1, 1, getLastColumn()).getValues()[0]: the header row read
   * across the sheet's last column, which the sheet shows as the row itself.
   */
  function HeaderOf(g: Grid): (h: Row)
    requires g != []
    ensures |h| == Width(g) && forall j | 0 <= j < |h| :: h[j] == At(g[0], j)
  {
    WidthCovers(g);
    Pad(g[0], Width(g))[..Width(g)]
  }

  /** The header row read shows as the stored row. */
  lemma {:induction false} HeaderOfShows(g: Grid)
    requires g != []
    ensures SameCells(HeaderOf(g), g[0])
  {
    var h, w := HeaderOf(g), Width(g);
    WidthCovers(g);
    assert Used(g[0]) <= w;
    forall j: nat ensures At(h, j) == At(g[0], j) {
    }
  }

  /** getRange(r, c).getValue(): the content of a cell, "" when nothing was written there. */
  function Cell(g: Grid, r: nat, c: nat): string {
    if 1 <= r <= |g| && 1 <= c <= |g[r - 1]| then g[r - 1][c - 1] else ""
  }

  /** getRange(r, c).setValue(v): the sheet with one cell replaced. */
  function SetCell(g: Grid, r: nat, c: nat, v: string): (g': Grid)
    requires 1 <= r <= |g| && c >= 1
    ensures |g'| == |g|
    ensures forall i | 0 <= i < |g| && i != r - 1 :: g'[i] == g[i]
    ensures |g'[r - 1]| == if |g[r - 1]| >= c then |g[r - 1]| else c
    ensures Cell(g', r, c) == v
    ensures forall c': nat | c' != c :: Cell(g', r, c') == Cell(g, r, c')
  {
    g[r - 1 := Pad(g[r - 1], c)[c - 1 := v]]
  }

  /**
   * getRange(r, c, 1, |vs|).setValues([vs]): the cells of row r from column c
   * on replaced by `vs`, the row padded with empty cells up to column c when it
   * is shorter.
   */
  function SetCells(g: Grid, r: nat, c: nat, vs: Row): (g': Grid)
    requires 1 <= r <= |g| && c >= 1
    ensures |g'| == |g|
    ensures forall i | 0 <= i < |g| && i != r - 1 :: g'[i] == g[i]
    ensures forall j | 0 <= j < |vs| :: Cell(g', r, c + j) == vs[j]
    ensures forall c': nat | c' < c || c' >= c + |vs| :: Cell(g', r, c') == Cell(g, r, c')
  {
    var p := Pad(g[r - 1], c - 1 + |vs|);
    var row := p[..c - 1] + vs + p[c - 1 + |vs|..];
    assert forall j | 0 <= j < |p| :: p[j] == Cell(g, r, j + 1) by {
      forall j | 0 <= j < |p| ensures p[j] == Cell(g, r, j + 1) {
        if j < |g[r - 1]| {
          assert p[..|g[r - 1]|][j] == p[j];
        }
      }
    }
    assert forall j | 0 <= j < c - 1 :: row[j] == p[j];
    assert forall j | c - 1 + |vs| <= j < |row| :: row[j] == p[j];
    g[r - 1 := row]
  }

  /** The entries of `names`, in order, that do not occur in `header`. */
  function Absent(names: Row, header: Row): (m: Row)
    ensures |m| <= |names|
  {
    if names == [] then []
    else (if names[0] in header then [] else [names[0]]) + Absent(names[1..], header)
  }

  /** The absent names are exactly the names the header does not hold. */
  lemma {:induction false} AbsentMembers(names: Row, header: Row)
    ensures forall x :: x in Absent(names, header) <==> x in names && x !in header
    decreases |names|
  {
    if names != [] {
      AbsentMembers(names[1..], header);
      var rest := Absent(names[1..], header);
      assert forall x :: x in names <==> x == names[0] || x in names[1..];
      if names[0] in header {
        assert Absent(names, header) == rest;
      } else {
        assert Absent(names, header) == [names[0]] + rest;
      }
    }
  }

  /** `m` is `names` with some entries left out: the order of what remains is kept. */
  predicate IsSubsequence(m: Row, names: Row)
    decreases |names|
  {
    if m == [] then true
    else if names == [] then false
    else if m[0] == names[0] then IsSubsequence(m[1..], names[1..])
    else IsSubsequence(m, names[1..])
  }

  /**
   * The names the header row lacks, written in their order from the column
   * after the sheet's last column on; nothing is written when none is missing.
   */
  function AddMissing(g: Grid, names: Row): (g': Grid)
    requires g != []
    ensures |g'| == |g| && forall i | 1 <= i < |g| :: g'[i] == g[i]
  {
    var m := Absent(names, HeaderOf(g));
    if m == [] then g else SetCells(g, 1, Width(g) + 1, m)
  }

  /** ensureExtraHeaders_: the extra headers the header row lacks are added after its last column. */
  function HeaderRepair(g: Grid): (g': Grid)
    requires g != []
    ensures |g'| == |g| && forall i | 1 <= i < |g| :: g'[i] == g[i]
  {
    AddMissing(g, ExtraHeaders)
  }

  /**
   * The sheet as getSheet_ leaves it: an empty sheet receives the full header
   * row; otherwise the header row is repaired.
   */
  function Prepared(g: Grid): (g': Grid)
    ensures g' != []
    ensures g == [] ==> g' == [FullHeader]
    ensures g != [] ==> g' == HeaderRepair(g)
  {
    if g == [] then [FullHeader] else HeaderRepair(g)
  }

  /** Every extra header occurs in the row. */
  predicate HasExtraHeaders(header: Row) {
    forall x | x in ExtraHeaders :: x in header
  }

  // ---------------------------------------------------------------------------
  // Properties of the header repair
  // ---------------------------------------------------------------------------

  /** Rows the sheet shows alike hold the same names, each in the same first column. */
  lemma {:induction false} SameCellsCol(a: Row, b: Row, name: string)
    requires SameCells(a, b) && name != ""
    ensures name in a <==> name in b
    ensures Col(a, name) == Col(b, name)
  {
    forall j | 0 <= j < |a| && a[j] == name ensures j < |b| && b[j] == name {
      assert At(a, j) == At(b, j);
    }
    forall j | 0 <= j < |b| && b[j] == name ensures j < |a| && a[j] == name {
      assert At(a, j) == At(b, j);
    }
    var c, d := Col(a, name), Col(b, name);
    if c > 0 {
      assert 0 < d <= c;
      assert At(a, d - 1) == At(b, d - 1);
    }
  }

  /** What the repair leaves missing is nothing; what it appends is a subsequence of EXTRA_HEADERS. */
  lemma {:induction false} AbsentSubsequence(names: Row, header: Row)
    ensures IsSubsequence(Absent(names, header), names)
    decreases |names|
  {
    if names != [] {
      AbsentSubsequence(names[1..], header);
      var rest := Absent(names[1..], header);
      if names[0] !in header {
        assert Absent(names, header) == [names[0]] + rest;
        assert ([names[0]] + rest)[1..] == rest;
      } else {
        assert Absent(names, header) == rest;
        SubsequenceSkip(rest, names);
      }
    }
  }

  /** A subsequence of the tail is a subsequence of the whole. */
  lemma {:induction false} SubsequenceSkip(m: Row, names: Row)
    requires names != [] && IsSubsequence(m, names[1..])
    ensures IsSubsequence(m, names)
    decreases |names|, 0
  {
    if m != [] && m[0] == names[0] {
      SubsequenceTail(m, names[1..]);
    }
  }

  /** Dropping the first entry of a subsequence keeps it a subsequence. */
  lemma {:induction false} SubsequenceTail(m: Row, names: Row)
    requires m != [] && IsSubsequence(m, names)
    ensures IsSubsequence(m[1..], names)
    decreases |names|, 1
  {
    assert names != [];
    if m[0] == names[0] {
      if m[1..] != [] {
        SubsequenceSkip(m[1..], names);
      }
    } else {
      SubsequenceTail(m, names[1..]);
      if m[1..] != [] {
        SubsequenceSkip(m[1..], names);
      }
    }
  }

  /**
   * After the repair the header row holds every extra header; the names
   * written are the extra headers the stored row lacked, in their fixed order.
   */
  lemma {:induction false} HeaderRepairSpec(g: Grid)
    requires g != []
    ensures HasExtraHeaders(HeaderRepair(g)[0])
    ensures var m := Absent(ExtraHeaders, HeaderOf(g));
      IsSubsequence(m, ExtraHeaders) && forall x :: x in m <==> x in ExtraHeaders && x !in g[0]
  {
    var h := HeaderOf(g);
    ExtraHeadersNonEmpty();
    AbsentSubsequence(ExtraHeaders, h);
    AbsentMembers(ExtraHeaders, h);
    HeaderOfShows(g);
    forall x | x in ExtraHeaders ensures x in h <==> x in g[0] {
      SameCellsCol(h, g[0], x);
    }
    AddMissingHolds(g, ExtraHeaders);
  }

  /** The sheet shows the repaired header row as the header read plus the missing names. */
  lemma {:induction false} HeaderRepairShows(g: Grid)
    requires g != []
    ensures var m := Absent(ExtraHeaders, HeaderOf(g));
      SameCells(HeaderRepair(g)[0], if m == [] then g[0] else HeaderOf(g) + m)
  {
    AddMissingShows(g, ExtraHeaders);
  }

  /** No extra header is the empty string. */
  lemma {:induction false} ExtraHeadersNonEmpty()
    ensures "" !in ExtraHeaders
  {
  }

  /** The names missing from the header as read are those missing from the stored row. */
  lemma {:induction false} AbsentOfHeader(g: Grid, names: Row)
    requires g != [] && "" !in names
    ensures Absent(names, HeaderOf(g)) == Absent(names, g[0])
  {
    var h := HeaderOf(g);
    HeaderOfShows(g);
    forall x | x in names ensures x in h <==> x in g[0] {
      SameCellsCol(h, g[0], x);
    }
    AbsentSame(names, h, g[0]);
  }

  /**
   * AddMissing keeps the header cells up to the sheet's last column and
   * writes the missing names, in order, from the next column on.
   */
  lemma {:induction false} AddMissingWrites(g: Grid, names: Row)
    requires g != []
    ensures forall c: nat | c <= Width(g) :: Cell(AddMissing(g, names), 1, c) == Cell(g, 1, c)
    ensures var m := Absent(names, HeaderOf(g));
      forall j | 0 <= j < |m| :: Cell(AddMissing(g, names), 1, Width(g) + 1 + j) == m[j]
  {
    WrittenCells(g, Absent(names, HeaderOf(g)), AddMissing(g, names));
  }

  /**
   * Names written from the column after the last one leave the columns up to
   * it alone; writing no names leaves the sheet as it is.
   */
  lemma {:induction false} WrittenCells(g: Grid, m: Row, g': Grid)
    requires g != [] && g' == if m == [] then g else SetCells(g, 1, Width(g) + 1, m)
    ensures forall c: nat | c <= Width(g) :: Cell(g', 1, c) == Cell(g, 1, c)
    ensures forall j | 0 <= j < |m| :: Cell(g', 1, Width(g) + 1 + j) == m[j]
  {
    if m != [] {
      var w := Width(g);
      forall c: nat | c <= w ensures Cell(g', 1, c) == Cell(g, 1, c) {
        assert c < w + 1;
      }
    }
  }

  /** How the sheet shows the header row after AddMissing. */
  lemma {:induction false} AddMissingShows(g: Grid, names: Row)
    requires g != []
    ensures var m := Absent(names, HeaderOf(g));
      SameCells(AddMissing(g, names)[0], if m == [] then g[0] else HeaderOf(g) + m)
  {
    var m := Absent(names, HeaderOf(g));
    if m != [] {
      WrittenShows(g, m);
    }
  }

  /** Names written from the column after the last one extend the header row as the sheet shows it. */
  lemma {:induction false} WrittenShows(g: Grid, m: Row)
    requires g != []
    ensures SameCells(SetCells(g, 1, Width(g) + 1, m)[0], HeaderOf(g) + m)
  {
    var c := Width(g) + 1;
    RowAfterWrite(g, c, m);
    WidthBound(g);
    ShowsAppended(SetCells(g, 1, c, m)[0], g[0], HeaderOf(g), m, c);
  }

  /** The stored header row has no content beyond the sheet's last column. */
  lemma {:induction false} WidthBound(g: Grid)
    requires g != []
    ensures forall j: nat | j >= Width(g) :: At(g[0], j) == ""
  {
    WidthCovers(g);
    assert Used(g[0]) <= Width(g);
  }

  /** The row `r'` that holds `m` after the first |h| cells of `r` shows as `h + m`. */
  lemma {:induction false} ShowsAppended(r': Row, r: Row, h: Row, m: Row, c: nat)
    requires c == |h| + 1
    requires forall j | 0 <= j < |h| :: h[j] == At(r, j)
    requires forall j: nat | j >= c - 1 :: At(r, j) == ""
    requires forall j: nat :: At(r', j) == if c - 1 <= j < c - 1 + |m| then m[j - (c - 1)] else At(r, j)
    ensures SameCells(r', h + m)
  {
    forall j: nat ensures At(r', j) == At(h + m, j) {
      if j < |h| {
        assert At(h + m, j) == h[j];
      } else if j < |h| + |m| {
        assert At(h + m, j) == m[j - |h|];
      }
    }
  }

  /** Each cell of the written row: one of the values inside the range, the old cell outside it. */
  lemma {:induction false} RowAfterWrite(g: Grid, c: nat, m: Row)
    requires g != [] && c >= 1
    ensures forall j: nat ::
      At(SetCells(g, 1, c, m)[0], j) == if c - 1 <= j < c - 1 + |m| then m[j - (c - 1)] else At(g[0], j)
  {
    forall j: nat
      ensures At(SetCells(g, 1, c, m)[0], j) ==
        (if c - 1 <= j < c - 1 + |m| then m[j - (c - 1)] else At(g[0], j))
    {
      SetCellsAt(g, 1, c, m, j);
    }
  }

  /** A cell of the written row: one of the values inside the range, the old cell outside it. */
  lemma {:induction false} SetCellsAt(g: Grid, r: nat, c: nat, vs: Row, j: nat)
    requires 1 <= r <= |g| && c >= 1
    ensures At(SetCells(g, r, c, vs)[r - 1], j) ==
      if c - 1 <= j < c - 1 + |vs| then vs[j - (c - 1)] else At(g[r - 1], j)
  {
    var g' := SetCells(g, r, c, vs);
    assert At(g'[r - 1], j) == Cell(g', r, j + 1);
    assert At(g[r - 1], j) == Cell(g, r, j + 1);
    if c - 1 <= j < c - 1 + |vs| {
      assert Cell(g', r, c + (j - (c - 1))) == vs[j - (c - 1)];
    }
  }

  /** After AddMissing the header row holds every one of the names. */
  lemma {:induction false} AddMissingHolds(g: Grid, names: Row)
    requires g != [] && "" !in names
    ensures forall x | x in names :: x in AddMissing(g, names)[0]
  {
    var h := HeaderOf(g);
    var m, g' := Absent(names, h), AddMissing(g, names);
    if m != [] {
      AddMissingShows(g, names);
      forall x | x in names ensures x in g'[0] {
        AppendHolds(h, m, names, x);
        SameCellsCol(g'[0], h + m, x);
      }
    } else {
      AbsentMembers(names, h);
      HeaderOfShows(g);
      forall x | x in names ensures x in g'[0] {
        SameCellsCol(h, g[0], x);
      }
    }
  }

  /** A name of `names` is in the row or among those absent from it. */
  lemma {:induction false} AppendHolds(h: Row, m: Row, names: Row, x: string)
    requires m == Absent(names, h) && x in names
    ensures x in h + m
  {
    AbsentMembers(names, h);
    if x !in h {
      assert x in m;
      var i :| 0 <= i < |m| && m[i] == x;
      assert (h + m)[|h| + i] == x;
    } else {
      var i :| 0 <= i < |h| && h[i] == x;
      assert (h + m)[i] == x;
    }
  }

  /** Absent depends on the header only through which of the names it holds. */
  lemma {:induction false} AbsentSame(names: Row, h1: Row, h2: Row)
    requires forall x | x in names :: x in h1 <==> x in h2
    ensures Absent(names, h1) == Absent(names, h2)
    decreases |names|
  {
    if names != [] {
      assert forall x | x in names[1..] :: x in names;
      AbsentSame(names[1..], h1, h2);
    }
  }

  /** Repairing a repaired header row changes nothing: a second call is a no-op. */
  lemma {:induction false} HeaderRepairIdempotent(g: Grid)
    requires g != []
    ensures HeaderRepair(HeaderRepair(g)) == HeaderRepair(g)
  {
    ExtraHeadersNonEmpty();
    AddMissingHolds(g, ExtraHeaders);
    AddNothing(HeaderRepair(g), ExtraHeaders);
  }

  /** A header row that holds every one of the names is left as it is. */
  lemma {:induction false} AddNothing(g: Grid, names: Row)
    requires g != [] && "" !in names
    requires forall x | x in names :: x in g[0]
    ensures AddMissing(g, names) == g
  {
    var h := HeaderOf(g);
    HeaderOfShows(g);
    forall x | x in names ensures x in h {
      SameCellsCol(h, g[0], x);
    }
    AbsentNone(names, h);
  }

  /** Nothing is absent from a row that holds all the names. */
  lemma {:induction false} AbsentNone(names: Row, header: Row)
    requires forall x | x in names :: x in header
    ensures Absent(names, header) == []
    decreases |names|
  {
    if names != [] {
      assert forall x | x in names[1..] :: x in names;
      AbsentNone(names[1..], header);
    }
  }

  /** Existing columns are never moved: a name already in the header keeps its column. */
  lemma {:induction false} HeaderRepairKeepsColumns(g: Grid, name: string)
    requires g != [] && name != "" && name in g[0]
    ensures Col(HeaderRepair(g)[0], name) == Col(g[0], name)
  {
    AddMissingKeepsColumns(g, ExtraHeaders, name);
  }

  /** AddMissing leaves every non-empty name of the header row in its column. */
  lemma {:induction false} AddMissingKeepsColumns(g: Grid, names: Row, name: string)
    requires g != [] && name != "" && name in g[0]
    ensures Col(AddMissing(g, names)[0], name) == Col(g[0], name)
  {
    var h := HeaderOf(g);
    var m, g' := Absent(names, h), AddMissing(g, names);
    AddMissingShows(g, names);
    if m != [] {
      HeaderOfShows(g);
      SameCellsCol(h, g[0], name);
      ColAppend(h, m, name);
      SameCellsCol(g'[0], h + m, name);
    } else {
      SameCellsCol(g'[0], g[0], name);
    }
  }

  /** Appending names after a row does not move a name the row holds. */
  lemma {:induction false} ColAppend(h: Row, m: Row, name: string)
    requires name in h
    ensures Col(h + m, name) == Col(h, name)
  {
    var c := Col(h, name);
    assert (h + m)[c - 1] == name;
    forall j | 0 <= j < c - 1 ensures (h + m)[j] != name {
      assert (h + m)[j] == h[j];
    }
    ColIs(h + m, name, c);
  }

  /** A column is where the name first occurs. */
  lemma {:induction false} ColIs(h: Row, name: string, k: nat)
    requires 1 <= k <= |h| && h[k - 1] == name
    requires forall j | 0 <= j < k - 1 :: h[j] != name
    ensures Col(h, name) == k
  {
  }

  /** The standard header row has eighteen different names. */
  lemma {:induction false} FullHeaderDistinct()
    ensures |FullHeader| == 18
    ensures forall a, b | 0 <= a < b < 18 :: FullHeader[a] != FullHeader[b]
  {
  }

  /** In the standard header row each name stands in its own column, as the new row places its value. */
  lemma {:induction false} FullHeaderColumn(i: nat)
    requires i < 18
    ensures Col(FullHeader, FullHeader[i]) == i + 1
  {
    FullHeaderDistinct();
    ColIs(FullHeader, FullHeader[i], i + 1);
  }

  /** The header row that getSheet_ writes into an empty sheet holds every extra header. */
  lemma {:induction false} FullHeaderHasExtraHeaders()
    ensures HasExtraHeaders(FullHeader)
  {
    forall x | x in ExtraHeaders ensures x in FullHeader {
      var i :| 0 <= i < |ExtraHeaders| && ExtraHeaders[i] == x;
      assert FullHeader[|BaseHeaders| + i] == x;
    }
  }

  /** After getSheet_ the header row holds every extra header. */
  lemma {:induction false} PreparedHasExtraHeaders(g: Grid)
    ensures HasExtraHeaders(Prepared(g)[0])
  {
    if g == [] {
      FullHeaderHasExtraHeaders();
    } else {
      HeaderRepairSpec(g);
    }
  }
}
