/**
 * The dashboard's layout arithmetic: which columns of the session table fit a terminal
 * width, how the terminal height is shared between the session list and the info
 * panel, and the compact age shown in the table.
 */
module DashboardLayout {
  import opened Text
  import Age

  /** Column widths of the session table. */
  const ColId: int := 10
  const ColStatus: int := 11
  const ColWorkflow: int := 10
  const ColAge: int := 6
  const ColPrefix: int := 20
  /** Spacing after the age column, before the prefix. */
  const AgeSpacing: int := 2
  /** Padding, borders and indentation around the table. */
  const TablePadding: int := 6
  const MinPromptWidth: int := 10

  /** `visibleColumns`. */
  datatype Columns = Columns(id: bool, status: bool, workflow: bool, age: bool, prefix: bool, prompt: bool, promptWidth: int)

  /** The width a column takes with its separator, if shown. */
  function Slot(shown: bool, width: int): int
  {
    if shown then 1 + width else 0
  }

  /** The width of the fixed columns shown, separators included. */
  function FixedWidth(c: Columns): int
  {
    ColId + Slot(c.status, ColStatus) + Slot(c.workflow, ColWorkflow)
      + Slot(c.age, ColAge + AgeSpacing) + Slot(c.prefix, ColPrefix)
  }

  /**
   * Left to right, each optional column is shown exactly when it fits next to the
   * columns already shown; the prompt takes what is left if that is at least 10.
   */
  ghost predicate Greedy(width: int, c: Columns)
  {
    var available := width - TablePadding;
    c.id
    && (c.status <==> ColId + Slot(true, ColStatus) <= available)
    && (c.workflow <==> ColId + Slot(c.status, ColStatus) + Slot(true, ColWorkflow) <= available)
    && (c.age <==> ColId + Slot(c.status, ColStatus) + Slot(c.workflow, ColWorkflow)
                   + Slot(true, ColAge + AgeSpacing) <= available)
    && (c.prefix <==> ColId + Slot(c.status, ColStatus) + Slot(c.workflow, ColWorkflow)
                      + Slot(c.age, ColAge + AgeSpacing) + Slot(true, ColPrefix) <= available)
    && (c.prompt <==> available - FixedWidth(c) - 1 >= MinPromptWidth)
    && c.promptWidth == (if c.prompt then available - FixedWidth(c) - 1 else 0)
  }

  /**
   * `getVisibleColumns`: the id column is always shown; the fixed columns shown never
   * take more than the available width unless only the id is shown; a shown prompt is
   * at least 10 wide and fills the row exactly.
   */
  method GetVisibleColumns(width: int) returns (cols: Columns)
    ensures Greedy(width, cols)
    ensures cols.id
    ensures FixedWidth(cols) <= width - TablePadding || cols == Columns(true, false, false, false, false, false, 0)
    ensures cols.prompt ==> cols.promptWidth >= MinPromptWidth && FixedWidth(cols) + 1 + cols.promptWidth == width - TablePadding
  {
    var available := width - TablePadding;
    cols := Columns(true, false, false, false, false, false, 0);
    var used := ColId;
    if used + 1 + ColStatus <= available {
      cols := cols.(status := true);
      used := used + 1 + ColStatus;
    }
    if used + 1 + ColWorkflow <= available {
      cols := cols.(workflow := true);
      used := used + 1 + ColWorkflow;
    }
    if used + 1 + ColAge + AgeSpacing <= available {
      cols := cols.(age := true);
      used := used + 1 + ColAge + AgeSpacing;
    }
    if used + 1 + ColPrefix <= available {
      cols := cols.(prefix := true);
      used := used + 1 + ColPrefix;
    }
    assert used == FixedWidth(cols);
    var remaining := available - used - 1;
    if remaining >= MinPromptWidth {
      cols := cols.(prompt := true, promptWidth := remaining);
    }
  }

  /** The width determines the columns. */
  lemma GreedyUnique(width: int, a: Columns, b: Columns)
    requires Greedy(width, a) && Greedy(width, b)
    ensures a == b
  {
  }

  /**
   * Widening the terminal can hide a column: at width 27 the workflow column fits where
   * the status column does not, while at width 28 the status column fits and then
   * leaves no room for the workflow column.
   */
  lemma WiderCanHideWorkflow(narrow: Columns, wide: Columns)
    requires Greedy(27, narrow) && Greedy(28, wide)
    ensures narrow.workflow && !narrow.status
    ensures wide.status && !wide.workflow
  {
  }

  /** Lines of chrome: header, list title, list border and help bar; three more with the info panel. */
  const Chrome: int := 5
  const ChromeWithInfo: int := 8
  const MinInfoPanel: int := 18
  const MinListHeight: int := 5
  const MinInfoHeight: int := 3

  /**
   * `contentHeight`: without the info panel, everything but the chrome; with it, what
   * is left after the chrome and 18 lines for the panel, but never under 5.
   */
  function ContentHeight(height: int, showInfo: bool): (h: int)
    ensures !showInfo ==> h == height - Chrome
    ensures showInfo ==> h >= MinListHeight
    ensures showInfo && height - ChromeWithInfo - MinInfoPanel >= MinListHeight ==> h == height - ChromeWithInfo - MinInfoPanel
    ensures showInfo && height - ChromeWithInfo - MinInfoPanel < MinListHeight ==> h == MinListHeight
  {
    if showInfo then
      var listHeight := height - ChromeWithInfo - MinInfoPanel;
      if listHeight < MinListHeight then MinListHeight else listHeight
    else height - Chrome
  }

  /** `infoHeight`: what the list and the chrome leave, but never under 3. */
  function InfoHeight(height: int, showInfo: bool): (h: int)
    ensures h >= MinInfoHeight
    ensures h == height - ChromeWithInfo - ContentHeight(height, showInfo) || h == MinInfoHeight
    ensures height - ChromeWithInfo - ContentHeight(height, showInfo) >= MinInfoHeight ==>
      h == height - ChromeWithInfo - ContentHeight(height, showInfo)
  {
    var h := height - ChromeWithInfo - ContentHeight(height, showInfo);
    if h < MinInfoHeight then MinInfoHeight else h
  }

  /**
   * A terminal tall enough for both panels is shared exactly: the chrome, the list and
   * an 18-line info panel; without the panel the list takes everything but the chrome.
   */
  lemma PanelsFillHeight(height: int)
    ensures Chrome + ContentHeight(height, false) == height
    ensures height >= ChromeWithInfo + MinInfoPanel + MinListHeight ==>
      ChromeWithInfo + ContentHeight(height, true) + InfoHeight(height, true) == height
      && InfoHeight(height, true) == MinInfoPanel
  {
  }

  /** The unit suffix each bucket is shown with. */
  function AgeSuffix(b: Age.Bucket): string
  {
    match b
    case UnderAMinute => ""
    case Minutes(_) => "m"
    case Hours(_) => "h"
    case Days(_) => "d"
  }

  /** `formatAge` of the dashboard: `now` under a minute, else the whole units and `m`, `h` or `d`. */
  function FormatAge(elapsed: int): (s: string)
    ensures elapsed < Age.SecondsPerMinute ==> s == "now"
    ensures elapsed >= Age.SecondsPerMinute ==>
      var b := Age.BucketOf(elapsed);
      s == NatToDecimal(b.n) + AgeSuffix(b) && DigitsValue(NatToDecimal(b.n)) == b.n
  {
    var b := Age.BucketOf(elapsed);
    if b.UnderAMinute? then "now"
    else
      NatToDecimalValue(b.n);
      NatToDecimal(b.n) + AgeSuffix(b)
  }

  /** The four buckets, at 30 seconds, 5 minutes, 2 hours and 48 hours. */
  lemma FormatAgeExamples()
    ensures FormatAge(30) == "now"
    ensures FormatAge(300) == "5m"
    ensures FormatAge(7200) == "2h"
    ensures FormatAge(172800) == "2d"
  {
    assert NatToDecimal(5) == "5";
    assert NatToDecimal(2) == "2";
  }
}
