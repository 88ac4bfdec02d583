/** The text layer of the PDF canvas: text items from the PDF decoder become
    raster-space runs, runs are grouped into lines by a first-fit vertical
    tolerance search over the lines found so far, and every line is padded to
    a minimum hit target. Coordinates are canvas pixels (the raster scaled by
    the canvas-to-raster width ratio `scaleFactor`). */
module Clustering {
  import opened Geometry
  import opened JsText

  /** One entry of the decoder's text content: `str`, `transform`, `width`,
      `height`, each possibly absent. */
  datatype TextItem = TextItem(str: Option<string>, transform: Option<Matrix>,
                               width: Option<real>, height: Option<real>)

  /** What the text layer receives from the page render: the viewport
      transform, the canvas/raster width ratio and the runtime's numerics. */
  datatype Context = Context(viewport: Matrix, scaleFactor: real, math: JsMath)

  /** Box ids: `line-<index>-<round(top)>` for clustered lines and
      `item-<index>-<round(left)>-<round(top)>` for per-item boxes. */
  datatype BoxId = LineId(index: nat, roundedTop: int)
                 | ItemId(index: nat, roundedLeft: int, roundedTop: int)

  /** A text item that survived the filters, measured in canvas space. */
  datatype Run = Run(index: nat, text: string, left: real, top: real,
                     width: real, height: real, fontSize: real)

  /** A line under construction. */
  datatype Line = Line(id: BoxId, text: string, left: real, right: real,
                       top: real, height: real, fontSize: real)

  /** A hit box handed to the click logic. */
  datatype Box = Box(id: BoxId, text: string, left: real, top: real,
                     width: real, height: real, fontSize: real)

  // ---------------------------------------------------------------- runs

  function ItemText(item: TextItem): string {
    if item.str.Some? then item.str.value else ""
  }

  /** `v && v > 0`: present and positive. */
  predicate Declared(v: Option<real>) {
    v.Some? && v.value > 0.0
  }

  /** The glyph height: the length of the transform's first column, or the
      declared height (else 12) when that is below half a unit. */
  function FontHeight(item: TextItem, tx: Matrix, math: JsMath): (h: real)
    ensures h > 0.0
  {
    var n := math.hypot(tx.a, tx.b);
    if n < 0.5 then (if Declared(item.height) then item.height.value else 12.0) else n
  }

  function RawHeight(item: TextItem, fontHeight: real): real {
    if Declared(item.height) then item.height.value else fontHeight
  }

  function RawWidth(item: TextItem, text: string, fontHeight: real): real {
    if Declared(item.width) then item.width.value else Scale(Utf16Length(text) as real, fontHeight) * 0.55
  }

  /** The item's height in canvas pixels, the quantity the 0.5 cut-off tests. */
  function ScaledHeight(item: TextItem, ctx: Context): real
    requires item.transform.Some?
  {
    var tx := Multiply(ctx.viewport, item.transform.value);
    Scale(RawHeight(item, FontHeight(item, tx, ctx.math)), ctx.scaleFactor)
  }

  /** The three filters of the text layer. */
  predicate Contributes(item: TextItem, ctx: Context) {
    !IsBlank(ItemText(item)) && item.transform.Some? && ScaledHeight(item, ctx) > 0.5
  }

  /** A run is well formed: trimmed non-empty text and a visible height. */
  predicate GoodRun(r: Run) {
    r.text != [] && IsTrimmed(r.text) && r.height > 0.5
  }

  /** The width estimate for runs that come out at most one pixel wide:
      half an em per character, with the em at least 10. */
  function EstimatedWidth(chars: nat, fontHeight: real, s: real): (w: real)
    ensures chars > 0 && s > 0.0 ==> w > 0.0
  {
    Scale(Scale(chars as real, Max(fontHeight, 10.0)) * 0.5, s)
  }

  /** The run an item with a transform describes, before the height cut-off:
      anchor from the transformed origin, top raised by the raw height, and a
      width re-estimated from the character count when it comes out at most
      one pixel. */
  function RunOf(item: TextItem, index: nat, ctx: Context): (r: Run)
    requires item.transform.Some?
    ensures r.index == index && r.text == Trim(ItemText(item)) && r.height == ScaledHeight(item, ctx)
  {
    var text := ItemText(item);
    var tx := Multiply(ctx.viewport, item.transform.value);
    var fontHeight := FontHeight(item, tx, ctx.math);
    var rawHeight := RawHeight(item, fontHeight);
    var s := ctx.scaleFactor;
    var width0 := Scale(RawWidth(item, text, fontHeight), s);
    var width := if width0 <= 1.0 then EstimatedWidth(Utf16Length(text), fontHeight, s) else width0;
    Run(index, Trim(text), Scale(tx.e, s), Scale(tx.f - rawHeight, s), width, Scale(rawHeight, s), Scale(fontHeight, s))
  }

  /** Measure one text item: `None` for the items the filters drop. */
  function Measure(item: TextItem, index: nat, ctx: Context): (r: Option<Run>)
    ensures r.Some? <==> Contributes(item, ctx)
    ensures r.Some? ==> r.value == RunOf(item, index, ctx) && GoodRun(r.value)
  {
    var text := ItemText(item);
    TrimEmptyIffBlank(text);
    TrimTrimmed(text);
    if Trim(text) == [] || item.transform.None? then None
    else
      var run := RunOf(item, index, ctx);
      if run.height <= 0.5 then None else Some(run)
  }

  lemma RunOfPositive(item: TextItem, index: nat, ctx: Context)
    requires item.transform.Some? && ItemText(item) != [] && ctx.scaleFactor > 0.0
    ensures RunOf(item, index, ctx).width > 0.0 && RunOf(item, index, ctx).fontSize > 0.0
  {
  }

  /** On a positively scaled canvas every run has a positive width and font size. */
  lemma MeasurePositive(item: TextItem, index: nat, ctx: Context)
    requires Contributes(item, ctx) && ctx.scaleFactor > 0.0
    ensures Measure(item, index, ctx).value.width > 0.0 && Measure(item, index, ctx).value.fontSize > 0.0
  {
    RunOfPositive(item, index, ctx);
  }

  // ---------------------------------------------------------------- lines

  function Tolerance(run: Run): (t: real)
    ensures t >= 3.0
  {
    Max(3.0, run.height * 0.6)
  }

  /** A line accepts a run when their tops are closer than the run's tolerance. */
  predicate Matches(line: Line, run: Run) {
    Abs(line.top - run.top) < Tolerance(run)
  }

  /** `lines.find(...)`: the first line, in insertion order, that accepts the run. */
  function FindLine(lines: seq<Line>, run: Run): (r: Option<nat>)
    ensures r.Some? ==> r.value < |lines| && Matches(lines[r.value], run)
                        && forall j :: 0 <= j < r.value ==> !Matches(lines[j], run)
    ensures r.None? ==> forall j :: 0 <= j < |lines| ==> !Matches(lines[j], run)
  {
    if |lines| == 0 then None
    else if Matches(lines[0], run) then Some(0)
    else match FindLine(lines[1..], run)
      case None => None
      case Some(k) => Some(k + 1)
  }

  /** The line a run opens when no existing line accepts it. */
  function NewLine(run: Run, round: real -> int): Line {
    Line(LineId(run.index, round(run.top)), run.text, run.left, run.left + run.width,
         run.top, run.height, run.fontSize)
  }

  /** `b` is `a` grown: same identity and top, extents and sizes never shrink. */
  predicate Widens(a: Line, b: Line) {
    b.id == a.id && b.top == a.top && b.left <= a.left && b.right >= a.right
    && b.height >= a.height && b.fontSize >= a.fontSize
  }

  /** The line's rectangle and sizes enclose the run's. */
  predicate Covers(line: Line, run: Run) {
    line.left <= run.left && line.right >= run.left + run.width
    && line.height >= run.height && line.fontSize >= run.fontSize
  }

  /** Fold a run into an existing line. */
  function Merge(line: Line, run: Run): (r: Line)
    ensures Widens(line, r) && Covers(r, run)
  {
    Line(line.id, Trim(line.text + " " + run.text), Min(line.left, run.left),
         Max(line.right, run.left + run.width), line.top, Max(line.height, run.height),
         Max(line.fontSize, run.fontSize))
  }

  /** The measured items of a page: entry `i` is item `i`'s run, if it survives. */
  predicate WellMeasured(ms: seq<Option<Run>>) {
    forall i :: 0 <= i < |ms| && ms[i].Some? ==> ms[i].value.index == i && GoodRun(ms[i].value)
  }

  function MeasureAll(items: seq<TextItem>, ctx: Context): (ms: seq<Option<Run>>)
    ensures |ms| == |items| && WellMeasured(ms)
  {
    seq(|items|, i requires 0 <= i < |items| => Measure(items[i], i, ctx))
  }

  /** One iteration of the clustering `forEach`, given the item's measurement. */
  function Step(lines: seq<Line>, m: Option<Run>, round: real -> int): seq<Line>
  {
    match m
    case None => lines
    case Some(run) =>
      match FindLine(lines, run)
      case None => lines + [NewLine(run, round)]
      case Some(k) => lines[k := Merge(lines[k], run)]
  }

  /** The lines after the first `n` measured items. */
  function Clustered(ms: seq<Option<Run>>, n: nat, round: real -> int): seq<Line>
    requires n <= |ms|
  {
    if n == 0 then [] else Step(Clustered(ms, n - 1, round), ms[n - 1], round)
  }

  /** The lines of a page. */
  function PageLines(items: seq<TextItem>, ctx: Context): seq<Line> {
    Clustered(MeasureAll(items, ctx), |items|, ctx.math.round)
  }

  /** The body of the clustering `forEach`: measure one item and either open
      a new line for its run or merge the run into the first line that
      accepts it. */
  method AddItem(lines: seq<Line>, item: TextItem, index: nat, ctx: Context) returns (next: seq<Line>)
    ensures next == Step(lines, Measure(item, index, ctx), ctx.math.round)
  {
    next := lines;
    var measured := Measure(item, index, ctx);
    if measured.Some? {
      var run := measured.value;
      var found := FindLine(lines, run);
      if found.None? {
        next := lines + [NewLine(run, ctx.math.round)];
      } else {
        var k := found.value;
        next := lines[k := Merge(lines[k], run)];
      }
    }
  }

  /** The clustering loop over the page's text items. */
  method ClusterItems(items: seq<TextItem>, ctx: Context) returns (lines: seq<Line>)
    ensures lines == PageLines(items, ctx)
  {
    ghost var ms := MeasureAll(items, ctx);
    lines := [];
    var index := 0;
    while index < |items|
      invariant 0 <= index <= |items|
      invariant lines == Clustered(ms, index, ctx.math.round)
    {
      lines := AddItem(lines, items[index], index, ctx);
      index := index + 1;
    }
  }

  /** The first-fit rule, stated without `FindLine`: a run joins the
      least-indexed line that accepts it, or opens exactly one new line at the
      end; an item the filters dropped leaves the lines as they are. */
  lemma StepFirstFit(lines: seq<Line>, m: Option<Run>, round: real -> int)
    ensures m.None? ==> Step(lines, m, round) == lines
    ensures m.Some? && (exists k :: 0 <= k < |lines| && Matches(lines[k], m.value)) ==>
      exists k :: 0 <= k < |lines| && Matches(lines[k], m.value)
             && (forall j :: 0 <= j < k ==> !Matches(lines[j], m.value))
             && Step(lines, m, round) == lines[k := Merge(lines[k], m.value)]
    ensures m.Some? && (forall k :: 0 <= k < |lines| ==> !Matches(lines[k], m.value)) ==>
      Step(lines, m, round) == lines + [NewLine(m.value, round)]
  {
    if m.Some? {
      var found := FindLine(lines, m.value);
      if found.Some? {
        assert Matches(lines[found.value], m.value);
      }
    }
  }

  // ------------------------------------------------ lines as run summaries

  /** A group of runs lies on the row of its first run. */
  predicate GroupAccepts(group: seq<Run>, run: Run) {
    |group| > 0 && Abs(group[0].top - run.top) < Tolerance(run)
  }

  function FindGroup(groups: seq<seq<Run>>, run: Run): (r: Option<nat>)
    ensures r.Some? ==> r.value < |groups| && GroupAccepts(groups[r.value], run)
                        && forall j :: 0 <= j < r.value ==> !GroupAccepts(groups[j], run)
    ensures r.None? ==> forall j :: 0 <= j < |groups| ==> !GroupAccepts(groups[j], run)
  {
    if |groups| == 0 then None
    else if GroupAccepts(groups[0], run) then Some(0)
    else match FindGroup(groups[1..], run)
      case None => None
      case Some(k) => Some(k + 1)
  }

  /** The reference grouping, defined on the runs alone: each surviving run of
      the first `n` items, in document order, joins the first group whose first
      run lies within the run's tolerance, or starts a group of its own. */
  function Groups(ms: seq<Option<Run>>, n: nat): seq<seq<Run>>
    requires n <= |ms|
  {
    if n == 0 then []
    else
      var groups := Groups(ms, n - 1);
      match ms[n - 1]
      case None => groups
      case Some(run) =>
        match FindGroup(groups, run)
        case None => groups + [[run]]
        case Some(k) => groups[k := groups[k] + [run]]
  }

  function JoinWords(runs: seq<Run>): string
    requires |runs| > 0
  {
    if |runs| == 1 then runs[0].text
    else JoinWords(runs[..|runs| - 1]) + " " + runs[|runs| - 1].text
  }

  function MinLeft(runs: seq<Run>): real
    requires |runs| > 0
  {
    if |runs| == 1 then runs[0].left else Min(MinLeft(runs[..|runs| - 1]), runs[|runs| - 1].left)
  }

  function MaxRight(runs: seq<Run>): real
    requires |runs| > 0
  {
    var last := runs[|runs| - 1];
    if |runs| == 1 then last.left + last.width
    else Max(MaxRight(runs[..|runs| - 1]), last.left + last.width)
  }

  function MaxHeight(runs: seq<Run>): real
    requires |runs| > 0
  {
    if |runs| == 1 then runs[0].height else Max(MaxHeight(runs[..|runs| - 1]), runs[|runs| - 1].height)
  }

  function MaxFontSize(runs: seq<Run>): real
    requires |runs| > 0
  {
    if |runs| == 1 then runs[0].fontSize
    else Max(MaxFontSize(runs[..|runs| - 1]), runs[|runs| - 1].fontSize)
  }

  /** The line a group of runs describes, defined from the runs alone: id and
      top from the first run, the space-joined texts, the leftmost left, the
      rightmost right, the largest height and font size. */
  function Summarize(runs: seq<Run>, round: real -> int): Line
    requires |runs| > 0
  {
    Line(LineId(runs[0].index, round(runs[0].top)), JoinWords(runs), MinLeft(runs),
         MaxRight(runs), runs[0].top, MaxHeight(runs), MaxFontSize(runs))
  }

  lemma {:induction false} JoinWordsTrimmed(runs: seq<Run>)
    requires |runs| > 0
    requires forall j :: 0 <= j < |runs| ==> GoodRun(runs[j])
    ensures JoinWords(runs) != [] && IsTrimmed(JoinWords(runs))
  {
    if |runs| > 1 {
      JoinWordsTrimmed(runs[..|runs| - 1]);
      TrimOfSpaceJoin(JoinWords(runs[..|runs| - 1]), runs[|runs| - 1].text);
    }
  }

  /** Merging a run into the summary of a group is the summary of the group
      with the run appended. */
  lemma MergeSummarize(runs: seq<Run>, run: Run, round: real -> int)
    requires |runs| > 0
    requires forall j :: 0 <= j < |runs| ==> GoodRun(runs[j])
    requires GoodRun(run)
    ensures Merge(Summarize(runs, round), run) == Summarize(runs + [run], round)
  {
    var all := runs + [run];
    assert all[..|all| - 1] == runs;
    JoinWordsTrimmed(runs);
    TrimOfSpaceJoin(JoinWords(runs), run.text);
  }

  /** Line `k` is the summary of group `k`. */
  ghost predicate Summarizes(lines: seq<Line>, groups: seq<seq<Run>>, round: real -> int) {
    |lines| == |groups|
    && forall k :: 0 <= k < |groups| ==> |groups[k]| > 0 && lines[k] == Summarize(groups[k], round)
  }

  /** Every grouped run is the well-formed run of one of the first `n` items. */
  ghost predicate GroupedRuns(ms: seq<Option<Run>>, n: nat, groups: seq<seq<Run>>) {
    forall k, j :: 0 <= k < |groups| && 0 <= j < |groups[k]| ==>
      groups[k][j].index < n <= |ms| && ms[groups[k][j].index] == Some(groups[k][j]) && GoodRun(groups[k][j])
  }

  /** No two groups start with the same item. */
  ghost predicate FirstsDistinct(groups: seq<seq<Run>>) {
    forall j, k :: 0 <= j < k < |groups| && |groups[j]| > 0 && |groups[k]| > 0 ==>
      groups[j][0].index != groups[k][0].index
  }

  /** A line and its group sit on the same row, so the two searches agree. */
  lemma FindLineFindsGroup(lines: seq<Line>, groups: seq<seq<Run>>, run: Run, round: real -> int)
    requires Summarizes(lines, groups, round)
    ensures FindLine(lines, run) == FindGroup(groups, run)
  {
    forall k | 0 <= k < |lines| ensures Matches(lines[k], run) <==> GroupAccepts(groups[k], run) {
      assert lines[k].top == groups[k][0].top;
    }
    var a := FindLine(lines, run);
    var b := FindGroup(groups, run);
    if a.Some? && b.Some? {
      assert !(a.value < b.value) && !(b.value < a.value);
    }
  }

  lemma SummarizesOpen(lines: seq<Line>, groups: seq<seq<Run>>, run: Run, round: real -> int)
    requires Summarizes(lines, groups, round)
    ensures Summarizes(lines + [NewLine(run, round)], groups + [[run]], round)
  {
    var next: seq<seq<Run>> := groups + [[run]];
    forall k | 0 <= k < |next| ensures |next[k]| > 0 && (lines + [NewLine(run, round)])[k] == Summarize(next[k], round) {
      if k < |groups| {
        assert next[k] == groups[k];
      }
    }
  }

  lemma SummarizesMerge(lines: seq<Line>, groups: seq<seq<Run>>, k: nat, run: Run, round: real -> int)
    requires Summarizes(lines, groups, round) && k < |groups| && GoodRun(run)
    requires forall j :: 0 <= j < |groups[k]| ==> GoodRun(groups[k][j])
    ensures Summarizes(lines[k := Merge(lines[k], run)], groups[k := groups[k] + [run]], round)
  {
    var nextLines := lines[k := Merge(lines[k], run)];
    var next: seq<seq<Run>> := groups[k := groups[k] + [run]];
    MergeSummarize(groups[k], run, round);
    forall i | 0 <= i < |next| ensures |next[i]| > 0 && nextLines[i] == Summarize(next[i], round) {
      if i != k {
        assert next[i] == groups[i] && nextLines[i] == lines[i];
      }
    }
  }

  lemma GroupedRunsOpen(ms: seq<Option<Run>>, n: nat, groups: seq<seq<Run>>, run: Run)
    requires 0 < n <= |ms| && ms[n - 1] == Some(run) && GoodRun(run) && run.index == n - 1
    requires GroupedRuns(ms, n - 1, groups)
    ensures GroupedRuns(ms, n, groups + [[run]])
  {
    var next: seq<seq<Run>> := groups + [[run]];
    forall k, j | 0 <= k < |next| && 0 <= j < |next[k]|
      ensures next[k][j].index < n <= |ms| && ms[next[k][j].index] == Some(next[k][j]) && GoodRun(next[k][j])
    {
      if k < |groups| {
        assert next[k] == groups[k];
      }
    }
  }

  lemma GroupedRunsMerge(ms: seq<Option<Run>>, n: nat, groups: seq<seq<Run>>, k: nat, run: Run)
    requires 0 < n <= |ms| && ms[n - 1] == Some(run) && GoodRun(run) && run.index == n - 1
    requires GroupedRuns(ms, n - 1, groups) && k < |groups|
    ensures GroupedRuns(ms, n, groups[k := groups[k] + [run]])
  {
    var next: seq<seq<Run>> := groups[k := groups[k] + [run]];
    forall i, j | 0 <= i < |next| && 0 <= j < |next[i]|
      ensures next[i][j].index < n <= |ms| && ms[next[i][j].index] == Some(next[i][j]) && GoodRun(next[i][j])
    {
      if i != k {
        assert next[i] == groups[i];
      } else if j < |groups[k]| {
        assert next[i][j] == groups[k][j];
      }
    }
  }

  lemma FirstsDistinctOpen(ms: seq<Option<Run>>, n: nat, groups: seq<seq<Run>>, run: Run)
    requires 0 < n <= |ms| && run.index == n - 1
    requires GroupedRuns(ms, n - 1, groups) && FirstsDistinct(groups)
    ensures FirstsDistinct(groups + [[run]])
  {
    var next: seq<seq<Run>> := groups + [[run]];
    forall i, j | 0 <= i < j < |next| && |next[i]| > 0 && |next[j]| > 0 ensures next[i][0].index != next[j][0].index {
      assert next[i] == groups[i];
      if j < |groups| {
        assert next[j] == groups[j];
      }
    }
  }

  lemma FirstsDistinctMerge(groups: seq<seq<Run>>, k: nat, run: Run)
    requires FirstsDistinct(groups) && k < |groups| && |groups[k]| > 0
    ensures FirstsDistinct(groups[k := groups[k] + [run]])
  {
    var next: seq<seq<Run>> := groups[k := groups[k] + [run]];
    forall i | 0 <= i < |next| && |next[i]| > 0 ensures next[i][0] == groups[i][0] {
    }
  }

  ghost predicate GroupingHolds(ms: seq<Option<Run>>, n: nat, round: real -> int)
    requires n <= |ms|
  {
    Summarizes(Clustered(ms, n, round), Groups(ms, n), round)
    && GroupedRuns(ms, n, Groups(ms, n)) && FirstsDistinct(Groups(ms, n))
  }

  lemma GroupingStep(ms: seq<Option<Run>>, n: nat, round: real -> int)
    requires 0 < n <= |ms| && WellMeasured(ms) && GroupingHolds(ms, n - 1, round)
    ensures GroupingHolds(ms, n, round)
  {
    var lines := Clustered(ms, n - 1, round);
    var groups := Groups(ms, n - 1);
    assert GroupedRuns(ms, n - 1, groups) ==> GroupedRuns(ms, n, groups);
    if ms[n - 1].Some? {
      var run := ms[n - 1].value;
      FindLineFindsGroup(lines, groups, run, round);
      match FindGroup(groups, run)
      case None =>
        SummarizesOpen(lines, groups, run, round);
        GroupedRunsOpen(ms, n, groups, run);
        FirstsDistinctOpen(ms, n, groups, run);
      case Some(k) =>
        SummarizesMerge(lines, groups, k, run, round);
        GroupedRunsMerge(ms, n, groups, k, run);
        FirstsDistinctMerge(groups, k, run);
    }
  }

  lemma {:induction false} GroupingInvariant(ms: seq<Option<Run>>, n: nat, round: real -> int)
    requires n <= |ms| && WellMeasured(ms)
    ensures GroupingHolds(ms, n, round)
  {
    if n > 0 {
      GroupingInvariant(ms, n - 1, round);
      GroupingStep(ms, n, round);
    }
  }

  /** Clustering builds every line from exactly one group of the reference
      grouping: there are as many lines as groups, line `k` is the summary of
      group `k` (id and top of its first run, the space-joined texts, the
      extreme extents and sizes), every grouped run is the run of an earlier
      item, and no two groups start with the same item. */
  lemma ClusteredIsSummary(ms: seq<Option<Run>>, n: nat, round: real -> int)
    requires n <= |ms| && WellMeasured(ms)
    ensures |Clustered(ms, n, round)| == |Groups(ms, n)|
    ensures forall k :: 0 <= k < |Groups(ms, n)| ==>
      |Groups(ms, n)[k]| > 0 && Clustered(ms, n, round)[k] == Summarize(Groups(ms, n)[k], round)
    ensures GroupedRuns(ms, n, Groups(ms, n)) && FirstsDistinct(Groups(ms, n))
  {
    GroupingInvariant(ms, n, round);
  }

  lemma {:induction false} SummaryCovers(runs: seq<Run>, round: real -> int)
    requires |runs| > 0
    ensures forall j :: 0 <= j < |runs| ==> Covers(Summarize(runs, round), runs[j])
  {
    if |runs| > 1 {
      var front := runs[..|runs| - 1];
      SummaryCovers(front, round);
      forall j | 0 <= j < |runs| - 1 ensures Covers(Summarize(runs, round), runs[j]) {
        assert runs[j] == front[j];
      }
    }
  }

  /** Every surviving item's run lands in some group, and stays there as
      further items are processed. */
  lemma {:induction false} RunGrouped(ms: seq<Option<Run>>, i: nat, n: nat)
    requires i < n <= |ms| && ms[i].Some?
    ensures exists k :: 0 <= k < |Groups(ms, n)| && ms[i].value in Groups(ms, n)[k]
  {
    var groups := Groups(ms, n - 1);
    if n == i + 1 {
      var run := ms[i].value;
      match FindGroup(groups, run)
      case None =>
        assert run in Groups(ms, n)[|groups|];
      case Some(k) =>
        assert run in Groups(ms, n)[k];
    } else {
      RunGrouped(ms, i, n - 1);
      var k :| 0 <= k < |groups| && ms[i].value in groups[k];
      assert ms[i].value in Groups(ms, n)[k];
    }
  }

  /** Where each surviving item ended up: on a line whose rectangle and sizes
      enclose the item's run. */
  lemma LineCoversItem(items: seq<TextItem>, i: nat, ctx: Context)
    requires i < |items| && Contributes(items[i], ctx)
    ensures exists k :: 0 <= k < |PageLines(items, ctx)|
                        && Covers(PageLines(items, ctx)[k], Measure(items[i], i, ctx).value)
  {
    var ms := MeasureAll(items, ctx);
    var round := ctx.math.round;
    var n := |items|;
    assert ms[i] == Measure(items[i], i, ctx);
    RunGrouped(ms, i, n);
    ClusteredIsSummary(ms, n, round);
    var groups := Groups(ms, n);
    var k :| 0 <= k < |groups| && ms[i].value in groups[k];
    var j :| 0 <= j < |groups[k]| && groups[k][j] == ms[i].value;
    SummaryCovers(groups[k], round);
    assert Covers(PageLines(items, ctx)[k], ms[i].value);
  }

  /** Line ids are pairwise distinct. */
  lemma LineIdsDistinct(ms: seq<Option<Run>>, round: real -> int)
    requires WellMeasured(ms)
    ensures forall j, k :: 0 <= j < k < |Clustered(ms, |ms|, round)| ==>
      Clustered(ms, |ms|, round)[j].id != Clustered(ms, |ms|, round)[k].id
  {
    var n := |ms|;
    var lines := Clustered(ms, n, round);
    var groups: seq<seq<Run>> := Groups(ms, n);
    ClusteredIsSummary(ms, n, round);
    forall j, k | 0 <= j < k < |lines| ensures lines[j].id != lines[k].id {
      assert lines[j].id.index == groups[j][0].index && lines[k].id.index == groups[k][0].index;
    }
  }

  /** Distinct lines keep their tops at least 3 pixels apart: a run opens a new
      line only when it is outside every existing line's tolerance, and merging
      never moves a top. */
  lemma {:induction false} LinesSeparated(ms: seq<Option<Run>>, n: nat, round: real -> int)
    requires n <= |ms|
    ensures forall j, k :: 0 <= j < k < |Clustered(ms, n, round)| ==>
      Abs(Clustered(ms, n, round)[j].top - Clustered(ms, n, round)[k].top) >= 3.0
  {
    if n > 0 {
      LinesSeparated(ms, n - 1, round);
      var lines := Clustered(ms, n - 1, round);
      var next := Clustered(ms, n, round);
      forall j, k | 0 <= j < k < |next| ensures Abs(next[j].top - next[k].top) >= 3.0 {
        assert next[j].top == lines[j].top;
        if k < |lines| {
          assert next[k].top == lines[k].top;
        } else {
          var run := ms[n - 1].value;
          assert next[k].top == run.top;
          assert !Matches(lines[j], run);
        }
      }
    }
  }

  /** The clustering produces no line exactly when every item is filtered out. */
  lemma {:induction false} ClusteredEmptyIff(ms: seq<Option<Run>>, n: nat, round: real -> int)
    requires n <= |ms|
    ensures Clustered(ms, n, round) == [] <==> forall i :: 0 <= i < n ==> ms[i].None?
  {
    if n > 0 {
      ClusteredEmptyIff(ms, n - 1, round);
      if ms[n - 1].Some? {
        var lines := Clustered(ms, n - 1, round);
        if FindLine(lines, ms[n - 1].value).Some? {
          assert |Clustered(ms, n, round)| == |lines| > 0;
        }
      }
    }
  }

  // ---------------------------------------------------------- post-pass

  /** The padded hit box of a line: at least 6 wide and 12 high, font at least
      10, vertically recentred on the line. */
  function PadLine(line: Line): (b: Box)
    ensures b.id == line.id && b.text == line.text && b.left == line.left
    ensures b.width >= 6.0 && b.height >= 12.0 && b.fontSize >= 10.0
    ensures b.width >= line.right - line.left && (b.width == 6.0 || b.width == line.right - line.left)
    ensures b.height >= line.height && (b.height == 12.0 || b.height == line.height)
    ensures b.fontSize >= line.fontSize && (b.fontSize == 10.0 || b.fontSize == line.fontSize)
    ensures b.top + b.height / 2.0 == line.top + line.height / 2.0
    ensures b.top <= line.top && b.top + b.height >= line.top + line.height
  {
    var rectWidth := Max(6.0, line.right - line.left);
    var rectHeight := Max(12.0, line.height);
    var rectTop := line.top - (rectHeight - line.height) / 2.0;
    Box(line.id, line.text, line.left, rectTop, rectWidth, rectHeight, Max(10.0, line.fontSize))
  }

  function PadLines(lines: seq<Line>): (boxes: seq<Box>)
    ensures |boxes| == |lines|
    ensures forall k :: 0 <= k < |lines| ==> boxes[k] == PadLine(lines[k])
  {
    seq(|lines|, k requires 0 <= k < |lines| => PadLine(lines[k]))
  }

  /** The per-item box of the fallback branch: no merging, no recentring. */
  function FallbackBox(run: Run, round: real -> int): (b: Box)
    ensures b.id == ItemId(run.index, round(run.left), round(run.top))
    ensures b.text == run.text && b.left == run.left && b.top == run.top
    ensures b.width >= 6.0 && b.height >= 12.0 && b.fontSize >= 10.0
    ensures b.width >= run.width && b.height >= run.height && b.fontSize >= run.fontSize
  {
    Box(ItemId(run.index, round(run.left), round(run.top)), run.text, run.left, run.top,
        Max(6.0, run.width), Max(12.0, run.height), Max(10.0, run.fontSize))
  }

  /** The fallback `map`/`filter` over the first `n` measured items. */
  function Fallback(ms: seq<Option<Run>>, n: nat, round: real -> int): seq<Box>
    requires n <= |ms|
  {
    if n == 0 then []
    else
      Fallback(ms, n - 1, round)
      + match ms[n - 1]
        case None => []
        case Some(run) => [FallbackBox(run, round)]
  }

  /** The fallback uses the same filters: it is empty exactly when the
      clustering is. */
  lemma {:induction false} FallbackEmptyIff(ms: seq<Option<Run>>, n: nat, round: real -> int)
    requires n <= |ms|
    ensures Fallback(ms, n, round) == [] <==> forall i :: 0 <= i < n ==> ms[i].None?
  {
    if n > 0 {
      FallbackEmptyIff(ms, n - 1, round);
    }
  }

  /** The hit boxes of a page: the per-item fallback when no line was
      found but the page had items, the padded lines otherwise. */
  function DetectBoxes(items: seq<TextItem>, ctx: Context): seq<Box>
  {
    var lines := PageLines(items, ctx);
    if |lines| == 0 && |items| > 0 then Fallback(MeasureAll(items, ctx), |items|, ctx.math.round)
    else PadLines(lines)
  }

  /** The fallback never contributes a box: whenever no line is found the
      fallback list is empty too, so the boxes are always the padded lines. */
  lemma FallbackNeverFires(items: seq<TextItem>, ctx: Context)
    ensures PageLines(items, ctx) == [] ==> Fallback(MeasureAll(items, ctx), |items|, ctx.math.round) == []
    ensures DetectBoxes(items, ctx) == PadLines(PageLines(items, ctx))
  {
    ClusteredEmptyIff(MeasureAll(items, ctx), |items|, ctx.math.round);
    FallbackEmptyIff(MeasureAll(items, ctx), |items|, ctx.math.round);
  }

  /** The "no selectable text" condition (no lines and no boxes) holds exactly
      when the filters drop every item. */
  lemma NoSelectableTextIff(items: seq<TextItem>, ctx: Context)
    ensures (|PageLines(items, ctx)| == 0 && |DetectBoxes(items, ctx)| == 0)
        <==> forall i :: 0 <= i < |items| ==> !Contributes(items[i], ctx)
  {
    var ms := MeasureAll(items, ctx);
    FallbackNeverFires(items, ctx);
    ClusteredEmptyIff(ms, |items|, ctx.math.round);
    assert forall i :: 0 <= i < |items| ==> (ms[i].None? <==> !Contributes(items[i], ctx));
  }

  /** Every box of a page carries non-empty text with no white space at
      either end. */
  lemma BoxTextsTrimmed(items: seq<TextItem>, ctx: Context)
    ensures forall k :: 0 <= k < |DetectBoxes(items, ctx)| ==>
      DetectBoxes(items, ctx)[k].text != [] && IsTrimmed(DetectBoxes(items, ctx)[k].text)
  {
    var ms := MeasureAll(items, ctx);
    var round := ctx.math.round;
    FallbackNeverFires(items, ctx);
    ClusteredIsSummary(ms, |items|, round);
    var groups := Groups(ms, |items|);
    var lines := PageLines(items, ctx);
    forall k | 0 <= k < |lines| ensures lines[k].text != [] && IsTrimmed(lines[k].text) {
      assert forall j :: 0 <= j < |groups[k]| ==> GoodRun(groups[k][j]);
      JoinWordsTrimmed(groups[k]);
    }
  }

  /** The boxes of a page carry pairwise distinct ids. */
  lemma BoxIdsDistinct(items: seq<TextItem>, ctx: Context)
    ensures forall j, k :: 0 <= j < k < |DetectBoxes(items, ctx)| ==>
      DetectBoxes(items, ctx)[j].id != DetectBoxes(items, ctx)[k].id
  {
    FallbackNeverFires(items, ctx);
    LineIdsDistinct(MeasureAll(items, ctx), ctx.math.round);
  }
}
