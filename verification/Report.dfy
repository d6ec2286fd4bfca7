/**
Verification reports: tee/go/tools/pkg/validate/report.go, and the in-place filter of
tee/go/tools/cmd/verify-deploy/main.go.
*/
module Report {
  import opened Prelude

  /** An int in the source, so that other values than the four constants occur. */
  type Status = int

  const PASS: Status := 0
  const WARN: Status := 1
  const FAIL: Status := 2
  const SKIP: Status := 3

  datatype CheckResult = CheckResult(step: string, id: string, name: string, status: Status, message: string, fix: string)

  // ------------------------------------------------------------------------------------------
  // The filter by check id.

  function Filter<T>(s: seq<T>, keep: T -> bool): seq<T> {
    if s == [] then []
    else
      var rest := Filter(s[..|s| - 1], keep);
      if keep(s[|s| - 1]) then rest + [s[|s| - 1]] else rest
  }

  function Flatten<T, U>(s: seq<T>, f: T -> seq<U>): seq<U> {
    if s == [] then [] else Flatten(s[..|s| - 1], f) + f(s[|s| - 1])
  }

  /** Filtering keeps exactly what is to be kept, in its order: position k of the result comes from position at[k]. */
  lemma {:induction false} FilterIsSubsequence<T>(s: seq<T>, keep: T -> bool) returns (at: seq<nat>)
    ensures |at| == |Filter(s, keep)|
    ensures forall k :: 0 <= k < |at| ==> at[k] < |s| && Filter(s, keep)[k] == s[at[k]]
    ensures forall j, k :: 0 <= j < k < |at| ==> at[j] < at[k]
    ensures forall i :: 0 <= i < |s| ==> (keep(s[i]) <==> i in at)
  {
    if s == [] {
      at := [];
    } else {
      var last := |s| - 1;
      at := FilterIsSubsequence(s[..last], keep);
      assert last !in at;
      assert forall i :: 0 <= i < last ==> s[i] == s[..last][i];
      if keep(s[last]) {
        at := at + [last];
      }
    }
  }

  /**
  `filtered := report.Results[:0]`, then appending to it while ranging over report.Results: both
  slices share one array, whose elements are overwritten while they are still being read.
  */
  method FilterInPlace(results: array<CheckResult>, allowed: set<string>) returns (n: nat)
    modifies results
    ensures n <= results.Length
    ensures results[..n] == Filter(old(results[..]), (r: CheckResult) => r.id in allowed)
    ensures results[n..] == old(results[n..])
  {
    ghost var keep := (r: CheckResult) => r.id in allowed;
    ghost var was := results[..];
    n := 0;
    for i := 0 to results.Length
      invariant n <= i
      invariant results[..n] == Filter(was[..i], keep)
      invariant results[n..] == was[n..]
    {
      var res := results[i];
      assert was[..i + 1][..i] == was[..i];
      assert res == results[n..][i - n] == was[n..][i - n] == was[i];
      if res.id in allowed {
        ghost var kept := results[..n];
        results[n] := res;
        n := n + 1;
        assert results[..n] == kept + [res];
        assert results[n..] == was[n - 1..][1..] == was[n..];
      }
    }
    assert was[..results.Length] == was;
  }

  // ------------------------------------------------------------------------------------------
  // Summary.

  function WithStatus(status: Status): CheckResult -> bool {
    (r: CheckResult) => r.status == status
  }

  function Tally(results: seq<CheckResult>, status: Status): nat {
    |Filter(results, WithStatus(status))|
  }

  method Summary(results: seq<CheckResult>) returns (passed: nat, warning: nat, failed: nat, skipped: nat)
    ensures passed == Tally(results, PASS) && warning == Tally(results, WARN)
    ensures failed == Tally(results, FAIL) && skipped == Tally(results, SKIP)
  {
    passed, warning, failed, skipped := 0, 0, 0, 0;
    for i := 0 to |results|
      invariant passed == Tally(results[..i], PASS) && warning == Tally(results[..i], WARN)
      invariant failed == Tally(results[..i], FAIL) && skipped == Tally(results[..i], SKIP)
    {
      assert results[..i + 1][..i] == results[..i];
      var status := results[i].status;
      if status == PASS {
        passed := passed + 1;
      } else if status == WARN {
        warning := warning + 1;
      } else if status == FAIL {
        failed := failed + 1;
      } else if status == SKIP {
        skipped := skipped + 1;
      }
    }
    assert results[..|results|] == results;
  }

  predicate Defined(r: CheckResult) {
    r.status == PASS || r.status == WARN || r.status == FAIL || r.status == SKIP
  }

  /** The four counts never exceed the number of results, and reach it exactly when every status is one of the four. */
  lemma {:induction false} SummaryCountsAll(results: seq<CheckResult>)
    ensures var sum := Tally(results, PASS) + Tally(results, WARN) + Tally(results, FAIL) + Tally(results, SKIP);
            sum <= |results| && (sum == |results| <==> forall r <- results :: Defined(r))
  {
    if results != [] {
      var before := results[..|results| - 1];
      SummaryCountsAll(before);
      assert (forall r <- results :: Defined(r)) <==> (forall r <- before :: Defined(r)) && Defined(results[|results| - 1]) by {
        assert forall r <- results :: r in before || r == results[|results| - 1];
      }
    }
  }

  // ------------------------------------------------------------------------------------------
  // Fprint.

  datatype Color = Cyan | Green | Yellow | Red | Gray | Reset

  function StatusColor(s: Status): Color {
    if s == PASS then Green
    else if s == WARN then Yellow
    else if s == FAIL then Red
    else if s == SKIP then Gray
    else Reset
  }

  const STEP_LABEL: map<string, string> := map[
    "deploy" := "Contract Deployment",
    "register" := "Extension Registration",
    "services" := "Service Startup",
    "tee-version" := "TEE Version Registration",
    "tee-machine" := "TEE Machine Registration",
    "test" := "Testing"]

  /** The labels, and no others. */
  lemma LabelMeans(step: string)
    ensures Label("deploy") == "Contract Deployment" && Label("register") == "Extension Registration"
    ensures Label("services") == "Service Startup" && Label("test") == "Testing"
    ensures Label("tee-version") == "TEE Version Registration" && Label("tee-machine") == "TEE Machine Registration"
    ensures step !in ["deploy", "register", "services", "tee-version", "tee-machine", "test"] ==> Label(step) == step
  {
  }

  /** What a step is called; a step without a label by its own name. */
  function Label(step: string): string {
    if step in STEP_LABEL && STEP_LABEL[step] != "" then STEP_LABEL[step] else step
  }

  /** A line of the report; Detail and FixHint stand below the item they explain. */
  datatype Line =
    | Title(color: Color)
    | Header(heading: string)
    | Item(color: Color, result: CheckResult)
    | Detail(text: string)
    | FixHint(text: string)
    | Blank
    | Totals(passed: nat, warning: nat, failed: nat, skipped: nat)

  /** The results among the lines, in order. */
  function Items(lines: seq<Line>): seq<CheckResult> {
    if lines == [] then []
    else
      var rest := Items(lines[..|lines| - 1]);
      match lines[|lines| - 1]
      case Item(_, r) => rest + [r]
      case _ => rest
  }

  function InStep(step: string): CheckResult -> bool {
    (r: CheckResult) => r.step == step
  }

  /** The steps in order of first appearance. */
  function Steps(results: seq<CheckResult>): seq<string> {
    if results == [] then []
    else
      var before := Steps(results[..|results| - 1]);
      var step := results[|results| - 1].step;
      if step in before then before else before + [step]
  }

  /** A step with its results, as Fprint writes it. */
  function Section(results: seq<CheckResult>, step: string): seq<Line> {
    [Header(Label(step))] + AsItems(Filter(results, InStep(step))) + [Blank]
  }

  /** An item and what explains it: failures and warnings show their message and their fix, where there is one. */
  function ItemLines(r: CheckResult): seq<Line> {
    [Item(StatusColor(r.status), r)] + Explanations(r)
  }

  function Explanations(r: CheckResult): seq<Line> {
    if r.status == FAIL || r.status == WARN then
      (if r.message != "" then [Detail(r.message)] else []) + (if r.fix != "" then [FixHint(r.fix)] else [])
    else []
  }

  function AsItems(results: seq<CheckResult>): seq<Line> {
    Flatten(results, ItemLines)
  }

  lemma AppendItem(results: seq<CheckResult>, r: CheckResult)
    ensures AsItems(results + [r]) == AsItems(results) + ItemLines(r)
  {
    assert (results + [r])[..|results|] == results;
  }

  function Sections(results: seq<CheckResult>, steps: seq<string>): seq<Line> {
    if steps == [] then [] else Sections(results, steps[..|steps| - 1]) + Section(results, steps[|steps| - 1])
  }

  /** The whole report. */
  function Printed(results: seq<CheckResult>): seq<Line> {
    [Title(Cyan)] + Sections(results, Steps(results)) +
    [Totals(Tally(results, PASS), Tally(results, WARN), Tally(results, FAIL), Tally(results, SKIP))]
  }

  /** The loop that collects the steps. */
  method CollectSteps(results: seq<CheckResult>) returns (steps: seq<string>)
    ensures steps == Steps(results)
  {
    steps := [];
    var seen: map<string, bool> := map[];
    for i := 0 to |results|
      invariant steps == Steps(results[..i])
      invariant forall s :: s in seen && seen[s] <==> s in steps
    {
      assert results[..i + 1][..i] == results[..i];
      var step := results[i].step;
      if !(step in seen && seen[step]) {
        seen := seen[step := true];
        steps := steps + [step];
      }
    }
    assert results[..|results|] == results;
  }

  /** The outer printing loop. */
  method FprintSections(results: seq<CheckResult>, steps: seq<string>) returns (lines: seq<Line>)
    ensures lines == Sections(results, steps)
  {
    lines := [];
    for k := 0 to |steps|
      invariant lines == Sections(results, steps[..k])
    {
      var section := FprintSection(results, steps[k]);
      lines := lines + section;
      assert steps[..k + 1][..k] == steps[..k];
    }
    assert steps[..|steps|] == steps;
  }

  method Fprint(results: seq<CheckResult>) returns (lines: seq<Line>)
    ensures lines == Printed(results)
  {
    var steps := CollectSteps(results);
    var sections := FprintSections(results, steps);
    var passed, warning, failed, skipped := Summary(results);
    lines := [Title(Cyan)] + sections + [Totals(passed, warning, failed, skipped)];
  }

  /** One more result, printed if it belongs to the step. */
  lemma SectionGrows(results: seq<CheckResult>, step: string, i: nat)
    requires i < |results|
    ensures var (before, header) := (AsItems(Filter(results[..i], InStep(step))), [Header(Label(step))]);
            header + AsItems(Filter(results[..i + 1], InStep(step))) ==
            if results[i].step == step then (header + before) + ItemLines(results[i]) else header + before
  {
    assert results[..i + 1][..i] == results[..i];
    if results[i].step == step {
      AppendItem(Filter(results[..i], InStep(step)), results[i]);
    }
  }

  /** One round of the outer printing loop. */
  method FprintSection(results: seq<CheckResult>, step: string) returns (lines: seq<Line>)
    ensures lines == Section(results, step)
  {
    lines := [Header(Label(step))];
    for i := 0 to |results|
      invariant lines == [Header(Label(step))] + AsItems(Filter(results[..i], InStep(step)))
    {
      SectionGrows(results, step, i);
      if results[i].step == step {
        var item := FprintItem(results[i]);
        lines := lines + item;
      }
    }
    assert results[..|results|] == results;
    lines := lines + [Blank];
  }

  /** The body of the inner printing loop. */
  method FprintItem(r: CheckResult) returns (lines: seq<Line>)
    ensures lines == ItemLines(r)
  {
    lines := [Item(StatusColor(r.status), r)];
    if r.status == FAIL || r.status == WARN {
      if r.message != "" {
        lines := lines + [Detail(r.message)];
      }
      if r.fix != "" {
        lines := lines + [FixHint(r.fix)];
      }
    }
  }

  // ------------------------------------------------------------------------------------------
  // What the printed report says.

  lemma {:induction false} FilterConcat<T>(a: seq<T>, b: seq<T>, keep: T -> bool)
    ensures Filter(a + b, keep) == Filter(a, keep) + Filter(b, keep)
    decreases |b|
  {
    if b == [] {
      assert a + b == a;
    } else {
      assert (a + b)[..|a + b| - 1] == a + b[..|b| - 1];
      FilterConcat(a, b[..|b| - 1], keep);
    }
  }

  lemma {:induction false} ItemsConcat(a: seq<Line>, b: seq<Line>)
    ensures Items(a + b) == Items(a) + Items(b)
    decreases |b|
  {
    if b == [] {
      assert a + b == a;
    } else {
      assert (a + b)[..|a + b| - 1] == a + b[..|b| - 1];
      ItemsConcat(a, b[..|b| - 1]);
    }
  }

  lemma ItemsOfItem(r: CheckResult)
    ensures Items(ItemLines(r)) == [r]
  {
    NoItems(Explanations(r));
    ItemsConcat([Item(StatusColor(r.status), r)], Explanations(r));
    assert Items([Item(StatusColor(r.status), r)]) == [r] by {
      assert [Item(StatusColor(r.status), r)][..0] == [];
    }
  }

  lemma {:induction false} NoItems(lines: seq<Line>)
    requires forall l <- lines :: !l.Item?
    ensures Items(lines) == []
  {
    if lines != [] {
      NoItems(lines[..|lines| - 1]);
    }
  }

  lemma {:induction false} ItemsOfItems(results: seq<CheckResult>)
    ensures Items(AsItems(results)) == results
    decreases |results|
  {
    if results != [] {
      var before, last := results[..|results| - 1], results[|results| - 1];
      ItemsOfItems(before);
      ItemsOfItem(last);
      ItemsConcat(AsItems(before), ItemLines(last));
    }
  }

  lemma ItemsOfSection(results: seq<CheckResult>, step: string)
    ensures Items(Section(results, step)) == Filter(results, InStep(step))
  {
    var inStep := AsItems(Filter(results, InStep(step)));
    ItemsOfItems(Filter(results, InStep(step)));
    ItemsConcat([Header(Label(step))] + inStep, [Blank]);
    ItemsConcat([Header(Label(step))], inStep);
    assert Items([Header(Label(step))]) == [] && Items([Blank]) == [];
  }

  lemma ItemsOfSections(results: seq<CheckResult>, steps: seq<string>)
    requires steps != []
    ensures Items(Sections(results, steps)) ==
            Items(Sections(results, steps[..|steps| - 1])) + Filter(results, InStep(steps[|steps| - 1]))
  {
    ItemsConcat(Sections(results, steps[..|steps| - 1]), Section(results, steps[|steps| - 1]));
    ItemsOfSection(results, steps[|steps| - 1]);
  }

  lemma {:induction false} LinesOfItems(results: seq<CheckResult>)
    ensures forall l <- AsItems(results) :: !l.Header?
    ensures forall l <- AsItems(results) :: l.Item? ==> l.result in results && FitsStatus(l.color, l.result.status)
  {
    if results != [] {
      LinesOfItems(results[..|results| - 1]);
    }
  }

  predicate Flagged(r: CheckResult) {
    r.status == FAIL || r.status == WARN
  }

  /**
  What stands around line i: below a failure or warning its message, if any, and then its fix, if
  any; and a message or fix stands nowhere but there.
  */
  predicate ExplainedAt(lines: seq<Line>, i: nat)
    requires i < |lines|
  {
    match lines[i]
    case Item(_, r) =>
      && (Flagged(r) && r.message != "" ==> i + 1 < |lines| && lines[i + 1] == Detail(r.message))
      && (Flagged(r) && r.fix != "" ==>
            var j := if r.message != "" then i + 2 else i + 1;
            j < |lines| && lines[j] == FixHint(r.fix))
    case Detail(text) =>
      i >= 1 && lines[i - 1].Item? && Flagged(lines[i - 1].result) && text == lines[i - 1].result.message != ""
    case FixHint(text) =>
      || (i >= 1 && lines[i - 1].Item? && Flagged(lines[i - 1].result) && lines[i - 1].result.message == ""
          && text == lines[i - 1].result.fix != "")
      || (i >= 2 && lines[i - 1].Detail? && lines[i - 2].Item? && text == lines[i - 2].result.fix != "")
    case _ => true
  }

  ghost predicate WellExplained(lines: seq<Line>) {
    forall i :: 0 <= i < |lines| ==> ExplainedAt(lines, i)
  }

  lemma WellExplainedConcat(a: seq<Line>, b: seq<Line>)
    requires WellExplained(a) && WellExplained(b)
    ensures WellExplained(a + b)
  {
    forall i | 0 <= i < |a + b|
      ensures ExplainedAt(a + b, i)
    {
      if i < |a| {
        assert ExplainedAt(a, i);
      } else {
        assert ExplainedAt(b, i - |a|);
      }
    }
  }

  lemma ItemExplained(r: CheckResult)
    ensures WellExplained(ItemLines(r))
  {
  }

  lemma {:induction false} ItemsExplained(results: seq<CheckResult>)
    ensures WellExplained(AsItems(results))
  {
    if results != [] {
      ItemsExplained(results[..|results| - 1]);
      ItemExplained(results[|results| - 1]);
      WellExplainedConcat(AsItems(results[..|results| - 1]), ItemLines(results[|results| - 1]));
    }
  }

  lemma {:induction false} SectionsExplained(results: seq<CheckResult>, steps: seq<string>)
    ensures WellExplained(Sections(results, steps))
    decreases |steps|
  {
    if steps != [] {
      var inStep := AsItems(Filter(results, InStep(steps[|steps| - 1])));
      var header := [Header(Label(steps[|steps| - 1]))];
      SectionsExplained(results, steps[..|steps| - 1]);
      ItemsExplained(Filter(results, InStep(steps[|steps| - 1])));
      WellExplainedConcat(header, inStep);
      WellExplainedConcat(header + inStep, [Blank]);
      WellExplainedConcat(Sections(results, steps[..|steps| - 1]), Section(results, steps[|steps| - 1]));
    }
  }

  /** A blank line ends each section: there is one before every header but the first, and one at the end. */
  ghost predicate Spaced(lines: seq<Line>) {
    && (forall i :: 0 < i < |lines| && lines[i].Header? ==> lines[i - 1].Blank?)
    && (lines != [] ==> lines[0].Header? && lines[|lines| - 1].Blank?)
  }

  lemma SpacedConcat(a: seq<Line>, b: seq<Line>)
    requires Spaced(a) && Spaced(b)
    ensures Spaced(a + b)
  {
    forall i | 0 < i < |a + b| && (a + b)[i].Header?
      ensures (a + b)[i - 1].Blank?
    {
      if i < |a| {
        assert a[i].Header?;
      } else {
        assert b[i - |a|].Header?;
      }
    }
  }

  lemma SectionSpaced(results: seq<CheckResult>, step: string)
    ensures Spaced(Section(results, step))
  {
    var inStep := AsItems(Filter(results, InStep(step)));
    LinesOfItems(Filter(results, InStep(step)));
    forall i | 0 < i < |Section(results, step)|
      ensures !Section(results, step)[i].Header?
    {
      assert i <= |inStep| ==> Section(results, step)[i] == inStep[i - 1] && inStep[i - 1] in inStep;
    }
  }

  lemma {:induction false} SectionsSpaced(results: seq<CheckResult>, steps: seq<string>)
    ensures Spaced(Sections(results, steps))
    decreases |steps|
  {
    if steps != [] {
      SectionsSpaced(results, steps[..|steps| - 1]);
      SectionSpaced(results, steps[|steps| - 1]);
      SpacedConcat(Sections(results, steps[..|steps| - 1]), Section(results, steps[|steps| - 1]));
    }
  }

  /** The headings among the lines, in order. */
  function Headings(lines: seq<Line>): seq<string> {
    if lines == [] then []
    else
      var rest := Headings(lines[..|lines| - 1]);
      match lines[|lines| - 1]
      case Header(heading) => rest + [heading]
      case _ => rest
  }

  lemma {:induction false} HeadingsConcat(a: seq<Line>, b: seq<Line>)
    ensures Headings(a + b) == Headings(a) + Headings(b)
    decreases |b|
  {
    if b == [] {
      assert a + b == a;
    } else {
      assert (a + b)[..|a + b| - 1] == a + b[..|b| - 1];
      HeadingsConcat(a, b[..|b| - 1]);
    }
  }

  lemma {:induction false} NoHeadings(lines: seq<Line>)
    requires forall l <- lines :: !l.Header?
    ensures Headings(lines) == []
  {
    if lines != [] {
      NoHeadings(lines[..|lines| - 1]);
    }
  }

  lemma HeadingOfSection(results: seq<CheckResult>, step: string)
    ensures Headings(Section(results, step)) == [Label(step)]
  {
    var header, inStep := [Header(Label(step))], AsItems(Filter(results, InStep(step)));
    LinesOfItems(Filter(results, InStep(step)));
    NoHeadings(inStep + [Blank]);
    assert Section(results, step) == header + (inStep + [Blank]);
    HeadingsConcat(header, inStep + [Blank]);
    assert Headings(header) == [Label(step)] by {
      assert header[..0] == [];
    }
  }

  function Labels(steps: seq<string>): seq<string> {
    if steps == [] then [] else Labels(steps[..|steps| - 1]) + [Label(steps[|steps| - 1])]
  }

  /** Each step has one section. */
  lemma {:induction false} HeadingsOfSections(results: seq<CheckResult>, steps: seq<string>)
    ensures Headings(Sections(results, steps)) == Labels(steps)
    decreases |steps|
  {
    if steps != [] {
      HeadingsOfSections(results, steps[..|steps| - 1]);
      HeadingOfSection(results, steps[|steps| - 1]);
      HeadingsConcat(Sections(results, steps[..|steps| - 1]), Section(results, steps[|steps| - 1]));
    }
  }

  /** The header an item at the end of the lines would stand under. */
  function HeaderOver(lines: seq<Line>): Option<string> {
    if lines == [] then None
    else if lines[|lines| - 1].Header? then Some(lines[|lines| - 1].heading)
    else HeaderOver(lines[..|lines| - 1])
  }

  /** The color belongs to the status, none to a status that is not defined. */
  predicate FitsStatus(c: Color, s: Status) {
    match c
    case Green => s == PASS
    case Yellow => s == WARN
    case Red => s == FAIL
    case Gray => s == SKIP
    case Reset => s !in {PASS, WARN, FAIL, SKIP}
    case Cyan => false
  }

  /** Every item stands under the label of its own step, and in the color of its status. */
  ghost predicate UnderOwnHeader(lines: seq<Line>) {
    forall i :: 0 <= i < |lines| && lines[i].Item? ==>
      && HeaderOver(lines[..i]) == Some(Label(lines[i].result.step))
      && FitsStatus(lines[i].color, lines[i].result.status)
  }

  lemma {:induction false} HeaderOverConcat(a: seq<Line>, b: seq<Line>)
    ensures HeaderOver(a + b) == if HeaderOver(b).Some? then HeaderOver(b) else HeaderOver(a)
    decreases |b|
  {
    if b == [] {
      assert a + b == a;
    } else {
      assert (a + b)[..|a + b| - 1] == a + b[..|b| - 1];
      HeaderOverConcat(a, b[..|b| - 1]);
    }
  }

  lemma UnderOwnHeaderConcat(a: seq<Line>, b: seq<Line>)
    requires UnderOwnHeader(a) && UnderOwnHeader(b)
    ensures UnderOwnHeader(a + b)
  {
    forall i | 0 <= i < |a + b| && (a + b)[i].Item?
      ensures HeaderOver((a + b)[..i]) == Some(Label((a + b)[i].result.step))
    {
      if i < |a| {
        assert (a + b)[..i] == a[..i];
      } else {
        assert (a + b)[..i] == a + b[..i - |a|];
        HeaderOverConcat(a, b[..i - |a|]);
      }
    }
  }

  lemma {:induction false} NoHeaders(lines: seq<Line>)
    requires forall l <- lines :: !l.Header?
    ensures HeaderOver(lines) == None
  {
    if lines != [] {
      NoHeaders(lines[..|lines| - 1]);
    }
  }

  lemma SectionUnderOwnHeader(results: seq<CheckResult>, step: string)
    ensures UnderOwnHeader(Section(results, step))
  {
    var inStep := AsItems(Filter(results, InStep(step)));
    var lines := Section(results, step);
    LinesOfItems(Filter(results, InStep(step)));
    FilterKeepsStep(results, step);
    forall i | 0 <= i < |lines| && lines[i].Item?
      ensures HeaderOver(lines[..i]) == Some(Label(lines[i].result.step)) && FitsStatus(lines[i].color, lines[i].result.status)
    {
      assert lines[i] == inStep[i - 1];
      assert lines[..i] == [Header(Label(step))] + inStep[..i - 1];
      assert forall l <- inStep[..i - 1] :: l in inStep;
      NoHeaders(inStep[..i - 1]);
      HeaderOverConcat([Header(Label(step))], inStep[..i - 1]);
    }
  }

  lemma {:induction false} SectionsUnderOwnHeader(results: seq<CheckResult>, steps: seq<string>)
    ensures UnderOwnHeader(Sections(results, steps))
    decreases |steps|
  {
    if steps != [] {
      SectionsUnderOwnHeader(results, steps[..|steps| - 1]);
      SectionUnderOwnHeader(results, steps[|steps| - 1]);
      UnderOwnHeaderConcat(Sections(results, steps[..|steps| - 1]), Section(results, steps[|steps| - 1]));
    }
  }

  /** The frame of the report, its title and its totals, says nothing about single results. */
  lemma FrameHasNoItems(lines: seq<Line>, totals: Line)
    requires totals.Totals?
    ensures Items([Title(Cyan)] + lines + [totals]) == Items(lines)
    ensures Headings([Title(Cyan)] + lines + [totals]) == Headings(lines)
  {
    ItemsConcat([Title(Cyan)] + lines, [totals]);
    ItemsConcat([Title(Cyan)], lines);
    HeadingsConcat([Title(Cyan)] + lines, [totals]);
    HeadingsConcat([Title(Cyan)], lines);
    assert Items([Title(Cyan)]) == [] && Items([totals]) == [];
    assert Headings([Title(Cyan)]) == [] && Headings([totals]) == [];
  }

  predicate Distinct(steps: seq<string>) {
    forall i, j :: 0 <= i < j < |steps| ==> steps[i] != steps[j]
  }

  lemma {:induction false} StepsAreDistinct(results: seq<CheckResult>)
    ensures Distinct(Steps(results))
    ensures forall r <- results :: r.step in Steps(results)
  {
    if results != [] {
      StepsAreDistinct(results[..|results| - 1]);
      assert forall r <- results :: r in results[..|results| - 1] || r == results[|results| - 1];
    }
  }

  /** Within one step, filtering again for a step keeps everything or nothing. */
  lemma {:induction false} FilterTwice(results: seq<CheckResult>, s: string, t: string)
    ensures Filter(Filter(results, InStep(s)), InStep(t)) == if s == t then Filter(results, InStep(s)) else []
  {
    if results != [] {
      FilterTwice(results[..|results| - 1], s, t);
      FilterConcat(Filter(results[..|results| - 1], InStep(s)), [results[|results| - 1]], InStep(t));
      assert Filter([results[|results| - 1]], InStep(t)) == if results[|results| - 1].step == t then [results[|results| - 1]] else [];
    }
  }

  /** Restricted to any one step, the printed items are the step's results in their order. */
  lemma {:induction false} OrderWithinStep(results: seq<CheckResult>, steps: seq<string>, t: string)
    requires Distinct(steps)
    ensures Filter(Items(Sections(results, steps)), InStep(t)) == if t in steps then Filter(results, InStep(t)) else []
    decreases |steps|
  {
    if steps != [] {
      var before, s := steps[..|steps| - 1], steps[|steps| - 1];
      OrderWithinStep(results, before, t);
      ItemsOfSections(results, steps);
      FilterConcat(Items(Sections(results, before)), Filter(results, InStep(s)), InStep(t));
      FilterTwice(results, s, t);
      assert t in steps <==> t in before || t == s;
    }
  }

  lemma {:induction false} FilterNone(results: seq<CheckResult>, t: string)
    requires forall r <- results :: r.step != t
    ensures Filter(results, InStep(t)) == []
  {
    if results != [] {
      FilterNone(results[..|results| - 1], t);
    }
  }

  lemma {:induction false} FilterCounts(results: seq<CheckResult>, x: CheckResult)
    ensures multiset(Filter(results, InStep(x.step)))[x] == multiset(results)[x]
  {
    if results != [] {
      FilterCounts(results[..|results| - 1], x);
      assert results == results[..|results| - 1] + [results[|results| - 1]];
    }
  }

  /** Where a step comes in the order of steps. */
  function Rank(steps: seq<string>, s: string): nat {
    if steps == [] || steps[0] == s then 0 else 1 + Rank(steps[1..], s)
  }

  lemma {:induction false} RankIsIndex(steps: seq<string>, k: nat)
    requires Distinct(steps) && k < |steps|
    ensures Rank(steps, steps[k]) == k
  {
    if k > 0 {
      RankIsIndex(steps[1..], k - 1);
    }
  }

  lemma {:induction false} RankFound(steps: seq<string>, s: string)
    requires s in steps
    ensures Rank(steps, s) < |steps| && steps[Rank(steps, s)] == s
  {
    if steps[0] != s {
      RankFound(steps[1..], s);
    }
  }

  /** Where a step first appears among the results. */
  function FirstAt(results: seq<CheckResult>, step: string): (k: nat)
    ensures k <= |results| && (k < |results| ==> results[k].step == step)
    ensures forall i :: 0 <= i < k ==> results[i].step != step
  {
    if results == [] || results[0].step == step then 0 else 1 + FirstAt(results[1..], step)
  }

  lemma FirstAtPrefix(results: seq<CheckResult>, s: string)
    requires results != [] && FirstAt(results[..|results| - 1], s) < |results| - 1
    ensures FirstAt(results, s) == FirstAt(results[..|results| - 1], s)
  {
    var before := results[..|results| - 1];
    var k := FirstAt(before, s);
    assert forall i :: 0 <= i < |before| ==> results[i] == before[i];
    assert results[k].step == s;
  }

  lemma {:induction false} StepAppears(results: seq<CheckResult>, s: string)
    requires s in Steps(results)
    ensures FirstAt(results, s) < |results|
  {
    var before := results[..|results| - 1];
    if s in Steps(before) {
      StepAppears(before, s);
      FirstAtPrefix(results, s);
    } else {
      assert results[|results| - 1].step == s;
    }
  }

  /** A step not seen before first appears at the end. */
  lemma AppearsLast(results: seq<CheckResult>)
    requires results != [] && results[|results| - 1].step !in Steps(results[..|results| - 1])
    ensures FirstAt(results, results[|results| - 1].step) == |results| - 1
  {
    var before := results[..|results| - 1];
    StepsAreDistinct(before);
    forall i | 0 <= i < |before|
      ensures results[i].step != results[|results| - 1].step
    {
      assert results[i] == before[i] && before[i] in before;
    }
  }

  /** The steps stand in the order in which they first appear. */
  lemma {:induction false} StepsInOrder(results: seq<CheckResult>, j: nat, k: nat)
    requires j < k < |Steps(results)|
    ensures FirstAt(results, Steps(results)[j]) < FirstAt(results, Steps(results)[k])
    decreases |results|
  {
    var before := results[..|results| - 1];
    StepAppears(before, Steps(before)[j]);
    FirstAtPrefix(results, Steps(before)[j]);
    if k < |Steps(before)| {
      StepsInOrder(before, j, k);
      StepAppears(before, Steps(before)[k]);
      FirstAtPrefix(results, Steps(before)[k]);
    } else {
      AppearsLast(results);
    }
  }

  /** A step that ranks no later first appears no later. */
  lemma RanksAppear(results: seq<CheckResult>, s: string, t: string)
    requires s in Steps(results) && t in Steps(results) && Rank(Steps(results), s) <= Rank(Steps(results), t)
    ensures FirstAt(results, s) <= FirstAt(results, t)
  {
    RankFound(Steps(results), s);
    RankFound(Steps(results), t);
    if Rank(Steps(results), s) < Rank(Steps(results), t) {
      StepsInOrder(results, Rank(Steps(results), s), Rank(Steps(results), t));
    }
  }

  lemma {:induction false} FilterKeepsStep(results: seq<CheckResult>, t: string)
    ensures forall r <- Filter(results, InStep(t)) :: r.step == t
  {
    if results != [] {
      FilterKeepsStep(results[..|results| - 1], t);
    }
  }

  /** Printing the first k sections puts out results of the first k steps, in the order of the steps. */
  lemma {:induction false} SectionsAreRanked(results: seq<CheckResult>, steps: seq<string>, k: nat)
    requires Distinct(steps) && k <= |steps|
    ensures var out := Items(Sections(results, steps[..k]));
            && (forall r <- out :: Rank(steps, r.step) < k)
            && forall i, j :: 0 <= i < j < |out| ==> Rank(steps, out[i].step) <= Rank(steps, out[j].step)
  {
    if k > 0 {
      SectionsAreRanked(results, steps, k - 1);
      assert steps[..k][..k - 1] == steps[..k - 1];
      ItemsOfSections(results, steps[..k]);
      FilterKeepsStep(results, steps[k - 1]);
      RankIsIndex(steps, k - 1);
    }
  }

  lemma SectionsComplete(results: seq<CheckResult>)
    ensures var out := Items(Sections(results, Steps(results)));
            && multiset(out) == multiset(results)
            && forall t :: Filter(out, InStep(t)) == Filter(results, InStep(t))
  {
    var steps := Steps(results);
    var out := Items(Sections(results, steps));
    StepsAreDistinct(results);
    forall t
      ensures Filter(out, InStep(t)) == Filter(results, InStep(t))
    {
      OrderWithinStep(results, steps, t);
      if t !in steps {
        FilterNone(results, t);
      }
    }
    forall x
      ensures multiset(out)[x] == multiset(results)[x]
    {
      FilterCounts(out, x);
      FilterCounts(results, x);
    }
  }

  lemma SectionsInOrder(results: seq<CheckResult>)
    ensures var out := Items(Sections(results, Steps(results)));
            forall i, j :: 0 <= i < j < |out| ==> FirstAt(results, out[i].step) <= FirstAt(results, out[j].step)
  {
    var steps := Steps(results);
    var out := Items(Sections(results, steps));
    SectionsComplete(results);
    StepsAreDistinct(results);
    assert steps[..|steps|] == steps;
    SectionsAreRanked(results, steps, |steps|);
    forall i, j | 0 <= i < j < |out|
      ensures FirstAt(results, out[i].step) <= FirstAt(results, out[j].step)
    {
      assert out[i] in multiset(out) && out[j] in multiset(out);
      RanksAppear(results, out[i].step, out[j].step);
    }
  }

  /**
  The printed report is faithful: every result appears exactly as often as it was recorded; within
  a step the recorded order is kept; and the steps come one after the other, in the order in which
  they first appeared, each in one section.
  */
  lemma PrintedFaithfully(results: seq<CheckResult>)
    ensures var (lines, out) := (Printed(results), Items(Printed(results)));
            && multiset(out) == multiset(results)
            && (forall t :: Filter(out, InStep(t)) == Filter(results, InStep(t)))
            && (forall i, j :: 0 <= i < j < |out| ==> FirstAt(results, out[i].step) <= FirstAt(results, out[j].step))
            && Headings(lines) == Labels(Steps(results))
  {
    var sections := Sections(results, Steps(results));
    SectionsComplete(results);
    SectionsInOrder(results);
    HeadingsOfSections(results, Steps(results));
    FrameHasNoItems(sections, Printed(results)[|sections| + 1]);
  }

  /**
  And it is laid out as it should be: every item stands under the label of its step, in the color of
  its status; what stands between two items is what explains the first of them; blank lines separate
  the sections; the title comes first, and the last line counts the results by status.
  */
  lemma PrintedLayout(results: seq<CheckResult>)
    ensures var lines := Printed(results);
            && UnderOwnHeader(lines) && WellExplained(lines)
            && |lines| >= 2 && lines[0] == Title(Cyan) && Spaced(lines[1..|lines| - 1]) && lines[|lines| - 1].Totals?
            && lines[|lines| - 1].passed == Tally(results, PASS) && lines[|lines| - 1].warning == Tally(results, WARN)
            && lines[|lines| - 1].failed == Tally(results, FAIL) && lines[|lines| - 1].skipped == Tally(results, SKIP)
  {
    var sections := Sections(results, Steps(results));
    var totals := Printed(results)[|sections| + 1];
    SectionsExplained(results, Steps(results));
    SectionsUnderOwnHeader(results, Steps(results));
    SectionsSpaced(results, Steps(results));
    assert Printed(results)[1..|sections| + 1] == sections;
    UnderOwnHeaderConcat([Title(Cyan)], sections);
    UnderOwnHeaderConcat([Title(Cyan)] + sections, [totals]);
    WellExplainedConcat([Title(Cyan)], sections);
    WellExplainedConcat([Title(Cyan)] + sections, [totals]);
  }
}
