/**
 * The rows and texts that `_render_structured_output` and its helpers derive
 * from a decoded reply before handing them to the terminal: the dependency
 * table, the function table, the bullet panels and the testing panel. `None`
 * means the table or panel is not shown.
 */
module Render {
  import opened Text
  import opened Wrappers
  import opened ResponseModel

  // ---------------------------------------------------------------------------
  // Dependency table (`_render_dependencies`)

  /** The "Type" column of the dependency table. */
  datatype DependencyKind = Core | Cpan | System

  /** The text the table shows for a kind. */
  function KindLabel(k: DependencyKind): string {
    match k
    case Core => "Core"
    case Cpan => "CPAN"
    case System => "System"
  }

  datatype DependencyRow = DependencyRow(kind: DependencyKind, name: string, installCommand: string, purpose: string)

  function CoreRow(module_: string): DependencyRow {
    DependencyRow(Core, module_, "Built-in", "Perl core module")
  }

  /** An object entry shows its own fields; any other entry is its text with a synthesised install command. */
  function CpanRow(m: CpanModule): DependencyRow {
    match m
    case CpanInfo(name, installCommand, purpose) => DependencyRow(Cpan, name, installCommand, purpose)
    case CpanName(text) => DependencyRow(Cpan, text, "cpan install " + text, "")
  }

  function SystemRow(requirement: string): DependencyRow {
    DependencyRow(System, requirement, "See documentation", "System requirement")
  }

  /** The table rows: every core module, then every CPAN module, then every system requirement, each in list order. */
  function DependencyRows(d: Dependencies): (rows: seq<DependencyRow>)
    ensures |rows| == |d.coreModules| + |d.cpanModules| + |d.systemRequirements|
    ensures forall i :: 0 <= i < |d.coreModules| ==> rows[i] == CoreRow(d.coreModules[i])
    ensures forall i :: 0 <= i < |d.cpanModules| ==>
      rows[|d.coreModules| + i] == CpanRow(d.cpanModules[i])
    ensures forall i :: 0 <= i < |d.systemRequirements| ==>
      rows[|d.coreModules| + |d.cpanModules| + i] == SystemRow(d.systemRequirements[i])
  {
    seq(|d.coreModules|, i requires 0 <= i < |d.coreModules| => CoreRow(d.coreModules[i]))
    + seq(|d.cpanModules|, i requires 0 <= i < |d.cpanModules| => CpanRow(d.cpanModules[i]))
    + seq(|d.systemRequirements|, i requires 0 <= i < |d.systemRequirements| => SystemRow(d.systemRequirements[i]))
  }

  /** The dependency table, printed only when it has a row. */
  function DependencyTable(d: Dependencies): (table: Option<seq<DependencyRow>>)
    ensures table.Some? <==> (d.coreModules != [] || d.cpanModules != [] || d.systemRequirements != [])
    ensures table.Some? ==> table.value == DependencyRows(d)
  {
    var rows := DependencyRows(d);
    if rows != [] then Some(rows) else None
  }

  /** Rank of a row kind in the table: Core rows first, then CPAN, then System. */
  function KindRank(kind: DependencyKind): nat {
    match kind
    case Core => 0
    case Cpan => 1
    case System => 2
  }

  /** The rows are grouped by kind, in the order Core, CPAN, System. */
  lemma DependencyRowsGrouped(d: Dependencies, i: nat, j: nat)
    requires i <= j < |DependencyRows(d)|
    ensures KindRank(DependencyRows(d)[i].kind) <= KindRank(DependencyRows(d)[j].kind)
  {
    RowKind(d, i);
    RowKind(d, j);
  }

  /** The kind of row `i` follows from its position alone. */
  lemma RowKind(d: Dependencies, i: nat)
    requires i < |DependencyRows(d)|
    ensures var c, p := |d.coreModules|, |d.cpanModules|;
      DependencyRows(d)[i].kind == if i < c then Core else if i < c + p then Cpan else System
  {
    var rows := DependencyRows(d);
    var c, p := |d.coreModules|, |d.cpanModules|;
    if i < c {
      assert rows[i] == CoreRow(d.coreModules[i]);
    } else if i < c + p {
      assert rows[c + (i - c)] == CpanRow(d.cpanModules[i - c]);
    } else {
      assert rows[c + p + (i - c - p)] == SystemRow(d.systemRequirements[i - c - p]);
    }
  }

  /** A CPAN entry that is not an object, shown as `x`, yields the row ("CPAN", x, "cpan install x", ""). */
  lemma PlainCpanEntryRow(d: Dependencies, i: nat, x: string)
    requires i < |d.cpanModules| && d.cpanModules[i] == CpanName(x)
    ensures DependencyRows(d)[|d.coreModules| + i] == DependencyRow(Cpan, x, "cpan install " + x, "")
  {
  }

  // ---------------------------------------------------------------------------
  // Function table (`_render_code_structure`)

  datatype FunctionRow = FunctionRow(name: string, description: string, parameters: string)

  function InfoRow(f: FunctionEntry): FunctionRow
    requires f.FunctionInfo?
  {
    FunctionRow(f.name, f.description, Join(", ", f.parameters))
  }

  /** One row per object entry, in list order; other entries are skipped. */
  function FunctionRows(functions: seq<FunctionEntry>): (rows: seq<FunctionRow>)
    ensures |rows| <= |functions|
    ensures forall i :: 0 <= i < |functions| && functions[i].FunctionInfo? ==> InfoRow(functions[i]) in rows
    ensures forall r :: r in rows ==>
      exists i :: 0 <= i < |functions| && functions[i].FunctionInfo? && r == InfoRow(functions[i])
  {
    if functions == [] then []
    else
      var rest := FunctionRows(functions[1..]);
      assert forall i :: 1 <= i < |functions| ==> functions[i] == functions[1..][i - 1];
      if functions[0].FunctionInfo? then [InfoRow(functions[0])] + rest else rest
  }

  /** Rows of two runs of entries are the rows of the first run followed by those of the second. */
  lemma {:induction false} FunctionRowsAppend(a: seq<FunctionEntry>, b: seq<FunctionEntry>)
    ensures FunctionRows(a + b) == FunctionRows(a) + FunctionRows(b)
  {
    if a != [] {
      assert (a + b)[0] == a[0];
      assert (a + b)[1..] == a[1..] + b;
      FunctionRowsAppend(a[1..], b);
    } else {
      assert a + b == b;
    }
  }

  /** When every entry is an object, the rows are exactly the entries' rows, one for one. */
  lemma {:induction false} FunctionRowsAllObjects(functions: seq<FunctionEntry>)
    requires forall i :: 0 <= i < |functions| ==> functions[i].FunctionInfo?
    ensures |FunctionRows(functions)| == |functions|
    ensures forall i :: 0 <= i < |functions| ==> FunctionRows(functions)[i] == InfoRow(functions[i])
  {
    if functions != [] {
      FunctionRowsAllObjects(functions[1..]);
    }
  }

  /** The function table is printed whenever the list is non-empty, even when no entry is an object. */
  function FunctionTable(cs: CodeStructure): (table: Option<seq<FunctionRow>>)
    ensures table.Some? <==> cs.functions != []
    ensures table.Some? ==> table.value == FunctionRows(cs.functions)
  {
    if cs.functions != [] then Some(FunctionRows(cs.functions)) else None
  }

  // ---------------------------------------------------------------------------
  // Bullet panels: code structure, usage examples, best practices

  const Bullet: string := "\U{2022} "
  const Tick: string := "\U{2713} "

  function Prefixed(marker: string, items: seq<string>): (r: seq<string>)
    ensures |r| == |items| && forall i :: 0 <= i < |items| ==> r[i] == marker + items[i]
  {
    seq(|items|, i requires 0 <= i < |items| => marker + items[i])
  }

  /** `"\n".join(f"{marker}{item}" for item in items)`. */
  function BulletText(marker: string, items: seq<string>): string {
    Join("\n", Prefixed(marker, items))
  }

  /** Adding an item adds one line at the end of the panel text. */
  lemma BulletTextSnoc(marker: string, items: seq<string>, x: string)
    ensures BulletText(marker, items + [x]) ==
      if items == [] then marker + x else BulletText(marker, items) + "\n" + marker + x
  {
    assert Prefixed(marker, items + [x]) == Prefixed(marker, items) + [marker + x];
    JoinSnoc("\n", Prefixed(marker, items), marker + x);
  }

  /** A panel listing `items`, shown only when there is an item. */
  function BulletPanel(marker: string, items: seq<string>): (panel: Option<string>)
    ensures panel.Some? <==> items != []
    ensures panel.Some? ==> StartsWith(panel.value, marker + items[0])
  {
    if items == [] then None
    else
      JoinStartsWithFirst("\n", Prefixed(marker, items));
      Some(BulletText(marker, items))
  }

  lemma {:induction false} JoinStartsWithFirst(sep: string, items: seq<string>)
    requires items != []
    ensures StartsWith(Join(sep, items), items[0])
  {
    if |items| > 1 {
      assert Join(sep, items) == items[0] + (sep + Join(sep, items[1..]));
    }
  }

  function SectionsPanel(cs: CodeStructure): Option<string> {
    BulletPanel(Bullet, cs.mainSections)
  }

  function UsageExamplesPanel(doc: Documentation): Option<string> {
    BulletPanel(Bullet, doc.usageExamples)
  }

  function BestPracticesPanel(r: Response): Option<string> {
    BulletPanel(Tick, r.bestPractices)
  }

  // ---------------------------------------------------------------------------
  // Testing panel (`_render_testing_info`)

  /** The panel text before it is trimmed. */
  function TestingContent(t: Testing): string {
    (if t.testCases != [] then "Test Cases:\n" + BulletText(Bullet, t.testCases) + "\n\n" else "")
    + (if t.sampleInput != "" then "Sample Input:\n" + t.sampleInput + "\n\n" else "")
    + (if t.expectedOutput != "" then "Expected Output:\n" + t.expectedOutput else "")
  }

  function HasTestingInfo(t: Testing): bool {
    t.testCases != [] || t.sampleInput != "" || t.expectedOutput != ""
  }

  /** The testing panel: shown when any of its three parts is present, its text trimmed. */
  function TestingPanel(t: Testing): (panel: Option<string>)
    ensures panel.Some? <==> HasTestingInfo(t)
    ensures panel.Some? ==> IsStripped(panel.value)
  {
    if HasTestingInfo(t) then Some(Strip(TestingContent(t))) else None
  }

  /** The heading of the first part present. */
  function FirstHeading(t: Testing): string {
    if t.testCases != [] then "Test Cases:"
    else if t.sampleInput != "" then "Sample Input:"
    else "Expected Output:"
  }

  /** The panel opens with the heading of the first part present. */
  lemma TestingPanelHeading(t: Testing)
    requires HasTestingInfo(t)
    ensures StartsWith(TestingPanel(t).value, FirstHeading(t))
  {
    var h := FirstHeading(t);
    var c := TestingContent(t);
    assert c == h + c[|h|..];
    StripKeepsPrefix(h, c[|h|..]);
  }

  /**
   * When the expected output is present and does not end in white space, trimming
   * changes nothing: the panel is the assembled text, ending with that output.
   */
  lemma TestingPanelUntrimmed(t: Testing)
    requires t.expectedOutput != "" && !IsSpace(t.expectedOutput[|t.expectedOutput| - 1])
    ensures TestingPanel(t) == Some(TestingContent(t))
    ensures EndsWith(TestingContent(t), "Expected Output:\n" + t.expectedOutput)
  {
    var c := TestingContent(t);
    var h := FirstHeading(t);
    assert c == h + c[|h|..];
    assert c[|c| - 1] == t.expectedOutput[|t.expectedOutput| - 1];
    StripStripped(c);
  }
}
