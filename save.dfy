/**
 * `ClicodGenerator._save_structured_code`: the files the program writes for a
 * decoded reply, as an ordered plan of writes relative to the configured save
 * location. The primary script gets a provenance header; each additional file
 * is written afterwards, in list order, with its content unchanged.
 */
module Save {
  import opened Text
  import opened Wrappers
  import opened ResponseModel

  /** One `open(path, 'w')` followed by its writes: the file name under the save location and its full content. */
  datatype FileWrite = FileWrite(filename: string, content: string)

  const PerlSuffix: string := ".pl"
  const AdditionalDefaultName: string := "additional.pl"

  // The fixed pieces of the primary file's header.
  const Newline: string := "\n"
  const HashLine: string := "#\n"
  const CommentMark: string := "# "
  const ShebangLine: string := "#!/usr/bin/env perl\n"
  const GeneratorLine: string := "# Generated by clicod - CLI Code Generator\n"
  const ModelMark: string := "# Model: "
  const HomeLine: string := "# https://github.com/happybear-21/clicod\n"
  const DescriptionMark: string := "# Description: "
  const CpanHeading: string := "# Required CPAN modules:\n"
  const CpanInstallMark: string := "# cpan install "
  const UsageHeading: string := "# Usage examples:\n"

  // ---------------------------------------------------------------------------
  // File name

  /** `if not filename: filename = Prompt.ask(...)`: the given name, or the user's answer when none is given. */
  function ResolveFilename(filename: Option<string>, answer: string): (r: string)
    ensures filename.Some? && filename.value != "" ==> r == filename.value
    ensures filename.None? || filename.value == "" ==> r == answer
  {
    if filename.None? || filename.value == "" then answer else filename.value
  }

  /** `if not filename.endswith('.pl'): filename += '.pl'`. */
  function NormalizeFilename(name: string): (r: string)
    ensures EndsWith(r, PerlSuffix)
    ensures EndsWith(name, PerlSuffix) ==> r == name
    ensures !EndsWith(name, PerlSuffix) ==> r == name + PerlSuffix
  {
    if EndsWith(name, PerlSuffix) then name else name + PerlSuffix
  }

  /** Normalising twice is normalising once. */
  lemma NormalizeIdempotent(name: string)
    ensures NormalizeFilename(NormalizeFilename(name)) == NormalizeFilename(name)
  {
  }

  // ---------------------------------------------------------------------------
  // Primary file content

  /** `"# " + "=" * 50` followed by a line break. */
  function RuleLine(): string {
    CommentMark + Repeat('=', 50) + Newline
  }

  /** The fixed provenance lines, naming the model in use. */
  function Header(modelName: string): string {
    ShebangLine + GeneratorLine + ModelMark + modelName + Newline + HomeLine + RuleLine()
  }

  function DescriptionLine(description: string): string {
    if description != "" then DescriptionMark + description + Newline else ""
  }

  /** The header line naming how to install one CPAN entry. */
  function InstallLine(m: CpanModule): string {
    match m
    case CpanInfo(_, installCommand, _) => CommentMark + installCommand + Newline
    case CpanName(text) => CpanInstallMark + text + Newline
  }

  function UsageLine(example: string): string {
    CommentMark + example + Newline
  }

  function InstallBlock(modules: seq<CpanModule>): string {
    if modules != [] then HashLine + CpanHeading + ConcatMap(modules, |modules|, InstallLine) else ""
  }

  function UsageBlock(examples: seq<string>): string {
    if examples != [] then HashLine + UsageHeading + ConcatMap(examples, |examples|, UsageLine) else ""
  }

  function Footer(): string {
    HashLine + RuleLine() + Newline
  }

  /** The primary file: the provenance header, the optional description, the optional blocks, the footer, the script. */
  function PrimaryContent(r: Response, modelName: string): string {
    Header(modelName) + DescriptionLine(r.documentation.description)
    + InstallBlock(r.dependencies.cpanModules) + UsageBlock(r.documentation.usageExamples)
    + Footer() + r.perlCode.mainScript
  }

  /** What follows the description line: the optional blocks, the footer and the script. */
  function AfterDescription(r: Response): string {
    InstallBlock(r.dependencies.cpanModules) + UsageBlock(r.documentation.usageExamples) + Footer() + r.perlCode.mainScript
  }

  function AdditionalWrite(f: AdditionalFile): FileWrite {
    FileWrite(f.filename.GetOr(AdditionalDefaultName), f.content)
  }

  /** The writes in the order the program performs them: the primary file, then each additional file. */
  function SavePlan(r: Response, filename: Option<string>, answer: string, modelName: string): (plan: seq<FileWrite>)
    ensures |plan| == 1 + |r.perlCode.additionalFiles|
    ensures plan[0] == FileWrite(NormalizeFilename(ResolveFilename(filename, answer)), PrimaryContent(r, modelName))
    ensures forall i :: 0 <= i < |r.perlCode.additionalFiles| ==>
      plan[i + 1] == AdditionalWrite(r.perlCode.additionalFiles[i])
  {
    [FileWrite(NormalizeFilename(ResolveFilename(filename, answer)), PrimaryContent(r, modelName))]
    + AdditionalWrites(r.perlCode.additionalFiles)
  }

  /** The additional files' writes, in list order. */
  function AdditionalWrites(files: seq<AdditionalFile>): (ws: seq<FileWrite>)
    ensures |ws| == |files|
    ensures forall i :: 0 <= i < |files| ==> ws[i] == AdditionalWrite(files[i])
  {
    seq(|files|, i requires 0 <= i < |files| => AdditionalWrite(files[i]))
  }

  // ---------------------------------------------------------------------------
  // The writes as the program performs them

  /** The `for module in cpan_modules` loop of `_save_structured_code`: one write per entry, in order. */
  method WriteInstallLines(content: string, modules: seq<CpanModule>) returns (out: string)
    ensures out == content + ConcatMap(modules, |modules|, InstallLine)
  {
    out := content;
    for i := 0 to |modules|
      invariant out == content + ConcatMap(modules, i, InstallLine)
    {
      AppendAssoc(content, ConcatMap(modules, i, InstallLine), InstallLine(modules[i]));
      match modules[i] {
        case CpanInfo(_, installCommand, _) =>
          out := out + (CommentMark + installCommand + Newline);
        case CpanName(text) =>
          out := out + (CpanInstallMark + text + Newline);
      }
    }
  }

  /** The `for example in usage_examples` loop of `_save_structured_code`. */
  method WriteUsageLines(content: string, examples: seq<string>) returns (out: string)
    ensures out == content + ConcatMap(examples, |examples|, UsageLine)
  {
    out := content;
    for i := 0 to |examples|
      invariant out == content + ConcatMap(examples, i, UsageLine)
    {
      AppendAssoc(content, ConcatMap(examples, i, UsageLine), UsageLine(examples[i]));
      out := out + (CommentMark + examples[i] + Newline);
    }
  }

  /** The primary file as `_save_structured_code` writes it, one `f.write` after another. */
  method WritePrimary(r: Response, modelName: string) returns (content: string)
    ensures content == PrimaryContent(r, modelName)
  {
    content := Header(modelName);
    var description := r.documentation.description;
    if description != "" {
      content := content + (DescriptionMark + description + Newline);
    }
    ghost var head := content;
    assert head == Header(modelName) + DescriptionLine(description);
    var modules := r.dependencies.cpanModules;
    if modules != [] {
      content := content + (HashLine + CpanHeading);
      content := WriteInstallLines(content, modules);
      AppendAssoc(head, HashLine + CpanHeading, ConcatMap(modules, |modules|, InstallLine));
    }
    ghost var withCpan := content;
    assert withCpan == head + InstallBlock(modules);
    var examples := r.documentation.usageExamples;
    if examples != [] {
      content := content + (HashLine + UsageHeading);
      content := WriteUsageLines(content, examples);
      AppendAssoc(withCpan, HashLine + UsageHeading, ConcatMap(examples, |examples|, UsageLine));
    }
    assert content == withCpan + UsageBlock(examples);
    content := content + Footer();
    content := content + r.perlCode.mainScript;
  }

  /**
   * `_save_structured_code`: the primary file under its normalised name, then
   * each additional file, in the order they are opened.
   */
  method SaveStructuredCode(r: Response, filename: Option<string>, answer: string, modelName: string)
    returns (plan: seq<FileWrite>)
    ensures plan == SavePlan(r, filename, answer, modelName)
  {
    var name := ResolveFilename(filename, answer);
    if !EndsWith(name, PerlSuffix) {
      name := name + PerlSuffix;
    }
    var content := WritePrimary(r, modelName);
    ghost var spec := SavePlan(r, filename, answer, modelName);
    plan := [FileWrite(name, content)];
    var files := r.perlCode.additionalFiles;
    for i := 0 to |files|
      invariant plan == spec[..i + 1]
    {
      assert spec[i + 1] == AdditionalWrite(files[i]);
      plan := plan + [FileWrite(files[i].filename.GetOr(AdditionalDefaultName), files[i].content)];
      TakeSnoc(spec, i + 1);
    }
    assert spec[..|files| + 1] == spec;
  }

  // ---------------------------------------------------------------------------
  // What the plan promises

  /** The primary file starts with the interpreter line. */
  lemma PrimaryStartsWithShebang(r: Response, modelName: string)
    ensures StartsWith(PrimaryContent(r, modelName), ShebangLine)
  {
    PrefixStartsWith(ShebangLine, GeneratorLine);
    var s := ShebangLine + GeneratorLine;
    StartsWithMore(s, ShebangLine, ModelMark);
    s := s + ModelMark;
    StartsWithMore(s, ShebangLine, modelName);
    s := s + modelName;
    StartsWithMore(s, ShebangLine, Newline);
    s := s + Newline;
    StartsWithMore(s, ShebangLine, HomeLine);
    s := s + HomeLine;
    StartsWithMore(s, ShebangLine, RuleLine());
    s := s + RuleLine();
    assert s == Header(modelName);
    StartsWithMore(s, ShebangLine, DescriptionLine(r.documentation.description) + AfterDescription(r));
    PrimaryAfterHeader(r, modelName);
  }

  /** The primary file is the header, the optional description line and what follows it. */
  lemma PrimaryAfterHeader(r: Response, modelName: string)
    ensures PrimaryContent(r, modelName) == Header(modelName) + (DescriptionLine(r.documentation.description) + AfterDescription(r))
  {
    Regroup(Header(modelName), DescriptionLine(r.documentation.description),
      InstallBlock(r.dependencies.cpanModules), UsageBlock(r.documentation.usageExamples), Footer(), r.perlCode.mainScript);
  }

  lemma Regroup4(a: string, b: string, c: string, d: string)
    ensures a + (b + c + d) == a + b + c + d
  {
  }

  lemma Regroup(a: string, b: string, c: string, d: string, e: string, f: string)
    ensures a + b + c + d + e + f == a + (b + (c + d + e + f))
  {
  }

  /** The primary file ends with the footer followed by the script as given. */
  lemma PrimaryEndsWithScript(r: Response, modelName: string)
    ensures EndsWith(PrimaryContent(r, modelName), Footer() + r.perlCode.mainScript)
  {
    var front := Header(modelName) + DescriptionLine(r.documentation.description)
      + InstallBlock(r.dependencies.cpanModules) + UsageBlock(r.documentation.usageExamples);
    AppendAssoc(front, Footer(), r.perlCode.mainScript);
    SuffixEndsWith(front, Footer() + r.perlCode.mainScript);
  }

  /** Whatever blocks are present, the part after the description opens with a bare `#` line. */
  lemma AfterDescriptionOpensWithHash(r: Response)
    ensures StartsWith(AfterDescription(r), HashLine)
  {
    var cpan, usage := r.dependencies.cpanModules, r.documentation.usageExamples;
    var ib, ub, f := InstallBlock(cpan), UsageBlock(usage), Footer();
    var script := r.perlCode.mainScript;
    if cpan != [] {
      PrefixStartsWith(HashLine, CpanHeading);
      StartsWithMore(HashLine + CpanHeading, HashLine, ConcatMap(cpan, |cpan|, InstallLine));
      StartsWithMore(ib, HashLine, ub);
      StartsWithMore(ib + ub, HashLine, f);
    } else if usage != [] {
      PrefixStartsWith(HashLine, UsageHeading);
      StartsWithMore(HashLine + UsageHeading, HashLine, ConcatMap(usage, |usage|, UsageLine));
      assert ib + ub == ub;
      StartsWithMore(ib + ub, HashLine, f);
    } else {
      PrefixStartsWith(HashLine, RuleLine());
      StartsWithMore(HashLine + RuleLine(), HashLine, Newline);
      assert ib + ub + f == f;
    }
    StartsWithMore(ib + ub + f, HashLine, script);
  }

  /**
   * After the header comes the description line exactly when the description
   * is non-empty; otherwise a bare `#` line follows the header.
   */
  lemma DescriptionPresence(r: Response, modelName: string)
    ensures var d := r.documentation.description;
      && (d != "" ==> StartsWith(PrimaryContent(r, modelName), Header(modelName) + (DescriptionMark + d + Newline)))
      && (d == "" ==> StartsWith(PrimaryContent(r, modelName), Header(modelName) + HashLine))
  {
    var h := Header(modelName);
    var d := r.documentation.description;
    var tail := AfterDescription(r);
    PrimaryAfterHeader(r, modelName);
    if d != "" {
      AppendAssoc(h, DescriptionLine(d), tail);
      PrefixStartsWith(h + DescriptionLine(d), tail);
    } else {
      assert DescriptionLine(d) + tail == tail;
      AfterDescriptionOpensWithHash(r);
      StartsWithExtend(h, tail, HashLine);
    }
  }

  /**
   * The install lines follow the CPAN list: entry `i`'s line comes after the
   * lines of the entries before it and before the lines of those after it.
   */
  lemma InstallLinesInListOrder(modules: seq<CpanModule>, i: nat)
    requires i < |modules|
    ensures InstallBlock(modules) == HashLine + CpanHeading + ConcatMap(modules, i, InstallLine)
      + InstallLine(modules[i]) + ConcatMap(modules[i + 1..], |modules| - i - 1, InstallLine)
  {
    ConcatMapSplit(modules, i, InstallLine);
    Regroup4(HashLine + CpanHeading, ConcatMap(modules, i, InstallLine), InstallLine(modules[i]),
      ConcatMap(modules[i + 1..], |modules| - i - 1, InstallLine));
  }

  /** Likewise for the usage examples. */
  lemma UsageLinesInListOrder(examples: seq<string>, i: nat)
    requires i < |examples|
    ensures UsageBlock(examples) == HashLine + UsageHeading + ConcatMap(examples, i, UsageLine)
      + UsageLine(examples[i]) + ConcatMap(examples[i + 1..], |examples| - i - 1, UsageLine)
  {
    ConcatMapSplit(examples, i, UsageLine);
    Regroup4(HashLine + UsageHeading, ConcatMap(examples, i, UsageLine), UsageLine(examples[i]),
      ConcatMap(examples[i + 1..], |examples| - i - 1, UsageLine));
  }

  /** An install line is one line when the entry's text holds no line break. */
  lemma InstallLineIsOneLine(m: CpanModule)
    requires m.CpanInfo? ==> '\n' !in m.installCommand
    requires m.CpanName? ==> '\n' !in m.text
    ensures LineBreaks(InstallLine(m)) == 1
  {
    match m
    case CpanInfo(_, installCommand, _) =>
      OneLine(CommentMark, installCommand);
    case CpanName(text) =>
      OneLine(CpanInstallMark, text);
  }

  lemma OneLine(mark: string, x: string)
    requires '\n' !in mark && '\n' !in x
    ensures LineBreaks(mark + x + Newline) == 1
  {
    assert multiset(mark + x + Newline) == multiset(mark) + multiset(x) + multiset(Newline);
  }

  /** The CPAN block holds one line per entry after its fixed heading lines. */
  lemma InstallBlockLineCount(modules: seq<CpanModule>)
    requires modules != []
    requires forall i :: 0 <= i < |modules| ==>
      (modules[i].CpanInfo? ==> '\n' !in modules[i].installCommand) && (modules[i].CpanName? ==> '\n' !in modules[i].text)
    ensures LineBreaks(InstallBlock(modules)) == LineBreaks(HashLine + CpanHeading) + |modules|
  {
    forall i | 0 <= i < |modules|
      ensures LineBreaks(InstallLine(modules[i])) == 1
    {
      InstallLineIsOneLine(modules[i]);
    }
    ConcatMapLineBreaks(modules, |modules|, InstallLine);
    var lines := ConcatMap(modules, |modules|, InstallLine);
    LineBreaksAppend(HashLine + CpanHeading, lines);
  }

  // ---------------------------------------------------------------------------
  // What ends up on disk

  /**
   * The files after the writes of `plan`, performed in order. A file is the
   * path `resolve` gives for a written name: `save_location / name` as the file
   * system resolves it, so that distinct names such as "x.pl" and "./x.pl", or
   * an absolute name, can denote one file. A later write to a file replaces an
   * earlier one.
   */
  function Performed(plan: seq<FileWrite>, resolve: string -> string): map<string, string>
  {
    if plan == [] then map[]
    else Performed(plan[..|plan| - 1], resolve)[resolve(plan[|plan| - 1].filename) := plan[|plan| - 1].content]
  }

  /** Every file the plan writes is on disk afterwards, holding its last write. */
  lemma {:induction false} PerformedLastWrite(plan: seq<FileWrite>, resolve: string -> string, i: nat)
    requires i < |plan|
    requires forall j :: i < j < |plan| ==> resolve(plan[j].filename) != resolve(plan[i].filename)
    ensures resolve(plan[i].filename) in Performed(plan, resolve)
    ensures Performed(plan, resolve)[resolve(plan[i].filename)] == plan[i].content
  {
    if i < |plan| - 1 {
      PerformedLastWrite(plan[..|plan| - 1], resolve, i);
    }
  }

  /** When no additional file resolves to the primary file's path, the primary file keeps its header and script. */
  lemma PrimarySurvives(r: Response, filename: Option<string>, answer: string, modelName: string, resolve: string -> string)
    requires forall i :: 0 <= i < |r.perlCode.additionalFiles| ==>
      resolve(AdditionalWrite(r.perlCode.additionalFiles[i]).filename) != resolve(NormalizeFilename(ResolveFilename(filename, answer)))
    ensures var plan := SavePlan(r, filename, answer, modelName);
      var path := resolve(plan[0].filename);
      path in Performed(plan, resolve) && Performed(plan, resolve)[path] == PrimaryContent(r, modelName)
  {
    var plan := SavePlan(r, filename, answer, modelName);
    forall j | 0 < j < |plan|
      ensures resolve(plan[j].filename) != resolve(plan[0].filename)
    {
      assert plan[(j - 1) + 1] == AdditionalWrite(r.perlCode.additionalFiles[j - 1]);
    }
    PerformedLastWrite(plan, resolve, 0);
  }

  /**
   * The last additional file written to a path is what that path holds
   * afterwards, even when the path is the primary file's: then the primary
   * content is replaced.
   */
  lemma LastAdditionalWins(r: Response, filename: Option<string>, answer: string, modelName: string,
                           resolve: string -> string, k: nat)
    requires k < |r.perlCode.additionalFiles|
    requires forall i :: k < i < |r.perlCode.additionalFiles| ==>
      resolve(AdditionalWrite(r.perlCode.additionalFiles[i]).filename) != resolve(AdditionalWrite(r.perlCode.additionalFiles[k]).filename)
    ensures var path := resolve(AdditionalWrite(r.perlCode.additionalFiles[k]).filename);
      var plan := SavePlan(r, filename, answer, modelName);
      path in Performed(plan, resolve) && Performed(plan, resolve)[path] == r.perlCode.additionalFiles[k].content
  {
    var plan := SavePlan(r, filename, answer, modelName);
    forall j | k + 1 < j < |plan|
      ensures resolve(plan[j].filename) != resolve(plan[k + 1].filename)
    {
      assert plan[(j - 1) + 1] == AdditionalWrite(r.perlCode.additionalFiles[j - 1]);
    }
    PerformedLastWrite(plan, resolve, k + 1);
  }

  /**
   * An additional file whose name resolves to the primary file's path, with no
   * later additional file on that path, replaces the primary content.
   */
  lemma AliasReplacesPrimary(r: Response, filename: Option<string>, answer: string, modelName: string,
                             resolve: string -> string, k: nat)
    requires k < |r.perlCode.additionalFiles|
    requires resolve(AdditionalWrite(r.perlCode.additionalFiles[k]).filename) == resolve(NormalizeFilename(ResolveFilename(filename, answer)))
    requires forall i :: k < i < |r.perlCode.additionalFiles| ==>
      resolve(AdditionalWrite(r.perlCode.additionalFiles[i]).filename) != resolve(NormalizeFilename(ResolveFilename(filename, answer)))
    ensures var plan := SavePlan(r, filename, answer, modelName);
      var path := resolve(plan[0].filename);
      path in Performed(plan, resolve) && Performed(plan, resolve)[path] == r.perlCode.additionalFiles[k].content
  {
    var plan := SavePlan(r, filename, answer, modelName);
    var path := resolve(AdditionalWrite(r.perlCode.additionalFiles[k]).filename);
    assert resolve(plan[0].filename) == path;
    LastAdditionalWins(r, filename, answer, modelName, resolve, k);
  }
}
