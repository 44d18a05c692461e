/**
 * The decoded model reply, in the shape the system prompt asks the model to
 * use. Every field holds what the program reads with `dict.get(key, default)`:
 * a missing key is its default (an empty string or an empty list). The one
 * key whose absence differs from an empty value is an additional file's
 * `filename` (default `additional.pl`), hence an `Option`.
 */
module ResponseModel {
  import opened Wrappers

  /** An entry of `dependencies.cpan_modules`: an object, or any other value (shown through `str`). */
  datatype CpanModule =
    | CpanInfo(name: string, installCommand: string, purpose: string)
    | CpanName(text: string)

  /** An entry of `perl_code.additional_files`. */
  datatype AdditionalFile = AdditionalFile(filename: Option<string>, content: string, description: string)

  /** An entry of `code_structure.functions`: an object, or any other value (skipped when shown). */
  datatype FunctionEntry =
    | FunctionInfo(name: string, description: string, parameters: seq<string>)
    | NotAnObject

  datatype Dependencies = Dependencies(
    coreModules: seq<string>,
    cpanModules: seq<CpanModule>,
    systemRequirements: seq<string>)

  datatype Documentation = Documentation(description: string, usageExamples: seq<string>)

  datatype CodeStructure = CodeStructure(functions: seq<FunctionEntry>, mainSections: seq<string>)

  datatype Testing = Testing(testCases: seq<string>, sampleInput: string, expectedOutput: string)

  datatype PerlCode = PerlCode(mainScript: string, additionalFiles: seq<AdditionalFile>)

  datatype Response = Response(
    perlCode: PerlCode,
    dependencies: Dependencies,
    documentation: Documentation,
    codeStructure: CodeStructure,
    bestPractices: seq<string>,
    testing: Testing)
}
