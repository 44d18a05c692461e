# clicod in Dafny

clicod is a command-line tool that asks a Gemini model for a Perl script. The
reply is expected to be one JSON object that holds the script, its
dependencies, documentation, code structure, best practices and testing notes.
clicod does four things with that reply:

- It unwraps the JSON from an optional Markdown fence and decodes it.
- It renders the decoded sections as tables and panels.
- It saves the script. The file gets a generated header that lists the
  module's description, CPAN install lines and usage examples. Any additional
  files go beside it.
- It runs the `generate` command once or as an interactive loop. The loop
  understands `exit`, `config`, `save on/off` and `stream on/off`. Settings
  live in a small configuration dictionary.

This project models that core in `main.py` and proves its properties:

| file | models |
|---|---|
| `text.dfy` | the Python string operations the core relies on: `strip`, `find`, `rfind`, `startswith`, `endswith`, `lower` and `join`. Concatenating a string computed for each item of a list, item by item, is written `ConcatMap`. |
| `wrappers.dfy` | `Option`. |
| `unwrap.dfy` | `_parse_json_response`, as written and corrected. `json.loads` is a decoding function passed in by the caller. |
| `response.dfy` | the decoded response, one datatype per JSON section. |
| `render.dfy` | the rows and texts of `_render_structured_output`. |
| `save.dfy` | `_save_structured_code`: the file name, the exact primary file content, and the ordered list of file writes. The writing itself is imperative (methods with loops); its meaning is given by functions. |
| `config.dfy` | `ClicodConfig` as a class over its settings map: defaults and loading, `get`, `set` and `get_api_key`. It also holds the key masking of `_show_current_config`. |
| `session.dfy` | stream accumulation, `stream_generate`, `generate_code`, the interactive loop (a class whose `Run` is proved against a replay function) and the one-shot command. |

The commands are modelled as `main.py` is written: the reply is unwrapped
with the program's own cut, and the interactive loop passes `--save` as given.
Where the code looks wrong, a corrected variant sits beside the as-written one
(see "## Findings"), and the model table says which of the two a member is about.

## Model

| member | source | states |
|---|---|---|
| Text.Strip | main.py:260 | The result has no leading or trailing whitespace, using Python's `isspace` set. It is the input with its leading whitespace run removed and cut at a trailing whitespace run. |
| Text.IsSpace | main.py:260 | The characters `str.isspace` accepts, which `strip` removes. |
| Text.StripIdempotent | main.py:260 | Stripping twice gives what stripping once gives. |
| Text.StripPadding | main.py:260 | Stripping white space from around a stripped string gives that string back. |
| Text.StripSpaceSuffix | main.py:260 | Trailing white space does not change the result of `strip`. |
| Text.Find | main.py:264-265 | `find` returns -1 exactly when the substring occurs at no index at or after `start`. Otherwise it returns the first such index. |
| Text.RFind | main.py:270 | `rfind` returns -1 exactly when there is no occurrence. Otherwise it returns the last occurrence. |
| Text.Contains | main.py:262 | `sub in s`: `find` gives an index. `Text.ContainsIff` ties it to an occurrence. |
| Text.StartsWith | main.py:618 | `s.startswith(prefix)`: the first characters of `s` are `prefix`. |
| Text.EndsWith | main.py:462 | `s.endswith(suffix)`: the last characters of `s` are `suffix`. |
| Text.Head | main.py:730 | `s[:n]`: the first `n` characters, or all of `s` when it is shorter. It is a prefix of `s`. |
| Text.Tail | main.py:730 | `s[-n:]` for `n > 0`: the last `n` characters, or all of `s` when it is shorter. It is a suffix of `s`. |
| Text.Repeat | main.py:479 | `c * n`: `n` copies of one character, as in the 50-character rule. |
| Text.Lower | main.py:610 | Lowering keeps the length and lowers each ASCII letter; other characters are kept (see "## Left out"). |
| Text.Join | main.py:422 | `sep.join(items)`: the separator goes only between items. `Render.BulletTextSnoc` and `Render.BulletPanel` state its shape. |
| Unwrap.CandidateAsWritten | main.py:256-272 | The text handed to `json.loads`, as written. It is always stripped and always a substring of the stripped reply. |
| Unwrap.Candidate | main.py:256-272 | The same extraction, except that the `json` branch requires the "```json" opener. It has the same two guarantees. |
| Unwrap.ParseJsonResponse | main.py:256-284 | `_parse_json_response` as written: it decodes `CandidateAsWritten`, so every case lemma about that cut applies to it. The commands in `session.dfy` use it. |
| Unwrap.ParseJsonResponseCorrected | main.py:256-284 | The same parse over the corrected cut `Candidate`. |
| Unwrap.JsonFenceCut | main.py:263-267 | With "```json" at `i` and the next fence at `j`, both versions hand over the stripped text between them. |
| Unwrap.JsonFenceUnclosed | main.py:263-267 | With "```json" present but no later fence, both versions leave the stripped reply unchanged. |
| Unwrap.NoFenceKept | main.py:262-272 | A reply without any fence is only stripped. |
| Unwrap.PlainFenceCut | main.py:268-272 | As written, without "json" anywhere, the text between the first and the last fence is taken, stripped. When the last fence does not start after the end of the first, the stripped reply is kept. |
| Unwrap.PlainFenceCutCorrected | main.py:268-272 | Corrected, the same cut happens whenever "```json" is absent. |
| Unwrap.QuirkCut | main.py:263-266 | Without "```json" but with a fence and the word json, the as-written version starts at index 6. |
| Unwrap.QuirkUnclosed | main.py:263-267 | Without "```json" but with a fence and the word json, and no fence at or after index 6, the as-written version keeps the stripped reply. |
| Unwrap.UnwrapJsonFence | main.py:263-267 | A body wrapped in a "```json" fence is recovered exactly by both versions. |
| Unwrap.UnwrapPlainFence | main.py:268-272 | A body wrapped in a plain fence is recovered exactly by the corrected version. |
| Unwrap.UnwrapPlainFenceAsWritten | main.py:262-272 | The as-written version recovers a plain-fenced body when the body does not mention json. `Unwrap.QuirkPlainFence` gives the converse. |
| Unwrap.ParseFencedJson | main.py:256-284 | As written, decoding a json-tagged fenced body gives what decoding the bare body gives, and so does a plain-fenced body that does not mention json. With the corrected cut this holds for both fences always. |
| Unwrap.QuirkPlainFence | main.py:262-266 | A plain-fenced body that mentions json reaches the decoder as `Strip(body[2..])`: without its first two characters and any white space after them, so shorter than the body. The corrected version keeps the body whole. |
| Render.DependencyRows | main.py:375-395 | One row per core module, then per CPAN module, then per system requirement, in list order. Each row is built from its own entry. |
| Render.DependencyTable | main.py:375-398 | The table is shown exactly when at least one dependency list is non-empty. |
| Render.DependencyRowsGrouped | main.py:375-395 | Rows are grouped by kind: a row never comes after a row of a later kind. |
| Render.RowKind | main.py:375-395 | A row's kind follows from its position: Core rows first, then CPAN, then System. |
| Render.CoreRow | main.py:377 | A core module's row: the module, "Built-in" and "Perl core module". |
| Render.CpanRow | main.py:383-390 | A CPAN entry's row: for a dictionary its name, install command and purpose; for a bare name that name, "cpan install " + name and an empty purpose. |
| Render.SystemRow | main.py:395 | A system requirement's row: the requirement, "See documentation" and "System requirement". |
| Render.KindLabel | main.py:377-395 | The kind column shows "Core", "CPAN" or "System". |
| Render.PlainCpanEntryRow | main.py:389-390 | A CPAN entry given as a bare name gives a CPAN row with that name, install command "cpan install " + name, and an empty purpose. |
| Render.FunctionRows | main.py:409-416 | Every dictionary entry of the functions list gives a row, and every row comes from one. Other entries are skipped, so there are never more rows than entries. |
| Render.InfoRow | main.py:411-416 | A function's row: its name, its description and its parameters joined with ", ". |
| Render.FunctionRowsAppend | main.py:409-416 | Rendering a concatenation concatenates the rows. |
| Render.FunctionRowsAllObjects | main.py:409-416 | When every entry is a dictionary, there is exactly one row per entry. |
| Render.FunctionTable | main.py:402-418 | The function table is shown exactly when the functions list is non-empty. |
| Render.BulletTextSnoc | main.py:422 | Adding an item adds a newline and its marked line at the end of the text. |
| Render.BulletText | main.py:422 | The marked items joined by newlines; `Render.BulletTextSnoc` gives its shape item by item. |
| Render.BulletPanel | main.py:420-427 | A bullet panel, also used for usage examples (342-349) and best practices (357-364), is shown exactly when its list is non-empty. Its text begins with the marker and the first item. |
| Render.SectionsPanel | main.py:420-427 | The code-structure panel: the main sections as bullets. |
| Render.UsageExamplesPanel | main.py:342-349 | The usage-examples panel: the examples as bullets. |
| Render.BestPracticesPanel | main.py:357-364 | The best-practices panel: the practices with a check mark. |
| Render.TestingPanel | main.py:429-453 | The testing panel is shown exactly when test cases, sample input or expected output are present. Its text is stripped. |
| Render.TestingContent | main.py:435-450 | The panel text before stripping: each present part with its heading, in the order test cases, sample input, expected output. `Render.TestingPanelHeading` and `Render.TestingPanelUntrimmed` state its shape. |
| Render.HasTestingInfo | main.py:435 | Some part of the testing information is present: test cases, sample input or expected output. |
| Render.TestingPanelHeading | main.py:435-450 | With test cases present, the panel text opens with the test-case heading. |
| Render.TestingPanelUntrimmed | main.py:446-450 | When the expected output ends in a non-space character, the panel text is the joined text unchanged. It ends with the expected-output heading and the expected output. |
| Save.ResolveFilename | main.py:459-460 | A filename that is given and non-empty is used. Otherwise the answer to the prompt is used. |
| Save.NormalizeFilename | main.py:462-463 | Names always end in ".pl". A name already ending in ".pl" is unchanged; any other name gets ".pl" appended. |
| Save.NormalizeIdempotent | main.py:462-463 | Normalising twice gives what normalising once gives. |
| Save.SavePlan | main.py:455-513 | One write per file: first the primary file under its normalised name, then each additional file in list order. |
| Save.AdditionalWrites | main.py:508-513 | One write per additional file, in list order, each under its own name (default `additional.pl`). |
| Save.AdditionalWrite | main.py:510-513 | An additional file is written under its filename, or `additional.pl` when it has none, with its content. |
| Save.PrimaryContent | main.py:474-505 | The primary file's text: header, description line, install block, usage block, footer, script. The Save lemmas below state its shape. |
| Save.Header | main.py:475-479 | The shebang, generator and model lines, the repository line and the rule. |
| Save.DescriptionLine | main.py:482-483 | The description line, or nothing when the description is empty. |
| Save.InstallBlock | main.py:486-493 | Nothing without CPAN modules; otherwise the heading and one install line per module, in order. |
| Save.InstallLine | main.py:489-493 | A dictionary entry gives its install command as a comment; a bare name gives "# cpan install " + name. |
| Save.UsageBlock | main.py:495-500 | Nothing without usage examples; otherwise the heading and one line per example, in order. |
| Save.UsageLine | main.py:500 | A usage example as a comment line. |
| Save.RuleLine | main.py:479 | The rule line: `# ` and fifty `=` characters. |
| Save.Footer | main.py:502 | The closing `#` line, the rule and a blank line. |
| Save.WriteInstallLines | main.py:486-493 | The loop appends exactly the install lines of the modules, in list order. |
| Save.WriteUsageLines | main.py:495-500 | The loop appends exactly the usage lines of the examples, in list order. |
| Save.WritePrimary | main.py:474-505 | The content built step by step equals the header, description, install block, usage block, footer and script. |
| Save.SaveStructuredCode | main.py:455-513 | The writes performed are exactly the save plan. |
| Save.PrimaryStartsWithShebang | main.py:475 | Every primary file starts with the `#!/usr/bin/env perl` line. |
| Save.PrimaryAfterHeader | main.py:474-484 | The generated header is followed directly by the description line and then the rest. |
| Save.PrimaryEndsWithScript | main.py:502-505 | Every primary file ends with the closing rule, a blank line and the script, unchanged. |
| Save.AfterDescriptionOpensWithHash | main.py:486-502 | What follows the description always opens with a bare `#` line, whatever blocks are present. |
| Save.DescriptionPresence | main.py:482-483 | A description line is written exactly when the description is non-empty. |
| Save.InstallLinesInListOrder | main.py:486-493 | The install line of module i follows the heading and the lines of modules 0..i-1. |
| Save.UsageLinesInListOrder | main.py:495-500 | The usage line of example i follows the heading and the lines of examples 0..i-1. |
| Save.InstallLineIsOneLine | main.py:489-493 | An install line is exactly one line when the module text has no newline. |
| Save.InstallBlockLineCount | main.py:486-493 | The install block has one line per module beyond its two heading lines. |
| Save.PerformedLastWrite | main.py:508-513 | A file's final content is that of the last write whose name resolves to its path. |
| Save.Performed | main.py:465-513 | The files after the writes, in order, each keyed by the path its name resolves to under the save location: opening with `'w'` replaces what an earlier write to that path put there. `Save.PerformedLastWrite` states this. |
| Save.PrimarySurvives | main.py:465-513 | When no additional file's name resolves to the primary file's path, the primary file keeps its generated content. |
| Save.LastAdditionalWins | main.py:508-513 | Of several additional files resolving to one path, the path holds the content of the last. |
| Save.AliasReplacesPrimary | main.py:465-513 | An additional file whose name resolves to the primary file's path, for example "./x.pl" beside "x.pl" or an absolute path, replaces the primary content when no later additional file goes there. |
| Config.LoadConfig | main.py:120-139 | Every default key is present. Saved values override the defaults and add their own keys, and no other keys appear. Without a usable file the defaults are kept. |
| Config.Defaults | main.py:122-129 | The six default settings, with the working directory as save location. |
| Config.LoadWithoutFile | main.py:133-139 | A missing or corrupted file gives exactly the defaults. |
| Config.LoadEmptySaved | main.py:133-136 | An empty saved dictionary gives exactly the defaults. |
| Config.LoadSavedConfig | main.py:120-139 | Saving the loaded configuration and loading it again gives the same configuration. |
| Config.ClicodConfig.constructor | main.py:114-118 | The settings are the loaded configuration. |
| Config.ClicodConfig.Get | main.py:151-153 | `get` returns the stored value when the key is present, and the default otherwise. |
| Config.ClicodConfig.Set | main.py:155-157 | `set` changes that one key and leaves every other key unchanged. |
| Config.ClicodConfig.GetApiKey | main.py:159-172 | The key is the stored key, else the environment's, else the entered one. The settings change exactly when an entered key is stored. |
| Config.ResolveApiKey | main.py:159-172 | The key `get_api_key` returns, as a value; `Config.ApiKeyPrecedence` and `Config.ApiKeyUsable` state its order. |
| Config.StoresEnteredKey | main.py:167-169 | The entered key is stored exactly when neither the settings nor the environment gave a truthy key, the user chose to set one and it is non-empty. |
| Config.Truthy | main.py:162-164 | Python truthiness: `None`, `False`, `0` and empty strings and containers are false. |
| Config.ApiKeyPrecedence | main.py:161-163 | A truthy stored key wins over the environment, and a truthy environment key wins over asking. |
| Config.ApiKeyUsable | main.py:159-172 | The result is truthy exactly when one of the three sources gives a truthy key. |
| Config.StoredKeyIsReused | main.py:166-171 | After an entered key is stored, the next call returns it without asking. |
| Config.MaskKey | main.py:729-730 | A falsy key shows "Not set". A string key shows its first 8 and last 4 characters around "...". Other values have no rendering. |
| Config.MaskHidesMiddle | main.py:730 | Two keys of at least 12 characters that agree in their first 8 and last 4 characters get the same mask, so the middle is never shown. |
| Config.ShortKeyShown | main.py:730 | A non-empty key of at most 8 characters appears whole, followed by "..." and its last 4 characters. |
| Session.AccumulateStream | main.py:548-554 | The streaming loop's text is the concatenation of the chunks that have text, in order. |
| Session.ChunkText | main.py:551-554 | A chunk's text, nothing for a chunk without one. |
| Session.Received | main.py:551-554 | The texts of the chunks, in arrival order. |
| Session.ReceivedInOrder | main.py:551-554 | The received text of two chunk runs is the concatenation of their texts. |
| Session.EmptyChunkIgnored | main.py:552-554 | A chunk with no text or empty text changes nothing. |
| Session.StreamGenerate | main.py:536-566 | `stream_generate` returns the response parsed as written when the streamed text decodes, and the raw text otherwise. |
| Session.StreamOutcome | main.py:556-566 | The raw result is the received text. Parsing succeeds exactly when the as-written candidate of that text decodes. |
| Session.GenerateCode | main.py:200-254 | The response is saved exactly when the reply is non-empty, it decodes (with the as-written parse), its script is non-empty and saving was requested. |
| Session.SaveRequested | main.py:203-204 | `save_to_file` when it is given; otherwise the truthiness of `auto_save`. |
| Session.GenerateDefaultsToAutoSave | main.py:203-204 | Without an explicit flag, saving follows the truthiness of `auto_save`. |
| Session.GenerateExplicitFlagWins | main.py:203-204 | An explicit flag decides regardless of `auto_save`. |
| Session.Interpret | main.py:607-638 | The dispatch of a typed line: an exit word, `config`, a `save ` or `stream ` command, or a request. It is `Exit` exactly for the exit words and `ShowConfig` exactly for `config`. |
| Session.SettingWord | main.py:619-627 | A setting word reads as on exactly for on/true/yes and off exactly for off/false/no, in any case. Anything else is ignored. |
| Session.AfterFirstSpace | main.py:619 | `split(' ', 1)[1]`: the text after the first space. `Session.FirstSpaceAfterWord` states it for the two commands. |
| Session.FirstSpaceAfterWord | main.py:618-619 | In an input that starts with "save " or "stream ", the text after the first space is the text after the command word. |
| Session.SaveCommand | main.py:618-628 | Lines starting with "save " in any case are auto-save commands with their setting. |
| Session.StreamCommand | main.py:630-638 | Lines starting with "stream " in any case are stream commands with their setting. |
| Session.GenerateOtherwise | main.py:610-640 | A line that is no exit word, no `config` and no save or stream command is a generation request. |
| Session.StreamTurnSaves | main.py:640-646 | A streamed round saves at most one response. |
| Session.PlainTurnSaves | main.py:647-651 | A round without streaming saves at most twice, once in `generate_code` and once on confirmation. It saves only when the reply decodes, and always the decoded response. |
| Session.GenerateTurnAsWritten | main.py:640-651 | A generating round as written: `--save` is passed as given. |
| Session.GenerateTurn | main.py:640-651 | The corrected round: an absent `--save` is passed as `None`. |
| Session.StepState | main.py:607-651 | One round of the loop, in the as-written or the corrected version: exit, show the settings, change auto-save, change streaming, or generate and append the round's saves. |
| Session.Replay | main.py:607-651 | The rounds of the loop over the typed lines, stopping at the first exit word. |
| Session.GenerateStep | main.py:640-651 | A request appends the round's saves and changes nothing else. |
| Session.AutoSave | main.py:644-649 | `config.get('auto_save')`: the stored value, or `None` when it is absent. |
| Session.StepFrame | main.py:607-651 | A round changes only what its command is about: the exit flag, the auto-save setting, the session's stream flag, or the saved list (only by appending). |
| Session.SaveSetting | main.py:618-628 | "save on" and its synonyms store `auto_save = True`; "save off" and its synonyms store `False`. |
| Session.StreamSetting | main.py:630-638 | "stream on/off" sets the session's stream flag without touching the settings. |
| Session.ExitEndsSession | main.py:610-612 | A first turn whose lowered input is an exit word ends the loop, and nothing else changes. |
| Session.ReplayAppend | main.py:607-651 | Replaying two turn lists in a row is replaying their concatenation. |
| Session.ReplayKeepsSaves | main.py:607-651 | Saved responses are never lost: earlier saves stay a prefix. |
| Session.AutoSaveIgnoredAsWritten | main.py:647-651 | As written, with auto-save on and no `--save`, a decoded reply with a script is never saved without streaming. |
| Session.AutoSaveHonoured | main.py:647-651 | Corrected, that round saves the response once, without asking. |
| Session.AskWhenAutoSaveOff | main.py:649-651 | With auto-save off and no flag, both versions save exactly when the user agrees. |
| Session.AutoSaveRound | main.py:647-651 | For a whole round: as written the session is unchanged, corrected the response is appended to the saves. |
| Session.SaveFlagThenAsk | main.py:647-651 | With `--save` and auto-save off, `generate_code` saves the response, then the user is asked, and agreeing saves it a second time. |
| Session.StreamTurnSaveRule | main.py:640-646 | A streamed round saves at most one response. It saves exactly when the stream decodes with a script and auto-save is on or the user agrees. |
| Session.InteractiveSession.constructor | main.py:598-599 | The session streams when `--stream` is given or the `streaming` setting is truthy. Nothing is saved yet. |
| Session.InteractiveSession.Step | main.py:607-651 | One round moves the session and its configuration to the as-written replay function's next state. |
| Session.InteractiveSession.GenerateRound | main.py:640-651 | A generation round saves exactly the as-written round's responses: `--save` is passed as given, as line 648 does. |
| Session.InteractiveSession.Run | main.py:607-651 | The loop ends in the state that the as-written replay of the turns gives, stopping at the first exit word. |
| Session.OneShotSavesAsWritten | main.py:655-668 | Without a prompt nothing is saved, and at most one response is saved. When streaming, the decoded response is saved exactly when `--save` is given, even without a script. Otherwise it is saved exactly when `--save` is given, the reply decodes and its script is non-empty. |
| Session.OneShotSaves | main.py:655-668 | Corrected: the same bounds, and agreement with the as-written command when streaming or with `--save`. Without streaming it saves exactly when `--save` is given or auto-save is on, the reply decodes and its script is non-empty. |
| Session.OneShotIgnoresAutoSave | main.py:667-668 | As written, the one-shot command without streaming never saves on the auto-save setting alone. |
| Session.OneShotHonoursAutoSave | main.py:667-668 | Corrected, it saves exactly when auto-save is on. |

## Left out

- The Gemini client is left out: the request, system prompt and sampling settings are not modelled. The model's reply text or its stream chunks are inputs.
- `json.loads` is an input function from text to an optional decoded response. It hides two things:
  - The typed mapping of JSON into the response datatypes, including `.get(..., {})` defaults.
  - Non-object JSON and empty-object replies, which end without saving on every path and are folded into "does not decode".
- Rich output is not modelled: colours, panels, boxes, the status and metadata lines, the echo of streamed chunks and the raw-response panel. The renderer's rows and texts are modelled; their drawing is not.
- File-system effects are not modelled: creating `~/.clicod`, reading and writing `config.json` and `chmod`. Saving is modelled as the ordered list of writes and the final contents it leaves. Joining a name to the save location and resolving the result is a function `resolve` passed in; it is left abstract, so which names alias one another ("./x.pl" and "x.pl", a trailing "/", an absolute name) is up to it. `save_config` is a no-op in this model.
- `click`, `Prompt.ask`, `Confirm.ask` and `getpass` are left out: command-line flags, typed lines, answers and the environment variable are inputs.
- Exceptions are left out: `except Exception` returning `(None, None, None)` or `None`, `KeyboardInterrupt` ending the loop, and `sys.exit` when the client cannot be configured. The exception paths return nothing that is saved. This includes an error raised while rendering (main.py:233), before the save at 239-240: for example rich rejects a usage example such as "[/path]" as an unmatched closing markup tag, and then `--save` saves nothing. `Session.GenerateCode` assumes rendering succeeds.
- The `config`, `test` and `examples` commands are left out, apart from the key masking in `_show_current_config`. They are outside this core.
- The model-name choice in `ClicodGenerator.__init__` is left out. The model name is a parameter of the saved header.
- Config.MaskKey: it gives no rendering for truthy non-string keys. For a list Python would slice it and print the two slices; for an int, a bool or a dictionary line 730 raises an error.
- Text.Lower lowers ASCII letters only; Python's `lower` is full Unicode. The lowered text is only compared with the ASCII command and setting words, and no non-ASCII input lowers to one of those, so every decision of the loop is the same. The lowered text itself is not modelled beyond ASCII.
- Floats, and values of unexpected type inside response fields, are not modelled. The response datatypes hold strings and lists.
- Save.SavePlan: every write is assumed to succeed. When an `open` fails, for example for an additional filename in a directory that does not exist, the `except` at main.py:532-533 ends the save: the later additional files and the `chmod` are skipped.
- Config.LoadConfig: a `config.json` whose JSON is not an object is not modelled. `update` at main.py:135 then raises an error that the `except` at 136 does not catch (or, for a list of key-value pairs, merges them); the model's saved configuration is always an object.
- The corrected variants fix one finding each: the corrected loop and one-shot command still parse replies as written, and the corrected parse is stated in `unwrap.dfy` only.

## Findings

| source | as written | input that shows it | evidently intended | confidence | as-written member | corrected member |
|---|---|---|---|---|---|---|
| main.py:262-266 | The json branch is taken when a fence of three backticks and the word json both occur anywhere. The search for the json-tagged opener is not checked, so its result -1 gives start index 6. | A reply that is a plain fence around {"json":1} reaches the decoder as json":1} and fails to decode. | Take the json branch only when the json-tagged opener occurs. Otherwise unwrap the plain fence, which gives {"json":1}. | not executed | Unwrap.QuirkPlainFence | Unwrap.UnwrapPlainFence |
| main.py:648-649 | The interactive loop passes click's `--save` flag to `generate_code`, and that flag is `False` when absent, never `None`. The `auto_save` fallback at lines 203-204 never fires, and line 649 skips the question because auto-save is on. | Interactive session without `--save` or streaming, after `save on`, with a request whose reply decodes with a non-empty script: nothing is saved. | Pass `None` when `--save` is absent, so that auto-save saves the code. | not executed | Session.AutoSaveIgnoredAsWritten | Session.AutoSaveHonoured |
| main.py:668 | The one-shot command passes the `--save` flag the same way, so the `auto_save` setting is ignored without streaming. | `generate "csv parser"` with `auto_save` true and no `--save`, with a reply that decodes with a script: nothing is saved. | Pass `None` when `--save` is absent. | not executed | Session.OneShotIgnoresAutoSave | Session.OneShotHonoursAutoSave |
