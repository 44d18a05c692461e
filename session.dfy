/**
 * The `generate` command: the streaming accumulation of `stream_generate`, the
 * save decision of `generate_code`, and the interactive loop that reads one
 * line at a time and either changes a setting, stops, or generates. The model
 * reply, the answers to the confirmation prompts and the typed lines are inputs.
 * Replies are unwrapped with `ParseJsonResponse`, the cut as the program makes
 * it; the corrected handling of the `--save` flag sits beside the as-written one.
 */
module Session {
  import opened Wrappers
  import opened Text
  import opened ResponseModel
  import opened Unwrap
  import opened Config

  // ---------------------------------------------------------------------------
  // Streaming

  /** The text a chunk carries: `chunk.text`, where `None` carries nothing. */
  function ChunkText(chunk: Option<string>): string {
    chunk.GetOr("")
  }

  /** Everything the stream delivered, in arrival order. */
  function Received(chunks: seq<Option<string>>): string {
    ConcatMap(chunks, |chunks|, ChunkText)
  }

  /**
   * The `for chunk in response` loop of `stream_generate`: only chunks with a
   * non-empty text are appended, which loses nothing of what was received.
   */
  method AccumulateStream(chunks: seq<Option<string>>) returns (fullText: string)
    ensures fullText == Received(chunks)
  {
    fullText := "";
    for i := 0 to |chunks|
      invariant fullText == ConcatMap(chunks, i, ChunkText)
    {
      if chunks[i].Some? && chunks[i].value != "" {
        fullText := fullText + chunks[i].value;
      }
    }
  }

  /** A stream split anywhere gives the two parts' texts in order. */
  lemma ReceivedInOrder(a: seq<Option<string>>, b: seq<Option<string>>)
    ensures Received(a + b) == Received(a) + Received(b)
  {
    ConcatMapInOrder(a, b, |b|, ChunkText);
  }

  /** Empty chunks, with no text or an empty text, do not show in what was received. */
  lemma EmptyChunkIgnored(a: seq<Option<string>>, b: seq<Option<string>>, chunk: Option<string>)
    requires chunk.None? || chunk.value == ""
    ensures Received(a + [chunk] + b) == Received(a + b)
  {
    ReceivedInOrder(a + [chunk], b);
    ReceivedInOrder(a, [chunk]);
    ReceivedInOrder(a, b);
    assert ChunkText(chunk) == "";
    assert Received([chunk]) == ConcatMap([chunk], 0, ChunkText) + ChunkText(chunk);
  }

  /** What `stream_generate` returns: the decoded reply, or the raw text when it does not decode. */
  datatype StreamResult = StreamParsed(response: Response) | StreamRaw(text: string)

  /** `stream_generate` after the chunks arrived. */
  method StreamGenerate(chunks: seq<Option<string>>, decode: string -> Option<Response>) returns (result: StreamResult)
    ensures ParseJsonResponse(Received(chunks), decode).Some? ==>
      result == StreamParsed(ParseJsonResponse(Received(chunks), decode).value)
    ensures ParseJsonResponse(Received(chunks), decode).None? ==> result == StreamRaw(Received(chunks))
  {
    var fullText := AccumulateStream(chunks);
    var parsed := ParseJsonResponse(fullText, decode);
    if parsed.Some? {
      result := StreamParsed(parsed.value);
    } else {
      result := StreamRaw(fullText);
    }
  }

  /** The stream's result as a value, for the properties below. */
  function StreamOutcome(chunks: seq<Option<string>>, decode: string -> Option<Response>): (r: StreamResult)
    ensures r.StreamRaw? ==> r.text == Received(chunks)
    ensures r.StreamParsed? <==> decode(CandidateAsWritten(Received(chunks))).Some?
    ensures r.StreamParsed? ==> decode(CandidateAsWritten(Received(chunks))) == Some(r.response)
  {
    match ParseJsonResponse(Received(chunks), decode)
    case Some(resp) => StreamParsed(resp)
    case None => StreamRaw(Received(chunks))
  }

  // ---------------------------------------------------------------------------
  // generate_code

  /** Whether `generate_code` was asked to save: `save_to_file`, or the `auto_save` setting when it is `None`. */
  function SaveRequested(saveToFile: Option<bool>, autoSave: Value): bool {
    if saveToFile.None? then Truthy(autoSave) else saveToFile.value
  }

  /** What `generate_code` does with a reply: the decoded response it returns, and whether it saved it. */
  datatype Generated = Generated(parsed: Option<Response>, saved: bool)

  /** `generate_code` once the reply text is in; an empty reply is "no response generated". */
  function GenerateCode(replyText: string, saveToFile: Option<bool>, autoSave: Value,
                        decode: string -> Option<Response>): (g: Generated)
    ensures g.parsed.Some? <==> replyText != "" && ParseJsonResponse(replyText, decode).Some?
    ensures g.parsed.Some? ==> g.parsed == ParseJsonResponse(replyText, decode)
    ensures g.saved <==> g.parsed.Some? && g.parsed.value.perlCode.mainScript != "" && SaveRequested(saveToFile, autoSave)
  {
    if replyText == "" then Generated(None, false)
    else
      match ParseJsonResponse(replyText, decode)
      case None => Generated(None, false)
      case Some(r) => Generated(Some(r), r.perlCode.mainScript != "" && SaveRequested(saveToFile, autoSave))
  }

  /** With `save_to_file` left out, the `auto_save` setting decides. */
  lemma GenerateDefaultsToAutoSave(replyText: string, autoSave: Value, decode: string -> Option<Response>)
    requires GenerateCode(replyText, None, autoSave, decode).parsed.Some?
    requires GenerateCode(replyText, None, autoSave, decode).parsed.value.perlCode.mainScript != ""
    ensures GenerateCode(replyText, None, autoSave, decode).saved <==> Truthy(autoSave)
  {
  }

  /** An explicit `save_to_file` overrides the setting in both directions. */
  lemma GenerateExplicitFlagWins(replyText: string, flag: bool, autoSave: Value, autoSave2: Value,
                                 decode: string -> Option<Response>)
    ensures GenerateCode(replyText, Some(flag), autoSave, decode) == GenerateCode(replyText, Some(flag), autoSave2, decode)
  {
  }

  // ---------------------------------------------------------------------------
  // Commands of the interactive loop

  const ExitWords: seq<string> := ["exit", "quit", "q"]
  const ConfigWord: string := "config"
  const SaveWord: string := "save"
  const StreamWord: string := "stream"
  const Space: string := " "
  const OnWords: seq<string> := ["on", "true", "yes"]
  const OffWords: seq<string> := ["off", "false", "no"]

  /** A command line; an unrecognised setting word is `None`. */
  datatype Command =
    | Exit
    | ShowConfig
    | SetAutoSave(setting: Option<bool>)
    | SetStream(setting: Option<bool>)
    | Generate(prompt: string)

  /** A setting word, compared after lowering. */
  function SettingWord(word: string): (r: Option<bool>)
    ensures r == Some(true) <==> Lower(word) in OnWords
    ensures r == Some(false) <==> Lower(word) in OffWords
    ensures r.None? <==> Lower(word) !in OnWords && Lower(word) !in OffWords
  {
    var w := Lower(word);
    if w in OnWords then Some(true)
    else if w in OffWords then Some(false)
    else None
  }

  /** `user_input.split(' ', 1)[1]`: what follows the first space. */
  function AfterFirstSpace(input: string): string {
    var sp := Find(input, Space, 0);
    if sp < 0 then "" else input[sp + 1..]
  }

  /** The dispatch of the interactive loop, in the order its tests are made. */
  function Interpret(input: string): (c: Command)
    ensures c == Exit <==> Lower(input) in ExitWords
    ensures c == ShowConfig <==> Lower(input) == ConfigWord
  {
    var low := Lower(input);
    if low in ExitWords then Exit
    else if low == ConfigWord then ShowConfig
    else if StartsWith(low, SaveWord + Space) then SetAutoSave(SettingWord(AfterFirstSpace(input)))
    else if StartsWith(low, StreamWord + Space) then SetStream(SettingWord(AfterFirstSpace(input)))
    else Generate(input)
  }

  /** Lowering maps a space, and only a space, to a space. */
  lemma LowerSpace(c: char)
    ensures LowerChar(c) == ' ' <==> c == ' '
  {
  }

  /** When the lowered line opens with a space-free word and a space, that space is the line's first. */
  lemma FirstSpaceAfterWord(input: string, word: string)
    requires StartsWith(Lower(input), word + Space)
    requires forall j :: 0 <= j < |word| ==> word[j] != ' '
    ensures Find(input, Space, 0) == |word|
    ensures AfterFirstSpace(input) == input[|word| + 1..]
  {
    var low := Lower(input);
    assert low[|word|] == (word + Space)[|word|] == ' ';
    LowerSpace(input[|word|]);
    assert MatchAt(input, Space, |word|) by {
      assert input[|word|..|word| + 1] == [input[|word|]];
    }
    forall j | 0 <= j < |word|
      ensures !MatchAt(input, Space, j)
    {
      assert low[j] == (word + Space)[j] == word[j];
      LowerSpace(input[j]);
      assert input[j..j + 1] == [input[j]];
    }
    FindIs(input, Space, 0, |word|);
  }

  /** `save <word>` in any letter case sets the auto-save setting from the word after the space. */
  lemma SaveCommand(input: string)
    requires StartsWith(Lower(input), SaveWord + Space)
    ensures Interpret(input) == SetAutoSave(SettingWord(input[|SaveWord| + 1..]))
  {
    FirstSpaceAfterWord(input, SaveWord);
    var low := Lower(input);
    assert low[0] == 's';
    assert low !in ExitWords && low != ConfigWord by {
      assert |low| >= 5;
    }
  }

  /** `stream <word>` in any letter case sets the session's stream flag from the word after the space. */
  lemma StreamCommand(input: string)
    requires StartsWith(Lower(input), StreamWord + Space)
    ensures Interpret(input) == SetStream(SettingWord(input[|StreamWord| + 1..]))
  {
    FirstSpaceAfterWord(input, StreamWord);
    var low := Lower(input);
    assert low[0] == 's' && low[1] == 't';
    assert low !in ExitWords && low != ConfigWord by {
      assert |low| >= 7;
    }
    assert !StartsWith(low, SaveWord + Space) by {
      assert low[..5][1] == 't';
    }
  }

  /** A line is generated from exactly when it is none of the commands. */
  lemma GenerateOtherwise(input: string)
    ensures Interpret(input).Generate? <==>
      && Lower(input) !in ExitWords
      && Lower(input) != ConfigWord
      && !StartsWith(Lower(input), SaveWord + Space)
      && !StartsWith(Lower(input), StreamWord + Space)
    ensures Interpret(input).Generate? ==> Interpret(input).prompt == input
  {
  }

  // ---------------------------------------------------------------------------
  // The interactive session as a state machine

  /** What one round of the loop is given: the typed line, the model's reply (whole or as chunks) and the answer to "Save this code to file?". */
  datatype Turn = Turn(input: string, reply: string, chunks: seq<Option<string>>, confirmSave: bool)

  /** The session: the settings dictionary, the session's stream flag, whether the loop has ended, and the responses saved so far, in order. */
  datatype SessionState = SessionState(settings: map<string, Value>, stream: bool, exited: bool, saved: seq<Response>)

  /** `config.get('auto_save')`. */
  function AutoSave(settings: map<string, Value>): Value {
    if AutoSaveSetting in settings then settings[AutoSaveSetting] else Null
  }

  /** A streamed round: the response is saved when it decoded, has a script, and auto-save is on or the user agrees. */
  function StreamTurnSaves(st: SessionState, t: Turn, decode: string -> Option<Response>): (saves: seq<Response>)
    ensures |saves| <= 1
  {
    match StreamOutcome(t.chunks, decode)
    case StreamParsed(r) =>
      if r.perlCode.mainScript != "" && (Truthy(AutoSave(st.settings)) || t.confirmSave) then [r] else []
    case StreamRaw(_) => []
  }

  /**
   * A round without streaming, given what is passed as `save_to_file`:
   * `generate_code` may save, and then the user is asked unless auto-save is on.
   */
  function PlainTurnSaves(st: SessionState, saveToFile: Option<bool>, t: Turn, decode: string -> Option<Response>): (saves: seq<Response>)
    ensures |saves| <= 2
    ensures saves != [] ==> t.reply != "" && ParseJsonResponse(t.reply, decode).Some?
    ensures forall i :: 0 <= i < |saves| ==> saves[i] == ParseJsonResponse(t.reply, decode).value
  {
    var g := GenerateCode(t.reply, saveToFile, AutoSave(st.settings), decode);
    (if g.saved then [g.parsed.value] else [])
    + (if g.parsed.Some? && !Truthy(AutoSave(st.settings)) && t.confirmSave then [g.parsed.value] else [])
  }

  /** As written: the `--save` flag is passed as given, so `False` stands in for "not given". */
  function GenerateTurnAsWritten(st: SessionState, saveFlag: bool, t: Turn, decode: string -> Option<Response>): seq<Response> {
    if st.stream then StreamTurnSaves(st, t, decode) else PlainTurnSaves(st, Some(saveFlag), t, decode)
  }

  /** Corrected: an absent `--save` flag is passed as `None`, so that `generate_code` falls back to auto-save. */
  function GenerateTurn(st: SessionState, saveFlag: bool, t: Turn, decode: string -> Option<Response>): seq<Response> {
    if st.stream then StreamTurnSaves(st, t, decode)
    else PlainTurnSaves(st, if saveFlag then Some(true) else None, t, decode)
  }

  /** Which handling of `--save` a generating round uses: as main.py passes it, or with an absent flag passed as `None`. */
  datatype Version = AsWritten | Corrected

  /** What a generating round saves, in the given version. */
  function RoundSaves(v: Version, st: SessionState, saveFlag: bool, t: Turn, decode: string -> Option<Response>): seq<Response> {
    match v
    case AsWritten => GenerateTurnAsWritten(st, saveFlag, t, decode)
    case Corrected => GenerateTurn(st, saveFlag, t, decode)
  }

  /** One round of the loop. */
  function StepState(v: Version, st: SessionState, saveFlag: bool, t: Turn, decode: string -> Option<Response>): SessionState {
    match Interpret(t.input)
    case Exit => st.(exited := true)
    case ShowConfig => st
    case SetAutoSave(setting) =>
      if setting.Some? then st.(settings := st.settings[AutoSaveSetting := Bool(setting.value)]) else st
    case SetStream(setting) =>
      if setting.Some? then st.(stream := setting.value) else st
    case Generate(_) => st.(saved := st.saved + RoundSaves(v, st, saveFlag, t, decode))
  }

  /** The rounds of the loop until it ends or the lines run out. */
  function Replay(v: Version, st: SessionState, saveFlag: bool, turns: seq<Turn>, decode: string -> Option<Response>): SessionState
    decreases |turns|
  {
    if turns == [] || st.exited then st
    else Replay(v, StepState(v, st, saveFlag, turns[0], decode), saveFlag, turns[1..], decode)
  }

  /** Each command changes exactly what it names, and nothing else. */
  lemma StepFrame(v: Version, st: SessionState, saveFlag: bool, t: Turn, decode: string -> Option<Response>)
    ensures var next := StepState(v, st, saveFlag, t, decode);
      && (Interpret(t.input).Exit? <==> next.exited && !st.exited)
      && (next.settings != st.settings ==> Interpret(t.input).SetAutoSave?)
      && (next.stream != st.stream ==> Interpret(t.input).SetStream?)
      && (next.saved != st.saved ==> Interpret(t.input).Generate?)
      && (next.exited == (st.exited || Interpret(t.input).Exit?))
      && |st.saved| <= |next.saved| && next.saved[..|st.saved|] == st.saved
    requires !st.exited
  {
    var next := StepState(v, st, saveFlag, t, decode);
    assert next.saved[..|st.saved|] == st.saved;
  }

  /** `save on|true|yes` and `save off|false|no` set auto-save; other state is untouched. */
  lemma SaveSetting(v: Version, st: SessionState, saveFlag: bool, t: Turn, decode: string -> Option<Response>)
    requires StartsWith(Lower(t.input), SaveWord + Space)
    ensures var word := Lower(t.input[|SaveWord| + 1..]);
      var next := StepState(v, st, saveFlag, t, decode);
      && (word in OnWords ==> next == st.(settings := st.settings[AutoSaveSetting := Bool(true)]))
      && (word in OffWords ==> next == st.(settings := st.settings[AutoSaveSetting := Bool(false)]))
      && (word !in OnWords && word !in OffWords ==> next == st)
  {
    SaveCommand(t.input);
  }

  /** The same words after `stream ` set only the session's stream flag. */
  lemma StreamSetting(v: Version, st: SessionState, saveFlag: bool, t: Turn, decode: string -> Option<Response>)
    requires StartsWith(Lower(t.input), StreamWord + Space)
    ensures var word := Lower(t.input[|StreamWord| + 1..]);
      var next := StepState(v, st, saveFlag, t, decode);
      && (word in OnWords ==> next == st.(stream := true))
      && (word in OffWords ==> next == st.(stream := false))
      && (word !in OnWords && word !in OffWords ==> next == st)
  {
    StreamCommand(t.input);
  }

  /** An exit word ends the loop: whatever lines follow are never read. */
  lemma ExitEndsSession(v: Version, st: SessionState, saveFlag: bool, turns: seq<Turn>, decode: string -> Option<Response>)
    requires turns != [] && !st.exited
    requires Lower(turns[0].input) in ExitWords
    ensures Replay(v, st, saveFlag, turns, decode) == st.(exited := true)
  {
  }

  /** Running the loop over two batches of lines is running it over all of them. */
  lemma {:induction false} ReplayAppend(v: Version, st: SessionState, saveFlag: bool, a: seq<Turn>, b: seq<Turn>, decode: string -> Option<Response>)
    ensures Replay(v, st, saveFlag, a + b, decode) == Replay(v, Replay(v, st, saveFlag, a, decode), saveFlag, b, decode)
    decreases |a|
  {
    if a == [] {
      assert a + b == b;
    } else if !st.exited {
      assert (a + b)[1..] == a[1..] + b;
      ReplayAppend(v, StepState(v, st, saveFlag, a[0], decode), saveFlag, a[1..], b, decode);
    }
  }

  /** What has been saved is never taken back: a session's saves only grow. */
  lemma {:induction false} ReplayKeepsSaves(v: Version, st: SessionState, saveFlag: bool, turns: seq<Turn>, decode: string -> Option<Response>)
    ensures var fin := Replay(v, st, saveFlag, turns, decode);
      |st.saved| <= |fin.saved| && fin.saved[..|st.saved|] == st.saved
    decreases |turns|
  {
    if turns != [] && !st.exited {
      var next := StepState(v, st, saveFlag, turns[0], decode);
      StepFrame(v, st, saveFlag, turns[0], decode);
      ReplayKeepsSaves(v, next, saveFlag, turns[1..], decode);
      var fin := Replay(v, next, saveFlag, turns[1..], decode);
      assert fin.saved[..|st.saved|] == fin.saved[..|next.saved|][..|st.saved|];
    }
  }

  // ---------------------------------------------------------------------------
  // The auto-save setting without streaming

  /**
   * As written, with auto-save on and no `--save` flag, a decoded reply with
   * a script is never saved: `generate_code` is told `False`, and the question
   * is skipped because auto-save is on.
   */
  lemma AutoSaveIgnoredAsWritten(st: SessionState, t: Turn, decode: string -> Option<Response>)
    requires !st.stream && Truthy(AutoSave(st.settings))
    requires t.reply != "" && ParseJsonResponse(t.reply, decode).Some?
    requires ParseJsonResponse(t.reply, decode).value.perlCode.mainScript != ""
    ensures GenerateTurnAsWritten(st, false, t, decode) == []
  {
  }

  /** Corrected, the same round saves the response once, without asking. */
  lemma AutoSaveHonoured(st: SessionState, t: Turn, decode: string -> Option<Response>)
    requires !st.stream && Truthy(AutoSave(st.settings))
    requires t.reply != "" && ParseJsonResponse(t.reply, decode).Some?
    requires ParseJsonResponse(t.reply, decode).value.perlCode.mainScript != ""
    ensures GenerateTurn(st, false, t, decode) == [ParseJsonResponse(t.reply, decode).value]
  {
  }

  /** With auto-save off and no flag, the response is saved exactly when the user agrees, in both versions. */
  lemma AskWhenAutoSaveOff(st: SessionState, t: Turn, decode: string -> Option<Response>)
    requires !st.stream && !Truthy(AutoSave(st.settings))
    requires t.reply != "" && ParseJsonResponse(t.reply, decode).Some?
    ensures GenerateTurn(st, false, t, decode) == GenerateTurnAsWritten(st, false, t, decode)
    ensures GenerateTurn(st, false, t, decode) == (if t.confirmSave then [ParseJsonResponse(t.reply, decode).value] else [])
  {
  }

  /** A generating line appends the round's saves and changes nothing else. */
  lemma GenerateStep(v: Version, st: SessionState, saveFlag: bool, t: Turn, decode: string -> Option<Response>)
    requires Interpret(t.input).Generate?
    ensures StepState(v, st, saveFlag, t, decode) == st.(saved := st.saved + RoundSaves(v, st, saveFlag, t, decode))
  {
  }

  /**
   * The same finding for a whole round of the loop: as written the session is
   * left as it was, corrected the response is appended to the saves.
   */
  lemma AutoSaveRound(st: SessionState, t: Turn, decode: string -> Option<Response>)
    requires !st.stream && Truthy(AutoSave(st.settings)) && Interpret(t.input).Generate?
    requires t.reply != "" && ParseJsonResponse(t.reply, decode).Some?
    requires ParseJsonResponse(t.reply, decode).value.perlCode.mainScript != ""
    ensures StepState(AsWritten, st, false, t, decode) == st
    ensures StepState(Corrected, st, false, t, decode).saved == st.saved + [ParseJsonResponse(t.reply, decode).value]
  {
    AutoSaveIgnoredAsWritten(st, t, decode);
    AutoSaveHonoured(st, t, decode);
    GenerateStep(AsWritten, st, false, t, decode);
    GenerateStep(Corrected, st, false, t, decode);
    assert st.saved + [] == st.saved;
  }

  /**
   * With `--save` given and auto-save off, a round without streaming saves the
   * response in `generate_code` and then asks again, saving it a second time
   * when the user agrees.
   */
  lemma SaveFlagThenAsk(st: SessionState, t: Turn, decode: string -> Option<Response>)
    requires !st.stream && !Truthy(AutoSave(st.settings))
    requires t.reply != "" && ParseJsonResponse(t.reply, decode).Some?
    requires ParseJsonResponse(t.reply, decode).value.perlCode.mainScript != ""
    ensures var r := ParseJsonResponse(t.reply, decode).value;
      GenerateTurnAsWritten(st, true, t, decode) == if t.confirmSave then [r, r] else [r]
  {
  }

  /** A streamed round saves only a decoded response with a script, and only on auto-save or agreement. */
  lemma StreamTurnSaveRule(st: SessionState, t: Turn, decode: string -> Option<Response>)
    ensures |StreamTurnSaves(st, t, decode)| <= 1
    ensures StreamTurnSaves(st, t, decode) != [] <==>
      && decode(CandidateAsWritten(Received(t.chunks))).Some?
      && decode(CandidateAsWritten(Received(t.chunks))).value.perlCode.mainScript != ""
      && (Truthy(AutoSave(st.settings)) || t.confirmSave)
  {
    var o := StreamOutcome(t.chunks, decode);
    if o.StreamParsed? {
      assert decode(CandidateAsWritten(Received(t.chunks))) == Some(o.response);
    } else {
      assert decode(CandidateAsWritten(Received(t.chunks))).None?;
    }
  }

  // ---------------------------------------------------------------------------
  // The session object

  class InteractiveSession {
    const config: ClicodConfig
    /** The `--save` flag of the command line. */
    const saveFlag: bool
    var stream: bool
    var exited: bool
    var saved: seq<Response>

    function State(): SessionState
      reads this, config
    {
      SessionState(config.settings, stream, exited, saved)
    }

    /** Entering the loop: streaming is on when `--stream` is given or the `streaming` setting is truthy. */
    constructor (config: ClicodConfig, saveFlag: bool, streamFlag: bool)
      ensures this.config == config && this.saveFlag == saveFlag
      ensures stream == (streamFlag || Truthy(config.Get(StreamingSetting, Bool(false))))
      ensures !exited && saved == []
    {
      this.config := config;
      this.saveFlag := saveFlag;
      var s := streamFlag;
      if !s {
        s := Truthy(config.Get(StreamingSetting, Bool(false)));
      }
      stream := s;
      exited := false;
      saved := [];
    }

    /** One round of the `while True` loop. */
    method Step(t: Turn, decode: string -> Option<Response>)
      requires !exited
      modifies this, config
      ensures State() == StepState(AsWritten, old(State()), saveFlag, t, decode)
    {
      var cmd := Interpret(t.input);
      match cmd {
        case Exit =>
          exited := true;
        case ShowConfig =>
        case SetAutoSave(setting) =>
          if setting.Some? {
            config.Set(AutoSaveSetting, Bool(setting.value));
          }
        case SetStream(setting) =>
          if setting.Some? {
            stream := setting.value;
          }
        case Generate(_) =>
          var saves := GenerateRound(t, decode);
          saved := saved + saves;
      }
    }

    /** A generating round: the saves it makes, given the current settings; `--save` is passed as given. */
    method GenerateRound(t: Turn, decode: string -> Option<Response>) returns (saves: seq<Response>)
      ensures saves == GenerateTurnAsWritten(State(), saveFlag, t, decode)
    {
      var autoSave := config.Get(AutoSaveSetting, Null);
      if stream {
        var result := StreamGenerate(t.chunks, decode);
        saves := [];
        if result.StreamParsed? {
          var r := result.response;
          if r.perlCode.mainScript != "" && (Truthy(autoSave) || t.confirmSave) {
            saves := [r];
          }
        }
      } else {
        var g := GenerateCode(t.reply, Some(saveFlag), autoSave, decode);
        saves := if g.saved then [g.parsed.value] else [];
        if g.parsed.Some? && !Truthy(autoSave) && t.confirmSave {
          saves := saves + [g.parsed.value];
        }
      }
    }

    /** The loop over the lines typed, until an exit word or the end of input. */
    method Run(turns: seq<Turn>, decode: string -> Option<Response>)
      modifies this, config
      ensures State() == Replay(AsWritten, old(State()), saveFlag, turns, decode)
    {
      var i := 0;
      while i < |turns| && !exited
        invariant 0 <= i <= |turns|
        invariant Replay(AsWritten, State(), saveFlag, turns[i..], decode) == Replay(AsWritten, old(State()), saveFlag, turns, decode)
        decreases |turns| - i
      {
        assert turns[i..][1..] == turns[i + 1..];
        Step(turns[i], decode);
        i := i + 1;
      }
    }
  }

  // ---------------------------------------------------------------------------
  // One-shot generation

  /**
   * `generate` without `--interactive`, as written: nothing without a prompt;
   * when streaming, a decoded response is saved exactly when `--save` is given;
   * otherwise `generate_code` is called with the flag as given.
   */
  function OneShotSavesAsWritten(prompt: seq<string>, stream: bool, saveFlag: bool, autoSave: Value, reply: string,
                                 chunks: seq<Option<string>>, decode: string -> Option<Response>): (saves: seq<Response>)
    ensures prompt == [] ==> saves == []
    ensures |saves| <= 1
    ensures stream ==> (saves != [] <==> prompt != [] && saveFlag && StreamOutcome(chunks, decode).StreamParsed?)
    ensures stream && saves != [] ==> saves == [StreamOutcome(chunks, decode).response]
    ensures !stream ==> (saves != [] <==>
      && prompt != [] && saveFlag && reply != "" && ParseJsonResponse(reply, decode).Some?
      && ParseJsonResponse(reply, decode).value.perlCode.mainScript != "")
    ensures !stream && saves != [] ==> saves == [ParseJsonResponse(reply, decode).value]
  {
    if prompt == [] then []
    else if stream then
      match StreamOutcome(chunks, decode)
      case StreamParsed(r) => if saveFlag then [r] else []
      case StreamRaw(_) => []
    else
      var g := GenerateCode(reply, Some(saveFlag), autoSave, decode);
      if g.saved then [g.parsed.value] else []
  }

  /** Corrected: without streaming, an absent `--save` flag leaves the decision to the auto-save setting. */
  function OneShotSaves(prompt: seq<string>, stream: bool, saveFlag: bool, autoSave: Value, reply: string,
                        chunks: seq<Option<string>>, decode: string -> Option<Response>): (saves: seq<Response>)
    ensures prompt == [] ==> saves == []
    ensures |saves| <= 1
    ensures stream || saveFlag ==> saves == OneShotSavesAsWritten(prompt, stream, saveFlag, autoSave, reply, chunks, decode)
    ensures !stream ==> (saves != [] <==>
      && prompt != [] && (saveFlag || Truthy(autoSave)) && reply != "" && ParseJsonResponse(reply, decode).Some?
      && ParseJsonResponse(reply, decode).value.perlCode.mainScript != "")
    ensures !stream && saves != [] ==> saves == [ParseJsonResponse(reply, decode).value]
  {
    if prompt == [] then []
    else if stream then OneShotSavesAsWritten(prompt, stream, saveFlag, autoSave, reply, chunks, decode)
    else
      var g := GenerateCode(reply, if saveFlag then Some(true) else None, autoSave, decode);
      if g.saved then [g.parsed.value] else []
  }

  /**
   * As written, the one-shot command without streaming ignores the auto-save
   * setting: with no `--save` flag a decoded reply with a script is not saved
   * even when auto-save is on.
   */
  lemma OneShotIgnoresAutoSave(prompt: seq<string>, reply: string, chunks: seq<Option<string>>,
                               decode: string -> Option<Response>)
    requires prompt != [] && reply != "" && ParseJsonResponse(reply, decode).Some?
    requires ParseJsonResponse(reply, decode).value.perlCode.mainScript != ""
    ensures OneShotSavesAsWritten(prompt, false, false, Bool(true), reply, chunks, decode) == []
  {
  }

  /** Corrected, the same command saves the decoded response exactly when auto-save is on. */
  lemma OneShotHonoursAutoSave(prompt: seq<string>, autoSave: Value, reply: string, chunks: seq<Option<string>>,
                               decode: string -> Option<Response>)
    requires prompt != [] && reply != "" && ParseJsonResponse(reply, decode).Some?
    requires ParseJsonResponse(reply, decode).value.perlCode.mainScript != ""
    ensures OneShotSaves(prompt, false, false, autoSave, reply, chunks, decode)
      == (if Truthy(autoSave) then [ParseJsonResponse(reply, decode).value] else [])
  {
  }
}
