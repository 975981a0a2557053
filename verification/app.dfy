/** The handlers of the web interface in `main.py` that keep the chat history: the coach chat
    by text and by voice, drawing a training challenge, submitting an answer to it, and the
    per-module history table. The chat model, the transcriber and the critic are parameters;
    the tracking file is passed in and returned instead of being read and written. */
module App {
  import opened Outcomes
  import opened Text
  import VoiceInterface
  import SkillTraining
  import Settings

  datatype Role = User | Assistant

  /** One entry of the chat history: `{"role": ..., "content": ...}`. */
  datatype Message = Message(role: Role, content: string)

  type History = seq<Message>

  /** `transcribe_audio(audio_path)` as the handlers see it: a path in, a string out. */
  type Transcriber = VoiceInterface.SourceFile -> string

  /** `get_chat_feedback`: the coach's answer to a message. */
  type Coach = string -> string

  const NoAudioMessage := "Error: No audio provided."
  const CouldNotTranscribeMessage := "Error: Could not transcribe audio."
  const GenerateFirstMessage := "Error: Please generate a challenge first by clicking 'Get Your Challenge'."

  /** The prefix by which the handlers tell a failed transcription from a transcript. */
  const ErrorWord := "Error"

  /** A transcript the voice handlers pass on: non-empty and not starting with "Error". */
  predicate Accepted(transcript: string) {
    transcript != [] && !StartsWith(transcript, ErrorWord)
  }

  /** The history after a voice message, and the transcript when there is one to answer. */
  datatype Heard = Heard(history: History, transcript: Option<string>)

  /** `process_voice_input_and_chat`. The "Transcribing..." placeholder it appends is always
      overwritten before it returns, so the net effect is one user entry. */
  function ProcessVoiceInputAndChat(audio: Option<VoiceInterface.SourceFile>, history: History,
                                    transcribe: Transcriber): (h: Heard)
    ensures |h.history| == |history| + 1 && h.history[..|history|] == history
    ensures h.transcript.Some? <==> audio.Some? && Accepted(transcribe(audio.value))
    ensures h.transcript.Some? ==>
              h.transcript.value == transcribe(audio.value) &&
              h.history[|history|] == Message(User, h.transcript.value)
    ensures audio.None? ==> h.history[|history|] == Message(User, NoAudioMessage)
    ensures audio.Some? && !Accepted(transcribe(audio.value)) ==>
              h.history[|history|] == Message(User, CouldNotTranscribeMessage)
  {
    match audio
    case None => Heard(history + [Message(User, NoAudioMessage)], None)
    case Some(path) =>
      var transcript := transcribe(path);
      if transcript == [] || StartsWith(transcript, ErrorWord) then
        Heard(history + [Message(User, CouldNotTranscribeMessage)], None)
      else
        Heard(history + [Message(User, transcript)], Some(transcript))
  }

  /** `chat_with_coach_text`: a blank message is ignored; otherwise the message and the
      coach's answer are appended (the "Thinking..." placeholder is overwritten). */
  function ChatWithCoachText(userInput: string, history: History, coach: Coach): (h: History)
    ensures AllSpace(userInput) ==> h == history
    ensures !AllSpace(userInput) ==>
              h == history + [Message(User, userInput), Message(Assistant, coach(userInput))]
  {
    StripEmptyIffBlank(userInput);
    if Strip(userInput) == [] then history
    else history + [Message(User, userInput), Message(Assistant, coach(userInput))]
  }

  /** `chat_with_coach_voice`: the voice entry, then the coach's answer when there is a transcript. */
  function ChatWithCoachVoice(audio: Option<VoiceInterface.SourceFile>, history: History,
                              transcribe: Transcriber, coach: Coach): (h: History)
    ensures |h| > |history| && h[..|history|] == history
    ensures audio.Some? && Accepted(transcribe(audio.value)) ==>
              var t := transcribe(audio.value);
              h == history + [Message(User, t), Message(Assistant, coach(t))]
    ensures audio.None? || !Accepted(transcribe(audio.value)) ==> |h| == |history| + 1
  {
    var heard := ProcessVoiceInputAndChat(audio, history, transcribe);
    match heard.transcript
    case None => heard.history
    case Some(t) =>
      assert heard.history == history + [Message(User, t)];
      heard.history + [Message(Assistant, coach(t))]
  }

  /** A spoken message that was transcribed to a non-blank text is answered exactly as if that
      text had been typed. */
  lemma VoiceChatIsTextChatOfTranscript(audio: VoiceInterface.SourceFile, history: History,
                                        transcribe: Transcriber, coach: Coach)
    requires Accepted(transcribe(audio)) && !AllSpace(transcribe(audio))
    ensures ChatWithCoachVoice(Some(audio), history, transcribe, coach) ==
            ChatWithCoachText(transcribe(audio), history, coach)
  {
  }

  /** The transcriber `main.py` uses: the whole pipeline of `transcribe_audio`, rendered. */
  function Pipeline(env: VoiceInterface.AudioEnv, handle: VoiceInterface.Handle): Transcriber {
    src => VoiceInterface.Render(VoiceInterface.TranscribeAudio(src, env, handle).outcome)
  }

  lemma StartsWithAppend(a: string, b: string, prefix: string)
    requires StartsWith(a, prefix)
    ensures StartsWith(a + b, prefix)
  {
    assert (a + b)[..|prefix|] == a[..|prefix|];
  }

  /** Which pipeline outcomes the voice handlers reject: every failure whose message starts
      with "Error" and a transcript that happens to start with "Error". The message for a
      missing Whisper does not, so it is taken for what the user said, as is the message for
      silent audio. */
  lemma ChatRejectsErrorMessages(src: VoiceInterface.SourceFile, env: VoiceInterface.AudioEnv,
                                 handle: VoiceInterface.Handle, history: History)
    ensures var t := VoiceInterface.TranscribeAudio(src, env, handle).outcome;
            var heard := ProcessVoiceInputAndChat(Some(src), history, Pipeline(env, handle));
            heard.transcript.None? <==>
              (VoiceInterface.IsFailure(t) && !t.Unavailable?) || (t.Speech? && StartsWith(t.text, ErrorWord))
  {
    var t := VoiceInterface.TranscribeAudio(src, env, handle).outcome;
    RejectedOutcomes(t);
  }

  /** The rendered outcomes the voice handlers reject: those starting with "Error", and nothing
      else, since a transcript is never empty. */
  lemma RejectedOutcomes(t: VoiceInterface.Transcription)
    requires t.Speech? ==> t.text != []
    ensures !Accepted(VoiceInterface.Render(t)) <==>
              (VoiceInterface.IsFailure(t) && !t.Unavailable?) || (t.Speech? && StartsWith(t.text, ErrorWord))
  {
    assert StartsWith(VoiceInterface.ErrorMark, ErrorWord) by {
      assert VoiceInterface.ErrorMark[..5] == ErrorWord;
    }
    match t
    case Speech(_) =>
    case NoSpeech =>
      assert VoiceInterface.NoSpeechMessage[0] != ErrorWord[0];
    case InvalidAudio =>
      StartsWithAppend(VoiceInterface.ErrorMark, VoiceInterface.InvalidAudioMessage[6..], ErrorWord);
      assert VoiceInterface.ErrorMark + VoiceInterface.InvalidAudioMessage[6..] == VoiceInterface.InvalidAudioMessage;
    case NoiseReductionFailed =>
      StartsWithAppend(VoiceInterface.ErrorMark, VoiceInterface.NoiseReductionMessage[6..], ErrorWord);
      assert VoiceInterface.ErrorMark + VoiceInterface.NoiseReductionMessage[6..] == VoiceInterface.NoiseReductionMessage;
    case SplitFailed =>
      StartsWithAppend(VoiceInterface.ErrorMark, VoiceInterface.SplitMessage[6..], ErrorWord);
      assert VoiceInterface.ErrorMark + VoiceInterface.SplitMessage[6..] == VoiceInterface.SplitMessage;
    case AsrFailed(message) =>
      assert (VoiceInterface.AsrErrorPrefix + message)[..5] == ErrorWord;
    case Unavailable =>
      assert VoiceInterface.UnavailableMessage[0] != ErrorWord[0];
  }

  /** Python's state of a module-level name: never assigned, `None`, or a value. */
  datatype Slot<T> = Undefined | PyNone | Set(value: T)

  /** The globals `selected_challenge` and `selected_time_limit`. */
  datatype Selection = Selection(challenge: Slot<string>, timeLimit: Slot<int>)

  /** At start-up only `selected_topic` and `selected_time_limit` are assigned (to None);
      `selected_challenge` is never assigned until a challenge is generated. */
  const StartSelection: Selection := Selection(Undefined, PyNone)

  const NoChallengeWarning := "\U{26A0}" + " **No challenge available. Please try again.**"
  const ChallengeHeading := "\U{1F3AD}" + " **Your Challenge:** *"

  /** What `generate_challenge` shows: the challenge text, the empty string it sends to the
      countdown timer display, and the globals afterwards. */
  datatype Shown = Shown(text: string, timer: string, selection: Selection)

  /** The part of `generate_challenge` after the draw. `None` is a prompt that is falsy or has
      no "challenge" key. */
  function ShowChallenge(prompt: Option<SkillTraining.TrainingPrompt>, selection: Selection): (s: Shown)
    ensures s.timer == []
    ensures prompt.None? ==> s.text == NoChallengeWarning && s.selection == selection
    ensures prompt.Some? ==>
              && StartsWith(s.text, ChallengeHeading)
              && s.text != NoChallengeWarning
              && s.selection == Selection(Set(prompt.value.challenge), Set(prompt.value.timeLimitSeconds))
  {
    match prompt
    case None => Shown(NoChallengeWarning, [], selection)
    case Some(p) =>
      var text := ChallengeHeading + p.challenge + "*\n\n" + p.instructions;
      assert text[..|ChallengeHeading|] == ChallengeHeading;
      assert text[0] != NoChallengeWarning[0];
      Shown(text, [], Selection(Set(p.challenge), Set(p.timeLimitSeconds)))
  }

  /** `generate_challenge`: draw a prompt (which may raise), then show it. */
  function GenerateChallenge(moduleName: string, prompts: map<string, Settings.PromptEntry>,
                             tracking: SkillTraining.Tracking, pick: nat, selection: Selection)
    : (r: Result<(Shown, SkillTraining.Tracking)>)
    ensures var drawn := SkillTraining.GetRandomTrainingPrompt(moduleName, prompts, tracking, pick);
            && (drawn.Crashed? <==> r.Crashed?)
            && (drawn.Crashed? ==> r.error == drawn.error)
            && (drawn.Returned? ==> r.value.1 == drawn.value.tracking)
  {
    match SkillTraining.GetRandomTrainingPrompt(moduleName, prompts, tracking, pick)
    case Crashed(e) => Crashed(e)
    case Returned(drawn) => Returned((ShowChallenge(Some(drawn.prompt), selection), drawn.tracking))
  }

  /** A draw always yields a prompt with a challenge, so the warning is never shown and both
      globals are set to the drawn challenge and its time limit. */
  lemma ChallengeIsAlwaysShown(moduleName: string, prompts: map<string, Settings.PromptEntry>,
                               tracking: SkillTraining.Tracking, pick: nat, selection: Selection)
    requires SkillTraining.GetRandomTrainingPrompt(moduleName, prompts, tracking, pick).Returned?
    ensures var p := SkillTraining.GetRandomTrainingPrompt(moduleName, prompts, tracking, pick).value.prompt;
            var shown := GenerateChallenge(moduleName, prompts, tracking, pick, selection).value.0;
            && shown.text != NoChallengeWarning
            && shown.selection == Selection(Set(p.challenge), Set(p.timeLimitSeconds))
  {
  }

  /** For a module with no prompts the fallback text becomes the selected challenge, with a
      time limit of 0, and the draw counts no task. */
  lemma UnknownModuleSelectsFallback(moduleName: string, prompts: map<string, Settings.PromptEntry>,
                                     tracking: SkillTraining.Tracking, pick: nat, selection: Selection)
    requires ModuleKey(moduleName) !in prompts
    ensures GenerateChallenge(moduleName, prompts, tracking, pick, selection).Returned?
    ensures var (shown, after) := GenerateChallenge(moduleName, prompts, tracking, pick, selection).value;
            && shown.selection == Selection(Set(SkillTraining.NoPrompts.challenge), Set(0))
            && after == tracking
  {
  }

  /** The module names of the drop-down, with the evaluator each selects. */
  function DisplayName(skill: SkillTraining.Skill): string {
    match skill
    case Impromptu => "Impromptu Speaking"
    case Storytelling => "Storytelling"
    case ConflictResolution => "Conflict Resolution"
  }

  /** The `if module == ...` chain: an exact match of the display name. */
  function SkillOf(moduleName: string): (skill: Option<SkillTraining.Skill>)
    ensures skill.Some? ==> DisplayName(skill.value) == moduleName
  {
    if moduleName == "Impromptu Speaking" then Some(SkillTraining.Impromptu)
    else if moduleName == "Storytelling" then Some(SkillTraining.Storytelling)
    else if moduleName == "Conflict Resolution" then Some(SkillTraining.ConflictResolution)
    else None
  }

  /** Every display name selects its own evaluator, and nothing else selects one. */
  lemma SkillOfDisplayName(moduleName: string)
    ensures SkillOf(moduleName).Some? <==> exists s :: DisplayName(s) == moduleName
    ensures forall s :: SkillOf(DisplayName(s)) == Some(s)
  {
    forall s ensures SkillOf(DisplayName(s)) == Some(s) {
      assert |DisplayName(SkillTraining.Impromptu)| == 18;
      assert |DisplayName(SkillTraining.Storytelling)| == 12;
      assert |DisplayName(SkillTraining.ConflictResolution)| == 19;
    }
  }

  const YouLabel := "\U{1F464} **You:** "
  const CoachLabel := "\U{200D}\U{1F3EB} **Coach:**"
  const InvalidModuleMessage := CoachLabel + " Error: Invalid module selected."
  const EvaluationHeading := "\n\n### \U{1F4CC} **LLM Evaluation**\n"

  /** The label in front of the challenge in the coach's reply. */
  function ChallengeLabel(skill: SkillTraining.Skill): string {
    match skill
    case Impromptu => "\U{1F539} Topic:"
    case Storytelling => "\U{1F4D6} Story Prompt:"
    case ConflictResolution => "\U{2696}\U{FE0F} Conflict Scenario:"
  }

  /** The coach's reply: the challenge the feedback names, then the model's evaluation verbatim. */
  function EvalText(skill: SkillTraining.Skill, feedback: SkillTraining.Feedback): (text: string)
    ensures StartsWith(text, CoachLabel)
    ensures |text| >= |feedback.evaluation| && text[|text| - |feedback.evaluation|..] == feedback.evaluation
  {
    var head := CoachLabel + "\n**" + ChallengeLabel(skill) + "** " + feedback.challenge + EvaluationHeading;
    assert (head + feedback.evaluation)[..|CoachLabel|] == CoachLabel;
    assert (head + feedback.evaluation)[|head|..] == feedback.evaluation;
    head + feedback.evaluation
  }

  /** The chat history and the tracking map after an answer has been submitted. */
  datatype Trained = Trained(history: History, tracking: SkillTraining.Tracking)

  /** The reply for a valid module is never mistaken for the invalid-module message. */
  lemma EvalTextIsNotInvalidModule(skill: SkillTraining.Skill, feedback: SkillTraining.Feedback)
    ensures EvalText(skill, feedback) != InvalidModuleMessage
  {
  }

  /** The part of `skill_training_text` after both globals were read: show the answer, then
      evaluate and record it when the module name is one of the three. */
  function Answer(moduleName: string, userInput: string, history: History, challenge: string,
                  tracking: SkillTraining.Tracking, critic: SkillTraining.Critic): (r: Result<Trained>)
    ensures r.Returned? ==>
              && |r.value.history| == |history| + 2
              && r.value.history[..|history|] == history
              && r.value.history[|history|] == Message(User, YouLabel + userInput)
              && (SkillOf(moduleName).None? <==>
                    r.value.history[|history| + 1] == Message(Assistant, InvalidModuleMessage))
    ensures r.Returned? && r.value.tracking != tracking ==> SkillOf(moduleName).Some?
    ensures SkillOf(moduleName).None? ==> r.Returned? && r.value.tracking == tracking
  {
    var asked := history + [Message(User, YouLabel + userInput)];
    match SkillOf(moduleName)
    case None => Returned(Trained(asked + [Message(Assistant, InvalidModuleMessage)], tracking))
    case Some(skill) => Evaluate(skill, moduleName, userInput, asked, challenge, tracking, critic)
  }

  /** The evaluation branch of `skill_training_text`: run the module's evaluator, show its
      reply in place of the placeholder, and record the attempt. */
  function Evaluate(skill: SkillTraining.Skill, moduleName: string, userInput: string, asked: History,
                    challenge: string, tracking: SkillTraining.Tracking, critic: SkillTraining.Critic)
    : (r: Result<Trained>)
    ensures var feedback := SkillTraining.RunSkill(skill, userInput, challenge, critic);
            var update := SkillTraining.UpdateTracking(moduleName, challenge, userInput, feedback, tracking);
            && (r.Crashed? <==> update.Crashed?)
            && (r.Returned? ==> r.value == Trained(asked + [Message(Assistant, EvalText(skill, feedback))], update.value))
    ensures r.Returned? ==> r.value.history[|asked|].content != InvalidModuleMessage
  {
    var feedback := SkillTraining.RunSkill(skill, userInput, challenge, critic);
    var reply := EvalText(skill, feedback);
    EvalTextIsNotInvalidModule(skill, feedback);
    match SkillTraining.UpdateTracking(moduleName, challenge, userInput, feedback, tracking)
    case Crashed(e) => Crashed(e)
    case Returned(after) => Returned(Trained(asked + [Message(Assistant, reply)], after))
  }

  /** `skill_training_text`. Reading a global that was never assigned raises NameError; a
      global that is None asks for a challenge first and records nothing; otherwise the answer
      is shown and, for a known module, evaluated and recorded by `update_tracking`, which may
      raise. */
  function SkillTrainingText(moduleName: string, userInput: string, history: History, selection: Selection,
                             tracking: SkillTraining.Tracking, critic: SkillTraining.Critic): (r: Result<Trained>)
    ensures selection.challenge.Undefined? ==> r == Crashed(NameError("selected_challenge"))
    ensures selection.challenge.PyNone? ==> r == Returned(Trained(history + [Message(User, GenerateFirstMessage)], tracking))
    ensures selection.challenge.Set? && selection.timeLimit.Set? ==>
              r == Answer(moduleName, userInput, history, selection.challenge.value, tracking, critic)
    ensures r.Returned? ==> |r.value.history| > |history| && r.value.history[..|history|] == history
  {
    match selection.challenge
    case Undefined => Crashed(NameError("selected_challenge"))
    case PyNone => Returned(Trained(history + [Message(User, GenerateFirstMessage)], tracking))
    case Set(challenge) =>
      match selection.timeLimit
      case Undefined => Crashed(NameError("selected_time_limit"))
      case PyNone => Returned(Trained(history + [Message(User, GenerateFirstMessage)], tracking))
      case Set(_) => Answer(moduleName, userInput, history, challenge, tracking, critic)
  }

  /** As written, answering before any challenge was generated raises NameError instead of
      asking for a challenge: `selected_challenge` is read before it was ever assigned. */
  lemma AnswerBeforeChallengeRaises(moduleName: string, userInput: string, history: History,
                                    tracking: SkillTraining.Tracking, critic: SkillTraining.Critic)
    ensures SkillTrainingText(moduleName, userInput, history, StartSelection, tracking, critic)
              == Crashed(NameError("selected_challenge"))
  {
  }

  /** The start-up state the check in `skill_training_text` expects: both globals None. */
  const IntendedStartSelection: Selection := Selection(PyNone, PyNone)

  /** With both globals assigned None at start-up, answering first asks for a challenge and
      records nothing; once a challenge is generated, the request is never made again. */
  lemma AnswerBeforeChallengeAsksForOne(moduleName: string, userInput: string, history: History,
                                        tracking: SkillTraining.Tracking, critic: SkillTraining.Critic,
                                        prompts: map<string, Settings.PromptEntry>, pick: nat)
    ensures SkillTrainingText(moduleName, userInput, history, IntendedStartSelection, tracking, critic)
              == Returned(Trained(history + [Message(User, GenerateFirstMessage)], tracking))
    ensures var g := GenerateChallenge(moduleName, prompts, tracking, pick, IntendedStartSelection);
            g.Returned? ==>
              var r := SkillTrainingText(moduleName, userInput, history, g.value.0.selection, g.value.1, critic);
              r.Returned? ==> r.value.history != history + [Message(User, GenerateFirstMessage)]
  {
    var g := GenerateChallenge(moduleName, prompts, tracking, pick, IntendedStartSelection);
    if g.Returned? {
      ChallengeIsAlwaysShown(moduleName, prompts, tracking, pick, IntendedStartSelection);
      var r := SkillTrainingText(moduleName, userInput, history, g.value.0.selection, g.value.1, critic);
      if r.Returned? {
        assert |r.value.history| == |history| + 2;
      }
    }
  }

  /** A row of the history table. */
  datatype Row = Row(attempt: nat, challenge: string, userInput: string, evaluation: string, averageScore: real)

  /** The attempts stored for a display name; a missing tracking file reads as an empty map. */
  function StoredAttempts(moduleName: string, stored: Option<SkillTraining.Tracking>): (attempts: seq<SkillTraining.Attempt>)
    ensures stored.None? ==> attempts == []
    ensures stored.Some? && ModuleKey(moduleName) !in stored.value ==> attempts == []
    ensures stored.Some? && ModuleKey(moduleName) in stored.value ==>
              attempts == stored.value[ModuleKey(moduleName)].history
  {
    var tracking := stored.GetOr(map[]);
    var key := ModuleKey(moduleName);
    if key in tracking then tracking[key].history else []
  }

  /** `get_detailed_history`: the module's attempts in order, numbered from 1. */
  function DetailedHistory(moduleName: string, stored: Option<SkillTraining.Tracking>): (rows: seq<Row>)
    ensures var attempts := StoredAttempts(moduleName, stored);
            && |rows| == |attempts|
            && forall k :: 0 <= k < |rows| ==>
                 rows[k] == Row(k + 1, attempts[k].challenge, attempts[k].userInput,
                                attempts[k].evaluation, attempts[k].averageScore)
    ensures stored.None? ==> rows == []
  {
    var attempts := StoredAttempts(moduleName, stored);
    seq(|attempts|, k requires 0 <= k < |attempts| =>
      Row(k + 1, attempts[k].challenge, attempts[k].userInput, attempts[k].evaluation, attempts[k].averageScore))
  }

  /** Appending one attempt to a module's record adds one row, numbered after the others, to
      its history table. */
  lemma AppendedAttemptIsLastRow(moduleName: string, before: SkillTraining.Tracking, after: SkillTraining.Tracking,
                                 entry: SkillTraining.Attempt)
    requires ModuleKey(moduleName) in before && ModuleKey(moduleName) in after
    requires after[ModuleKey(moduleName)].history == before[ModuleKey(moduleName)].history + [entry]
    ensures var rows := DetailedHistory(moduleName, Some(before));
            DetailedHistory(moduleName, Some(after)) ==
              rows + [Row(|rows| + 1, entry.challenge, entry.userInput, entry.evaluation, entry.averageScore)]
  {
    var rows := DetailedHistory(moduleName, Some(before));
    var now := DetailedHistory(moduleName, Some(after));
    var added := rows + [Row(|rows| + 1, entry.challenge, entry.userInput, entry.evaluation, entry.averageScore)];
    forall k | 0 <= k < |now|
      ensures now[k] == added[k]
    {
    }
  }

  /** With both globals set and a known module, the reply is the module's evaluation. */
  lemma AnswerIsEvaluated(moduleName: string, userInput: string, history: History, challenge: string,
                          timeLimit: int, tracking: SkillTraining.Tracking, critic: SkillTraining.Critic)
    requires SkillOf(moduleName).Some?
    ensures var r := SkillTrainingText(moduleName, userInput, history, Selection(Set(challenge), Set(timeLimit)),
                                       tracking, critic);
            r == Evaluate(SkillOf(moduleName).value, moduleName, userInput,
                          history + [Message(User, YouLabel + userInput)], challenge, tracking, critic)
  {
  }

  /** With both globals set and a known module, the answer is recorded by `update_tracking`
      and the chat ends with the answer and the coach's evaluation. */
  lemma AnswerIsRecorded(moduleName: string, userInput: string, history: History, challenge: string,
                         timeLimit: int, tracking: SkillTraining.Tracking, critic: SkillTraining.Critic)
    requires SkillOf(moduleName).Some?
    requires SkillTraining.UpdateTracking(moduleName, challenge, userInput,
               SkillTraining.RunSkill(SkillOf(moduleName).value, userInput, challenge, critic), tracking).Returned?
    ensures var r := SkillTrainingText(moduleName, userInput, history, Selection(Set(challenge), Set(timeLimit)),
                                       tracking, critic);
            var feedback := SkillTraining.RunSkill(SkillOf(moduleName).value, userInput, challenge, critic);
            && r.Returned?
            && r.value.tracking == SkillTraining.UpdateTracking(moduleName, challenge, userInput, feedback, tracking).value
            && r.value.history == history + [Message(User, YouLabel + userInput)]
                                            + [Message(Assistant, EvalText(SkillOf(moduleName).value, feedback))]
  {
    var skill := SkillOf(moduleName).value;
    var feedback := SkillTraining.RunSkill(skill, userInput, challenge, critic);
    var asked := history + [Message(User, YouLabel + userInput)];
    AnswerIsEvaluated(moduleName, userInput, history, challenge, timeLimit, tracking, critic);
  }

  /** Submitting an answer for one of the three modules, with a consistent record, always
      succeeds; the record stays consistent, and the history table gains exactly one row at the
      end, numbered after the earlier ones, holding the challenge, the answer, the evaluation
      and its score. */
  lemma TrainingAddsOneRow(moduleName: string, userInput: string, history: History, challenge: string,
                           timeLimit: int, tracking: SkillTraining.Tracking, critic: SkillTraining.Critic)
    requires SkillOf(moduleName).Some?
    requires ModuleKey(moduleName) in tracking && SkillTraining.Consistent(tracking[ModuleKey(moduleName)])
    ensures var r := SkillTrainingText(moduleName, userInput, history, Selection(Set(challenge), Set(timeLimit)),
                                       tracking, critic);
            var feedback := SkillTraining.RunSkill(SkillOf(moduleName).value, userInput, challenge, critic);
            var before := DetailedHistory(moduleName, Some(tracking));
            && r.Returned?
            && SkillTraining.Consistent(r.value.tracking[ModuleKey(moduleName)])
            && DetailedHistory(moduleName, Some(r.value.tracking)) ==
                 before + [Row(|before| + 1, challenge, userInput, feedback.evaluation, feedback.averageScore.value)]
  {
    var skill := SkillOf(moduleName).value;
    var feedback := SkillTraining.RunSkill(skill, userInput, challenge, critic);
    SkillTraining.UpdateKeepsConsistent(moduleName, challenge, userInput, feedback, tracking);
    AnswerIsRecorded(moduleName, userInput, history, challenge, timeLimit, tracking, critic);
    var after := SkillTraining.UpdateTracking(moduleName, challenge, userInput, feedback, tracking).value;
    var entry := SkillTraining.Attempt(challenge, userInput, feedback.evaluation, feedback.averageScore.value);
    AppendedAttemptIsLastRow(moduleName, tracking, after, entry);
  }

  /** An unknown module name leaves the tracking map as it was: nothing is recorded. */
  lemma InvalidModuleRecordsNothing(moduleName: string, userInput: string, history: History,
                                    selection: Selection, tracking: SkillTraining.Tracking,
                                    critic: SkillTraining.Critic)
    requires SkillOf(moduleName).None?
    requires !selection.challenge.Undefined? && !selection.timeLimit.Undefined?
    ensures SkillTrainingText(moduleName, userInput, history, selection, tracking, critic).Returned?
    ensures SkillTrainingText(moduleName, userInput, history, selection, tracking, critic).value.tracking == tracking
  {
  }
}
