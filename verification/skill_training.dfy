/** The skill-training core of `src/skill_training.py`: the five-score average of an evaluation,
    drawing a challenge for a module, and the per-module attempt record kept in the tracking
    file. The tracking file is the in-memory map `load_tracking` returns and `save_tracking`
    writes; the evaluating language model and `random.choice` are parameters. */
module SkillTraining {
  import opened Outcomes
  import opened Text
  import Scores
  import Settings

  /** One history entry of a module's record. */
  datatype Attempt = Attempt(challenge: string, userInput: string, evaluation: string, averageScore: real)

  /** A module's record in the tracking file. */
  datatype ModuleStats = ModuleStats(taskCount: int, attempts: int, averageScore: real, history: seq<Attempt>)

  /** The tracking file: module key to record. */
  type Tracking = map<string, ModuleStats>

  const ZeroStats: ModuleStats := ModuleStats(0, 0, 0.0, [])

  function Sum(xs: seq<real>): real {
    if |xs| == 0 then 0.0 else Sum(xs[..|xs| - 1]) + xs[|xs| - 1]
  }

  function ScoresOf(history: seq<Attempt>): (scores: seq<real>)
    ensures |scores| == |history|
    ensures forall k :: 0 <= k < |history| ==> scores[k] == history[k].averageScore
  {
    if |history| == 0 then [] else ScoresOf(history[..|history| - 1]) + [history[|history| - 1].averageScore]
  }

  /** A record whose running average is the mean of its history: one attempt per history entry,
      and average times attempts equal to the sum of the recorded scores. */
  predicate Consistent(stats: ModuleStats) {
    && stats.attempts == |stats.history|
    && stats.averageScore * stats.attempts as real == Sum(ScoresOf(stats.history))
  }

  /** `initialize_tracking`: the three skill modules with zero counts, zero average and no history. */
  function InitialTracking(): (t: Tracking)
    ensures t.Keys == Settings.TrainingKeys
    ensures forall k :: k in t ==> t[k] == ZeroStats
    ensures forall k :: k in t ==> t[k].taskCount == 0 && Consistent(t[k])
  {
    map k | k in Settings.TrainingKeys :: ZeroStats
  }

  /** `load_tracking`: the stored map, or the defaults when the file does not exist. */
  function LoadTracking(stored: Option<Tracking>): (t: Tracking)
    ensures stored.None? ==> t == InitialTracking()
    ensures stored.Some? ==> t == stored.value
  {
    stored.GetOr(InitialTracking())
  }

  /** `sum(scores) / 5 if len(scores) == 5 else 0`. */
  function AverageScore(scores: seq<real>): (avg: real)
    ensures |scores| != 5 ==> avg == 0.0
    ensures |scores| == 5 ==> avg * 5.0 == Sum(scores)
    ensures (forall k :: 0 <= k < |scores| ==> scores[k] >= 0.0) ==> avg >= 0.0
  {
    if |scores| == 5 then
      assert (forall k :: 0 <= k < |scores| ==> scores[k] >= 0.0) ==> Sum(scores) >= 0.0 by {
        if forall k :: 0 <= k < |scores| ==> scores[k] >= 0.0 {
          SumAtLeast(scores, 0.0);
        }
      }
      Sum(scores) / 5.0
    else 0.0
  }

  lemma {:induction false} SumAtLeast(xs: seq<real>, lo: real)
    requires forall k :: 0 <= k < |xs| ==> lo <= xs[k]
    ensures lo * |xs| as real <= Sum(xs)
  {
    if |xs| > 0 {
      SumAtLeast(xs[..|xs| - 1], lo);
    }
  }

  lemma {:induction false} SumAtMost(xs: seq<real>, hi: real)
    requires forall k :: 0 <= k < |xs| ==> xs[k] <= hi
    ensures Sum(xs) <= hi * |xs| as real
  {
    if |xs| > 0 {
      SumAtMost(xs[..|xs| - 1], hi);
    }
  }

  /** The average of five scores lies between any bounds that every score lies between, so five
      scores out of ten average to at most ten. */
  lemma AverageBetween(scores: seq<real>, lo: real, hi: real)
    requires |scores| == 5
    requires forall k :: 0 <= k < |scores| ==> lo <= scores[k] <= hi
    ensures lo <= AverageScore(scores) <= hi
  {
    SumAtLeast(scores, lo);
    SumAtMost(scores, hi);
  }

  /** The three evaluators: `run_impromptu_speaking`, `run_storytelling`, `run_conflict_resolution`. */
  datatype Skill = Impromptu | Storytelling | ConflictResolution

  /** The dictionary an evaluator returns; only the impromptu evaluator adds `success`. A
      feedback without `averageScore` is one `update_tracking` reads with its 0.0 default. */
  datatype Feedback = Feedback(challenge: string, evaluation: string, averageScore: Option<real>, success: Option<bool>)

  /** The language model's answer to a skill's critique prompt filled with a challenge and a response. */
  type Critic = (Skill, string, string) -> string

  /** One evaluator: ask the model for a critique and average the scores it wrote. */
  function RunSkill(skill: Skill, userInput: string, challenge: string, critic: Critic): (f: Feedback)
    ensures f.challenge == challenge && f.evaluation == critic(skill, challenge, userInput)
    ensures f.averageScore == Some(AverageScore(Scores.ExtractScores(f.evaluation)))
    ensures f.averageScore.Some? && f.averageScore.value >= 0.0
    ensures |Scores.ExtractScores(f.evaluation)| != 5 ==> f.averageScore == Some(0.0)
    ensures f.success.Some? <==> skill == Impromptu
  {
    var evaluation := critic(skill, challenge, userInput);
    var scores := Scores.ExtractScores(evaluation);
    var success := if skill == Impromptu then Some(true) else None;
    Feedback(challenge, evaluation, Some(AverageScore(scores)), success)
  }

  /** When every score the model wrote is out of ten, the recorded average is out of ten. */
  lemma RunSkillScoreOutOfTen(skill: Skill, userInput: string, challenge: string, critic: Critic)
    requires var scores := Scores.ExtractScores(critic(skill, challenge, userInput));
             forall k :: 0 <= k < |scores| ==> scores[k] <= 10.0
    ensures 0.0 <= RunSkill(skill, userInput, challenge, critic).averageScore.value <= 10.0
  {
    var scores := Scores.ExtractScores(critic(skill, challenge, userInput));
    if |scores| == 5 {
      AverageBetween(scores, 0.0, 10.0);
    }
  }

  /** What `get_random_training_prompt` returns. */
  datatype TrainingPrompt = TrainingPrompt(challenge: string, timeLimitSeconds: int, instructions: string)

  /** The fallback for a module with no prompts. */
  const NoPrompts: TrainingPrompt :=
    TrainingPrompt("\U{26A0} No prompts available for this module.", 0, "No challenge available.")

  const TimeLimitSeconds: nat := 60

  /** A drawn prompt and the tracking map as saved afterwards. */
  datatype Drawn = Drawn(prompt: TrainingPrompt, tracking: Tracking)

  /** `get_random_training_prompt`. `pick` stands for `random.choice`: it draws
      `topics[pick % len(topics)]`. Indexing a bare template string by `"topics"` raises
      TypeError; a configured module missing from the tracking map raises KeyError. */
  function GetRandomTrainingPrompt(moduleName: string, prompts: map<string, Settings.PromptEntry>,
                                   tracking: Tracking, pick: nat): (r: Result<Drawn>)
    ensures var key := ModuleKey(moduleName);
            key !in prompts || (prompts[key].Training? && prompts[key].topics == []) ==>
              r == Returned(Drawn(NoPrompts, tracking))
    ensures var key := ModuleKey(moduleName);
            key in prompts && prompts[key].Template? ==> r.Crashed? && r.error.TypeError?
    ensures var key := ModuleKey(moduleName);
            key in prompts && prompts[key].Training? && prompts[key].topics != [] ==>
              if key !in tracking then r == Crashed(KeyError(key))
              else
                && r.Returned?
                && r.value.prompt.challenge in prompts[key].topics
                && r.value.prompt.timeLimitSeconds == TimeLimitSeconds
                && r.value.prompt.instructions == prompts[key].before + NatToString(TimeLimitSeconds) + prompts[key].after
  {
    var key := ModuleKey(moduleName);
    if key !in prompts then Returned(Drawn(NoPrompts, tracking))
    else
      match prompts[key]
      case Template => Crashed(TypeError("string indices must be integers"))
      case Training(topics, before, after) =>
        if topics == [] then Returned(Drawn(NoPrompts, tracking))
        else if key !in tracking then Crashed(KeyError(key))
        else
          var challenge := topics[pick % |topics|];
          var stats := tracking[key];
          var prompt := TrainingPrompt(challenge, TimeLimitSeconds, before + NatToString(TimeLimitSeconds) + after);
          Returned(Drawn(prompt, tracking[key := stats.(taskCount := stats.taskCount + 1)]))
  }

  /** Drawing a challenge counts one task for the drawn module and changes nothing else: the
      other modules, and the attempts, average and history of the drawn one, stay as they were. */
  lemma DrawCountsOneTask(moduleName: string, prompts: map<string, Settings.PromptEntry>, tracking: Tracking, pick: nat)
    requires GetRandomTrainingPrompt(moduleName, prompts, tracking, pick).Returned?
    requires GetRandomTrainingPrompt(moduleName, prompts, tracking, pick).value.prompt != NoPrompts
    ensures var key := ModuleKey(moduleName);
            var after := GetRandomTrainingPrompt(moduleName, prompts, tracking, pick).value.tracking;
            && key in tracking && after.Keys == tracking.Keys
            && (forall k :: k in tracking && k != key ==> after[k] == tracking[k])
            && after[key].taskCount == tracking[key].taskCount + 1
            && after[key].(taskCount := tracking[key].taskCount) == tracking[key]
  {
  }

  /** `random.choice` can return every topic: the topic at index i is drawn by `pick == i`. */
  lemma EveryTopicCanBeDrawn(moduleName: string, prompts: map<string, Settings.PromptEntry>, tracking: Tracking, i: nat)
    requires ModuleKey(moduleName) in prompts && ModuleKey(moduleName) in tracking
    requires prompts[ModuleKey(moduleName)].Training? && i < |prompts[ModuleKey(moduleName)].topics|
    ensures GetRandomTrainingPrompt(moduleName, prompts, tracking, i).Returned?
    ensures GetRandomTrainingPrompt(moduleName, prompts, tracking, i).value.prompt.challenge == prompts[ModuleKey(moduleName)].topics[i]
  {
  }

  /** `update_tracking`: one more attempt for the moduleName, the running average moved to take in
      the new score (the feedback's, or 0.0 when it has none), and one history entry appended. */
  function UpdateTracking(moduleName: string, challenge: string, userInput: string, feedback: Feedback,
                          tracking: Tracking): (r: Result<Tracking>)
    ensures ModuleKey(moduleName) !in tracking ==> r == Crashed(KeyError(ModuleKey(moduleName)))
    ensures ModuleKey(moduleName) in tracking ==> (r.Crashed? <==> tracking[ModuleKey(moduleName)].attempts == -1)
    ensures r.Returned? ==>
              var key := ModuleKey(moduleName);
              var before := tracking[key];
              var after := if key in r.value then r.value[key] else before;
              var score := feedback.averageScore.GetOr(0.0);
              && r.value.Keys == tracking.Keys
              && key in r.value
              && (forall k :: k in tracking && k != key ==> r.value[k] == tracking[k])
              && after.taskCount == before.taskCount
              && after.attempts == before.attempts + 1
              && after.averageScore * after.attempts as real == before.averageScore * before.attempts as real + score
              && after.history == before.history + [Attempt(challenge, userInput, feedback.evaluation, score)]
  {
    var key := ModuleKey(moduleName);
    if key !in tracking then Crashed(KeyError(key))
    else
      var stats := tracking[key];
      var attempts := stats.attempts + 1;
      var score := feedback.averageScore.GetOr(0.0);
      if attempts == 0 then Crashed(ZeroDivisionError)
      else
        var average := (stats.averageScore * (attempts - 1) as real + score) / attempts as real;
        var entry := Attempt(challenge, userInput, feedback.evaluation, score);
        Returned(tracking[key := ModuleStats(stats.taskCount, attempts, average, stats.history + [entry])])
  }

  /** A consistent record never makes the update divide by zero, and stays consistent. */
  lemma UpdateKeepsConsistent(moduleName: string, challenge: string, userInput: string, feedback: Feedback, tracking: Tracking)
    requires ModuleKey(moduleName) in tracking && Consistent(tracking[ModuleKey(moduleName)])
    ensures UpdateTracking(moduleName, challenge, userInput, feedback, tracking).Returned?
    ensures Consistent(UpdateTracking(moduleName, challenge, userInput, feedback, tracking).value[ModuleKey(moduleName)])
  {
    var key := ModuleKey(moduleName);
    var before := tracking[key];
    var after := UpdateTracking(moduleName, challenge, userInput, feedback, tracking).value[key];
    assert ScoresOf(after.history)[..|before.history|] == ScoresOf(before.history) by {
      assert after.history[..|before.history|] == before.history;
      ScoresOfPrefix(after.history, |before.history|);
    }
  }

  lemma {:induction false} ScoresOfPrefix(history: seq<Attempt>, n: nat)
    requires n <= |history|
    ensures ScoresOf(history)[..n] == ScoresOf(history[..n])
  {
    assert ScoresOf(history)[..n] == ScoresOf(history[..n]) by {
      var a := ScoresOf(history)[..n];
      var b := ScoresOf(history[..n]);
      assert |a| == |b|;
      forall k | 0 <= k < n ensures a[k] == b[k] {
      }
    }
  }

  /** One recorded attempt in a run of several. */
  datatype Submission = Submission(challenge: string, userInput: string, feedback: Feedback)

  /** `update_tracking` called for each submission in turn, stopping at the first exception. */
  function Replay(moduleName: string, submissions: seq<Submission>, tracking: Tracking): Result<Tracking> {
    if |submissions| == 0 then Returned(tracking)
    else
      var last := submissions[|submissions| - 1];
      match Replay(moduleName, submissions[..|submissions| - 1], tracking)
      case Crashed(e) => Crashed(e)
      case Returned(t) => UpdateTracking(moduleName, last.challenge, last.userInput, last.feedback, t)
  }

  function Entries(submissions: seq<Submission>): (entries: seq<Attempt>)
    ensures |entries| == |submissions|
  {
    if |submissions| == 0 then []
    else
      var s := submissions[|submissions| - 1];
      Entries(submissions[..|submissions| - 1]) + [Attempt(s.challenge, s.userInput, s.feedback.evaluation, s.feedback.averageScore.GetOr(0.0))]
  }

  /** Replaying submissions on a consistent record never raises, appends one history entry per
      submission in order, and keeps the record consistent. */
  lemma {:induction false} ReplayKeepsConsistent(moduleName: string, submissions: seq<Submission>, tracking: Tracking)
    requires ModuleKey(moduleName) in tracking && Consistent(tracking[ModuleKey(moduleName)])
    ensures Replay(moduleName, submissions, tracking).Returned?
    ensures var t := Replay(moduleName, submissions, tracking).value;
            && ModuleKey(moduleName) in t
            && Consistent(t[ModuleKey(moduleName)])
            && t[ModuleKey(moduleName)].history == tracking[ModuleKey(moduleName)].history + Entries(submissions)
  {
    var key := ModuleKey(moduleName);
    if |submissions| > 0 {
      var init := submissions[..|submissions| - 1];
      var last := submissions[|submissions| - 1];
      ReplayKeepsConsistent(moduleName, init, tracking);
      var t := Replay(moduleName, init, tracking).value;
      UpdateKeepsConsistent(moduleName, last.challenge, last.userInput, last.feedback, t);
    }
  }

  /** Starting from the defaults, a module's average after n > 0 attempts is the mean of the n
      recorded scores. */
  lemma AverageIsMeanOfAttempts(moduleName: string, submissions: seq<Submission>)
    requires ModuleKey(moduleName) in Settings.TrainingKeys && |submissions| > 0
    ensures Replay(moduleName, submissions, InitialTracking()).Returned?
    ensures var stats := Replay(moduleName, submissions, InitialTracking()).value[ModuleKey(moduleName)];
            stats.averageScore == Sum(ScoresOf(Entries(submissions))) / |submissions| as real
  {
    var key := ModuleKey(moduleName);
    var init := InitialTracking();
    assert init[key] == ZeroStats;
    ReplayKeepsConsistent(moduleName, submissions, init);
    var stats := Replay(moduleName, submissions, init).value[key];
    assert stats.history == Entries(submissions);
    ConsistentIsMean(stats);
  }

  /** A consistent record with at least one attempt holds the mean of its recorded scores. */
  lemma ConsistentIsMean(stats: ModuleStats)
    requires Consistent(stats) && stats.attempts > 0
    ensures stats.averageScore == Sum(ScoresOf(stats.history)) / |stats.history| as real
  {
    DivideBack(stats.averageScore, stats.attempts as real, Sum(ScoresOf(stats.history)));
  }

  lemma DivideBack(x: real, n: real, total: real)
    requires n > 0.0 && x * n == total
    ensures x == total / n
  {
  }

  /** Each skill module is configured with a non-empty topic list. */
  lemma SkillModulesHaveTopics(key: string)
    requires key in Settings.TrainingKeys
    ensures key in Settings.Prompts && Settings.Prompts[key].Training? && Settings.Prompts[key].topics != []
  {
  }

  /** Asking for the presentation module's prompt (display name "Presentation Assessment") raises instead of returning the fallback,
      because its PROMPTS value is a plain string. */
  lemma PresentationPromptRaises(moduleName: string, tracking: Tracking, pick: nat)
    requires ModuleKey(moduleName) == Settings.PresentationKey
    ensures GetRandomTrainingPrompt(moduleName, Settings.Prompts, tracking, pick).Crashed?
    ensures GetRandomTrainingPrompt(moduleName, Settings.Prompts, tracking, pick).error.TypeError?
  {
    assert Settings.PresentationKey in Settings.Prompts && Settings.Prompts[Settings.PresentationKey].Template?;
  }
}
