/** The training prompts of `config/settings.py` (PROMPTS) as data: for each skill module its
    topic list and its instruction template, which holds one `{time_limit}` placeholder and no
    other braces, so it is stored as the text before and after the placeholder. The critique
    prompts are not stored: the evaluator that reads them is a parameter of the model. The
    module also records that PROMPTS["presentation_assessment"] is reassigned to a plain
    template string after the dictionary is built. */
module Settings {

  /** A value of PROMPTS: a skill module's record, or a bare template string. */
  datatype PromptEntry =
    | Training(topics: seq<string>, before: string, after: string)
    | Template

  /** The `{time_limit}` instructions share this opening. */
  const InstructionsOpening: string := "\U{23F3} **You have "

  const ImpromptuTopics: seq<string> := [
    "The most important quality in a leader",
    "How technology has changed the way we communicate",
    "The value of failure in personal growth",
    "Why empathy is essential in today\'s world",
    "The role of education in society",
    "The impact of social media on relationships",
    "The importance of work-life balance",
    "How creativity impacts problem-solving",
    "The future of remote work",
    "Why continuous learning matters",
    "The most significant challenge facing your generation",
    "A time when you had to adapt to unexpected change",
    "The role of art in society",
    "How diversity strengthens communities",
    "The ethical implications of artificial intelligence",
    "The importance of environmental sustainability",
    "How to build effective teams",
    "The impact of digital privacy concerns",
    "What defines success in life",
    "The value of mentorship"
  ]

  const ImpromptuClosing: string :=
    " seconds!** Countdown starts soon! \U{1F680}\n\n\U{1F525} **Challenge:** Speak confidently and structure your thoughts well.\n\n\U{1F3AF} **Tips:** Use **real-life examples**, stay **concise**, and be **engaging**.\n\n\U{1F3C6} **Evaluation Criteria:** Clarity, fluency, structure, and persuasiveness."

  const StorytellingTopics: seq<string> := [
    "Tell a short story about an unexpected adventure.",
    "Share a fictional story about overcoming fear."
  ]

  const StorytellingClosing: string :=
    " seconds!** Countdown starts soon! \U{1F680}\n\n\U{1F525} **Challenge:** Tell a captivating story based on the prompt.\n\n\U{1F3AF} **Tips:** Focus on **narrative flow**, **character depth**, and **audience engagement**.\n\n\U{1F3C6} **Evaluation Criteria:** Narrative structure, character development, emotional engagement, creativity, and delivery."

  const ConflictResolutionTopics: seq<string> := [
    "Your teammate is frustrated with missed deadlines. How do you respond?",
    "You and your friend disagree about a shared expense. Resolve politely."
  ]

  const ConflictResolutionClosing: string :=
    " seconds!** Countdown starts soon! \U{1F680}\n\n\U{1F525} **Challenge:** Propose a resolution to the given conflict scenario.\n\n\U{1F3AF} **Tips:** Demonstrate **empathy**, **active listening**, and **constructive dialogue**.\n\n\U{1F3C6} **Evaluation Criteria:** Empathy, problem-solving, communication clarity, persuasiveness, and resolution effectiveness."

  /** The keys under which the three skill modules are stored. */
  const ImpromptuKey: string := "impromptu_speaking"
  const StorytellingKey: string := "storytelling"
  const ConflictResolutionKey: string := "conflict_resolution"
  const PresentationKey: string := "presentation_assessment"

  const TrainingKeys: set<string> := {ImpromptuKey, StorytellingKey, ConflictResolutionKey}

  /** PROMPTS after the module has been imported. */
  const Prompts: map<string, PromptEntry> := map[
    ImpromptuKey := Training(ImpromptuTopics, InstructionsOpening, ImpromptuClosing),
    StorytellingKey := Training(StorytellingTopics, InstructionsOpening, StorytellingClosing),
    ConflictResolutionKey := Training(ConflictResolutionTopics, InstructionsOpening, ConflictResolutionClosing),
    PresentationKey := Template
  ]
}
