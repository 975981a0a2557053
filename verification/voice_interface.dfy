/** The audio-to-text pipeline of `src/voice_interface.py`: validate and convert the input with
    ffmpeg, denoise it, split it into five-second chunks, transcribe each chunk with Whisper and
    merge the texts. Every external tool is an oracle value the caller supplies: ffmpeg's exit,
    whether noise reduction succeeded, the cleaned audio's length as pydub reads it, whether
    Whisper is installed, whether loading its model raises, and what it returns for each chunk. */
module VoiceInterface {
  import opened Outcomes
  import opened Text
  import Chunking

  /** The file `TEMP_DIR / (stem + ".wav")` in the pipeline's temporary directory. */
  datatype TempFile = TempFile(stem: string)

  /** The input file as the filesystem reports it: its stem, whether it exists, and its size. */
  datatype SourceFile = SourceFile(stem: string, present: bool, sizeBytes: nat)

  /** What running `ffmpeg` did: exited with a code, was not found on PATH, or raised otherwise. */
  datatype Ffmpeg = Exited(code: int) | NotInstalled | Failed(reason: string)

  /** `ensure_valid_audio`: a missing or empty input is refused before ffmpeg runs; otherwise
      the input is converted to 16 kHz mono PCM at `<stem>_converted.wav`, and any ffmpeg
      failure refuses it too. */
  function EnsureValidAudio(src: SourceFile, ffmpeg: Ffmpeg): (r: Option<TempFile>)
    ensures !src.present || src.sizeBytes == 0 ==> r == None
    ensures r.Some? <==> src.present && src.sizeBytes > 0 && ffmpeg == Exited(0)
    ensures r.Some? ==> r.value.stem == src.stem + "_converted"
  {
    if !src.present then None
    else if src.sizeBytes == 0 then None
    else
      match ffmpeg
      case Exited(code) => if code != 0 then None else Some(TempFile(src.stem + "_converted"))
      case NotInstalled => None
      case Failed(_) => None
  }

  /** `preprocess_audio`: stationary noise reduction written to `<stem>_cleaned.wav`;
      any exception from reading, reducing or writing gives None. */
  function PreprocessAudio(input: TempFile, denoised: bool): (r: Option<TempFile>)
    ensures r.Some? <==> denoised
    ensures r.Some? ==> r.value.stem == input.stem + "_cleaned"
  {
    if denoised then Some(TempFile(input.stem + "_cleaned")) else None
  }

  /** One exported chunk: the slice of the cleaned audio it holds and the file it was written to. */
  datatype Chunk = Chunk(span: Chunking.Span, file: TempFile)

  /** The file chunk number `index` of `cleaned` is exported to: `<stem>_chunk_<index>.wav`. */
  function ChunkFile(cleaned: TempFile, index: nat): TempFile {
    TempFile(cleaned.stem + "_chunk_" + NatToString(index))
  }

  /** `split_audio_into_chunks`: `audio` is the length pydub reads, or None when loading or
      exporting raises, in which case the whole list is dropped. */
  function SplitAudioIntoChunks(cleaned: TempFile, audio: Option<nat>, chunkMs: int): (chunks: seq<Chunk>)
    ensures audio.None? ==> chunks == []
    ensures audio.Some? ==> |chunks| == |Chunking.Plan(audio.value, chunkMs)|
    ensures audio.Some? ==> forall k :: 0 <= k < |chunks| ==>
              chunks[k].span == Chunking.Plan(audio.value, chunkMs)[k] && chunks[k].file == ChunkFile(cleaned, k)
  {
    match audio
    case None => []
    case Some(duration) =>
      var plan := Chunking.Plan(duration, chunkMs);
      seq(|plan|, k requires 0 <= k < |plan| => Chunk(plan[k], ChunkFile(cleaned, plan[k].index)))
  }

  /** Distinct chunks go to distinct files, so no export overwrites another. */
  lemma ChunkFilesDistinct(cleaned: TempFile, audio: Option<nat>, chunkMs: int, i: nat, j: nat)
    requires i < j < |SplitAudioIntoChunks(cleaned, audio, chunkMs)|
    ensures SplitAudioIntoChunks(cleaned, audio, chunkMs)[i].file != SplitAudioIntoChunks(cleaned, audio, chunkMs)[j].file
  {
    var prefix := cleaned.stem + "_chunk_";
    var a := NatToString(i);
    var b := NatToString(j);
    if prefix + a == prefix + b {
      assert a == (prefix + a)[|prefix|..];
      assert b == (prefix + b)[|prefix|..];
      NatToStringInjective(i, j);
    }
  }

  /** Audio of zero length yields no chunks. */
  lemma ZeroDurationHasNoChunks(cleaned: TempFile, chunkMs: int)
    ensures SplitAudioIntoChunks(cleaned, Some(0), chunkMs) == []
  {
    if chunkMs > 0 {
      Chunking.PlanTiles(0, chunkMs);
    }
  }

  /** What Whisper's `transcribe` does for one chunk: returns a text, or raises. */
  datatype AsrResult = Heard(text: string) | Raised(message: string)

  /** Whether `whisper.load_model` returns a model or raises. */
  datatype LoadResult = LoadOk | LoadRaised(message: string)

  /** The module-level `_stt_model`. */
  datatype Handle = Unloaded | Loaded

  /** Everything the pipeline learns from outside for one call of `transcribe_audio`. */
  datatype AudioEnv = AudioEnv(
    ffmpeg: Ffmpeg,
    denoised: bool,
    whisperInstalled: bool,
    load: LoadResult,
    cleanedMs: Option<nat>,
    asr: TempFile -> AsrResult)

  /** The outcome of `transcribe_audio`, before it is turned into the returned string. */
  datatype Transcription =
    | Speech(text: string)
    | NoSpeech
    | InvalidAudio
    | NoiseReductionFailed
    | SplitFailed
    | AsrFailed(message: string)
    | Unavailable

  /** The prefix by which callers tell a failure from a transcript. */
  const ErrorMark := "Error:"
  const InvalidAudioMessage := ErrorMark + " Could not process the audio file. Please check the file format and ensure FFmpeg is installed."
  const NoiseReductionMessage := ErrorMark + " Could not pre-process the audio file to remove noise."
  const SplitMessage := ErrorMark + " Could not split audio into chunks for transcription."
  const NoSpeechMessage := "No speech detected in the audio."
  const AsrErrorPrefix := "Error transcribing audio: "
  /** Two sentences: what is missing, then what to do about it. */
  const UnavailableMessage := "Transcription service not available. " + "Please install Whisper or configure an alternative service."

  /** The string `transcribe_audio` returns for each outcome. Exactly the three stage failures
      before transcription, and a transcript that happens to begin so, start with "Error:". */
  function Render(t: Transcription): (r: string)
    ensures t.Speech? ==> r == t.text
    ensures t.AsrFailed? ==> StartsWith(r, AsrErrorPrefix) && r[|AsrErrorPrefix|..] == t.message
    ensures StartsWith(r, ErrorMark) <==>
              t.InvalidAudio? || t.NoiseReductionFailed? || t.SplitFailed? || (t.Speech? && StartsWith(t.text, ErrorMark))
  {
    match t
    case Speech(text) => text
    case NoSpeech => assert NoSpeechMessage[..6][0] == 'N'; NoSpeechMessage
    case InvalidAudio => assert InvalidAudioMessage[..6] == ErrorMark; InvalidAudioMessage
    case NoiseReductionFailed => assert NoiseReductionMessage[..6] == ErrorMark; NoiseReductionMessage
    case SplitFailed => assert SplitMessage[..6] == ErrorMark; SplitMessage
    case AsrFailed(message) =>
      var r := AsrErrorPrefix + message;
      assert r[..6][5] == ' ';
      assert r[..|AsrErrorPrefix|] == AsrErrorPrefix && r[|AsrErrorPrefix|..] == message;
      r
    case Unavailable => assert UnavailableMessage[0] == 'T'; UnavailableMessage
  }

  /** The chunk texts Whisper produced, stripped, with empty ones dropped: the reference for what
      the transcription loop collects when no chunk raises. */
  function Kept(texts: seq<string>): (kept: seq<string>)
    ensures |kept| <= |texts|
    ensures forall k :: 0 <= k < |kept| ==> kept[k] != [] && Trimmed(kept[k])
  {
    if |texts| == 0 then []
    else (if Strip(texts[0]) != [] then [Strip(texts[0])] else []) + Kept(texts[1..])
  }

  /** A single text is kept stripped, or dropped when it strips to nothing. */
  lemma KeptOne(t: string)
    ensures Kept([t]) == if Strip(t) == [] then [] else [Strip(t)]
  {
    assert [t][1..] == [];
  }

  /** Keeping distributes over concatenation: each text is decided on its own, in order. */
  lemma {:induction false} KeptAppend(a: seq<string>, b: seq<string>)
    ensures Kept(a + b) == Kept(a) + Kept(b)
  {
    if |a| > 0 {
      assert (a + b)[0] == a[0];
      assert (a + b)[1..] == a[1..] + b;
      KeptAppend(a[1..], b);
    } else {
      assert a + b == b;
    }
  }

  /** The text a chunk contributes before stripping; a chunk that raised has none. */
  function TextOf(o: AsrResult): string {
    if o.Heard? then o.text else []
  }

  function Texts(outs: seq<AsrResult>): (texts: seq<string>)
    ensures |texts| == |outs|
    ensures forall k :: 0 <= k < |outs| ==> texts[k] == TextOf(outs[k])
  {
    if |outs| == 0 then [] else [TextOf(outs[0])] + Texts(outs[1..])
  }

  /** Chunk `k` is the first whose transcription raised. */
  predicate RaisesFirstAt(outs: seq<AsrResult>, k: nat) {
    k < |outs| && outs[k].Raised? && forall j :: 0 <= j < k ==> outs[j].Heard?
  }

  /** What the loop over the chunks ends with: every chunk heard, or the first chunk that raised. */
  datatype Collected = AllHeard(texts: seq<string>) | FirstRaise(index: nat, message: string)

  /** The per-chunk loop of `transcribe_audio`: texts are stripped and kept when non-empty, in
      chunk order; the first chunk that raises ends the loop. */
  function Collect(outs: seq<AsrResult>): (r: Collected)
    ensures r.AllHeard? <==> forall k :: 0 <= k < |outs| ==> outs[k].Heard?
    ensures r.FirstRaise? ==> r.index < |outs| && outs[r.index] == Raised(r.message) &&
                              forall j :: 0 <= j < r.index ==> outs[j].Heard?
    ensures r.AllHeard? ==> r.texts == Kept(Texts(outs))
  {
    if |outs| == 0 then AllHeard([])
    else
      match outs[0]
      case Raised(m) => FirstRaise(0, m)
      case Heard(t) =>
        match Collect(outs[1..])
        case FirstRaise(k, m) => FirstRaise(k + 1, m)
        case AllHeard(rest) =>
          assert Texts(outs)[1..] == Texts(outs[1..]);
          AllHeard((if Strip(t) != [] then [Strip(t)] else []) + rest)
  }

  /** Once a chunk raises, what later chunks would have returned makes no difference. */
  lemma {:induction false} CollectStopsAtFirstRaise(outs: seq<AsrResult>, other: seq<AsrResult>, k: nat)
    requires k < |outs| && k < |other| && outs[k].Raised?
    requires outs[..k + 1] == other[..k + 1]
    ensures Collect(outs) == Collect(other)
  {
    assert outs[0] == other[0];
    if k > 0 && outs[0].Heard? {
      assert outs[1..][..k] == other[1..][..k];
      CollectStopsAtFirstRaise(outs[1..], other[1..], k - 1);
    }
  }

  /** `" ".join(texts).strip()`, or the no-speech sentinel when that is empty. */
  function Merge(texts: seq<string>): (t: Transcription)
    ensures t.Speech? || t == NoSpeech
    ensures t.Speech? ==> t.text != [] && Trimmed(t.text)
  {
    var full := Strip(Join(texts, " "));
    if full == [] then NoSpeech else Speech(full)
  }

  /** For the texts the loop keeps, the final strip changes nothing: the transcript is the kept
      texts joined by single spaces, and it is the no-speech sentinel exactly when nothing was kept. */
  lemma MergeKept(texts: seq<string>)
    requires forall k :: 0 <= k < |texts| ==> texts[k] != [] && Trimmed(texts[k])
    ensures texts == [] ==> Merge(texts) == NoSpeech
    ensures texts != [] ==> Merge(texts) == Speech(Join(texts, " "))
  {
    JoinTrimmed(texts);
    StripTrimmed(Join(texts, " "));
  }

  /** One call of `transcribe_audio`: its outcome, the model handle afterwards, whether this call
      loaded the model, and the temporary files it wrote, in the order it wrote them. */
  datatype Run = Run(outcome: Transcription, handle: Handle, loaded: bool, artifacts: seq<TempFile>)

  /** The outputs of Whisper for each chunk, in chunk order. */
  function Responses(chunks: seq<Chunk>, asr: TempFile -> AsrResult): (outs: seq<AsrResult>)
    ensures |outs| == |chunks|
    ensures forall k :: 0 <= k < |chunks| ==> outs[k] == asr(chunks[k].file)
  {
    seq(|chunks|, k requires 0 <= k < |chunks| => asr(chunks[k].file))
  }

  function Files(chunks: seq<Chunk>): (files: seq<TempFile>)
    ensures |files| == |chunks|
    ensures forall k :: 0 <= k < |chunks| ==> files[k] == chunks[k].file
  {
    seq(|chunks|, k requires 0 <= k < |chunks| => chunks[k].file)
  }

  /** The outcome once the audio is split: the first Whisper exception, or the merged texts. */
  function ChunksOutcome(chunks: seq<Chunk>, asr: TempFile -> AsrResult): (t: Transcription)
    ensures (forall k :: 0 <= k < |chunks| ==> asr(chunks[k].file).Heard?) ==>
              t == Merge(Kept(Texts(Responses(chunks, asr))))
    ensures forall k: nat :: RaisesFirstAt(Responses(chunks, asr), k) ==> t == AsrFailed(asr(chunks[k].file).message)
    ensures t.Speech? ==> t.text != [] && Trimmed(t.text)
  {
    var outs := Responses(chunks, asr);
    var c := Collect(outs);
    assert forall k: nat :: RaisesFirstAt(outs, k) ==> c.FirstRaise? && k == c.index && c.message == asr(chunks[k].file).message;
    match c
    case FirstRaise(_, m) => AsrFailed(m)
    case AllHeard(texts) => Merge(texts)
  }

  /** The cleaned file of a source: `<stem>_converted_cleaned.wav`. */
  function CleanedFile(src: SourceFile): TempFile {
    TempFile(src.stem + "_converted" + "_cleaned")
  }

  /** Once validation, noise reduction and loading have succeeded, the outcome is decided by the
      chunks. Callers use it to reason about the chunk stage without unfolding `TranscribeAudio`. */
  lemma ReachesChunks(src: SourceFile, env: AudioEnv, handle: Handle)
    requires EnsureValidAudio(src, env.ffmpeg).Some? && env.denoised && env.whisperInstalled
    requires handle == Loaded || env.load == LoadOk
    ensures var chunks := SplitAudioIntoChunks(CleanedFile(src), env.cleanedMs, Chunking.ChunkDurationMs);
            var run := TranscribeAudio(src, env, handle);
            && run.handle == Loaded
            && run.loaded == (handle == Unloaded)
            && run.outcome == (if chunks == [] then SplitFailed else ChunksOutcome(chunks, env.asr))
  {
  }

  /** `transcribe_audio`. The stages run in order and the first failure decides the outcome:
      invalid input, then failed noise reduction, then Whisper missing; the model is loaded only
      while the handle is unset, and before the audio is split. */
  function TranscribeAudio(src: SourceFile, env: AudioEnv, handle: Handle): (run: Run)
    ensures run.outcome == InvalidAudio <==> EnsureValidAudio(src, env.ffmpeg).None?
    ensures run.outcome == InvalidAudio ==> run.artifacts == []
    ensures run.outcome == NoiseReductionFailed <==> EnsureValidAudio(src, env.ffmpeg).Some? && !env.denoised
    ensures run.outcome == Unavailable <==> EnsureValidAudio(src, env.ffmpeg).Some? && env.denoised && !env.whisperInstalled
    ensures handle == Loaded ==> run.handle == Loaded && !run.loaded
    ensures run.loaded ==> handle == Unloaded && run.handle == Loaded && env.load == LoadOk
    ensures run.handle == Loaded <==> handle == Loaded || run.loaded
    ensures EnsureValidAudio(src, env.ffmpeg).Some? && env.denoised && env.whisperInstalled &&
            handle == Unloaded && env.load.LoadRaised? ==>
              run.outcome == AsrFailed(env.load.message) && run.handle == Unloaded && !run.loaded
    ensures run.outcome.Speech? ==> run.outcome.text != [] && Trimmed(run.outcome.text)
  {
    match EnsureValidAudio(src, env.ffmpeg)
    case None => Run(InvalidAudio, handle, false, [])
    case Some(converted) =>
      match PreprocessAudio(converted, env.denoised)
      case None => Run(NoiseReductionFailed, handle, false, [converted])
      case Some(cleaned) =>
        if !env.whisperInstalled then Run(Unavailable, handle, false, [converted, cleaned])
        else if handle == Unloaded && env.load.LoadRaised? then
          Run(AsrFailed(env.load.message), Unloaded, false, [converted, cleaned])
        else
          var loaded := handle == Unloaded;
          var chunks := SplitAudioIntoChunks(cleaned, env.cleanedMs, Chunking.ChunkDurationMs);
          var written := [converted, cleaned] + Files(chunks);
          if chunks == [] then Run(SplitFailed, Loaded, loaded, written)
          else Run(ChunksOutcome(chunks, env.asr), Loaded, loaded, written)
  }

  /** The files a call writes are, in order, a prefix of: the converted file, the cleaned file,
      then every chunk file. */
  lemma ArtifactsAreInOrder(src: SourceFile, env: AudioEnv, handle: Handle)
    ensures TranscribeAudio(src, env, handle).artifacts <=
              [TempFile(src.stem + "_converted"), CleanedFile(src)] +
              Files(SplitAudioIntoChunks(CleanedFile(src), env.cleanedMs, Chunking.ChunkDurationMs))
  {
  }

  /** Every file a call writes is named after the input: its stem starts `<stem>_converted`. */
  lemma ArtifactsAreTraceable(src: SourceFile, env: AudioEnv, handle: Handle)
    ensures forall a :: a in TranscribeAudio(src, env, handle).artifacts ==> StartsWith(a.stem, src.stem + "_converted")
  {
    var prefix := src.stem + "_converted";
    var cleaned := CleanedFile(src);
    var files := Files(SplitAudioIntoChunks(cleaned, env.cleanedMs, Chunking.ChunkDurationMs));
    var all := [TempFile(prefix), cleaned] + files;
    ArtifactsAreInOrder(src, env, handle);
    assert StartsWith(cleaned.stem, prefix) by {
      assert cleaned.stem[..|prefix|] == prefix;
    }
    forall a | a in all ensures StartsWith(a.stem, prefix) {
      if a in files {
        var k :| 0 <= k < |files| && files[k] == a;
        assert a.stem[..|prefix|] == prefix;
      }
    }
  }

  /** A cleaned clip of zero length cannot be split, so the call reports the split error. */
  lemma ZeroLengthAudioIsSplitError(src: SourceFile, env: AudioEnv, handle: Handle)
    requires EnsureValidAudio(src, env.ffmpeg).Some? && env.denoised && env.whisperInstalled
    requires handle == Loaded || env.load == LoadOk
    requires env.cleanedMs == Some(0)
    ensures TranscribeAudio(src, env, handle).outcome == SplitFailed
    ensures Render(TranscribeAudio(src, env, handle).outcome) == SplitMessage
  {
    var converted := TempFile(src.stem + "_converted");
    ZeroDurationHasNoChunks(TempFile(converted.stem + "_cleaned"), Chunking.ChunkDurationMs);
  }

  /** With Whisper missing, a valid clip is still converted and denoised (both files are
      written) but the call returns the unavailable sentinel and touches no chunk. */
  lemma UnavailableAfterConversion(src: SourceFile, env: AudioEnv, handle: Handle)
    requires src.present && src.sizeBytes > 0 && env.ffmpeg == Exited(0) && env.denoised
    requires !env.whisperInstalled
    ensures TranscribeAudio(src, env, handle).outcome == Unavailable
    ensures TranscribeAudio(src, env, handle).artifacts ==
              [TempFile(src.stem + "_converted"), TempFile(src.stem + "_converted_cleaned")]
  {
    assert src.stem + "_converted" + "_cleaned" == src.stem + "_converted_cleaned";
  }

  /** When every chunk is heard, the transcript is the kept chunk texts joined by single spaces
      in chunk order, or the no-speech sentinel when nothing was kept: never an empty string. */
  lemma TranscriptIsOrderedJoin(src: SourceFile, env: AudioEnv, handle: Handle)
    requires EnsureValidAudio(src, env.ffmpeg).Some? && env.denoised && env.whisperInstalled
    requires handle == Loaded || env.load == LoadOk
    requires var chunks := SplitAudioIntoChunks(CleanedFile(src), env.cleanedMs, Chunking.ChunkDurationMs);
             chunks != [] && forall k :: 0 <= k < |chunks| ==> env.asr(chunks[k].file).Heard?
    ensures var chunks := SplitAudioIntoChunks(CleanedFile(src), env.cleanedMs, Chunking.ChunkDurationMs);
            var kept := Kept(Texts(Responses(chunks, env.asr)));
            TranscribeAudio(src, env, handle).outcome == (if kept == [] then NoSpeech else Speech(Join(kept, " ")))
  {
    var chunks := SplitAudioIntoChunks(CleanedFile(src), env.cleanedMs, Chunking.ChunkDurationMs);
    var outs := Responses(chunks, env.asr);
    ReachesChunks(src, env, handle);
    assert TranscribeAudio(src, env, handle).outcome == ChunksOutcome(chunks, env.asr);
    var c := Collect(outs);
    assert c.AllHeard? by {
      forall k | 0 <= k < |outs| ensures outs[k].Heard? {
        assert outs[k] == env.asr(chunks[k].file);
      }
    }
    MergeKept(c.texts);
  }

  lemma ConcatAssoc(a: string, b: string, c: string)
    ensures a + (b + c) == a + b + c
  {
  }

  lemma SeqConsSplit<T>(xs: seq<T>)
    requires |xs| > 0
    ensures [xs[0]] + xs[1..] == xs
  {
  }

  /** Texts that are already stripped and non-empty are all kept, whole and in order. */
  lemma {:induction false} KeptWhole(texts: seq<string>)
    requires forall k :: 0 <= k < |texts| ==> texts[k] != [] && Trimmed(texts[k])
    ensures Kept(texts) == texts
  {
    if |texts| > 0 {
      var rest := texts[1..];
      assert forall k :: 0 <= k < |rest| ==> rest[k] == texts[k + 1];
      KeptWhole(rest);
      StripTrimmed(texts[0]);
      assert Kept(texts) == [texts[0]] + rest;
      SeqConsSplit(texts);
    }
  }

  /** Three heard chunks with stripped, non-empty texts are kept whole, in order. */
  lemma CollectThree(t0: string, t1: string, t2: string)
    requires t0 != [] && Trimmed(t0) && t1 != [] && Trimmed(t1) && t2 != [] && Trimmed(t2)
    ensures Collect([Heard(t0), Heard(t1), Heard(t2)]) == AllHeard([t0, t1, t2])
  {
    var outs := [Heard(t0), Heard(t1), Heard(t2)];
    var texts := [t0, t1, t2];
    assert forall k :: 0 <= k < |outs| ==> outs[k].Heard?;
    var heard := Texts(outs);
    assert heard[0] == t0 && heard[1] == t1 && heard[2] == t2;
    assert heard == texts;
    assert forall k :: 0 <= k < |texts| ==> texts[k] != [] && Trimmed(texts[k]);
    KeptWhole(texts);
  }

  lemma JoinThree(t0: string, t1: string, t2: string)
    ensures Join([t0, t1, t2], " ") == t0 + " " + t1 + " " + t2
  {
    assert Join([t2], " ") == t2;
    assert Join([t1, t2], " ") == t1 + " " + t2 by {
      assert [t1, t2][1..] == [t2];
    }
    assert Join([t0, t1, t2], " ") == t0 + " " + (t1 + " " + t2) by {
      assert [t0, t1, t2][1..] == [t1, t2];
    }
    ConcatAssoc(t0 + " ", t1 + " ", t2);
    ConcatAssoc(t0, " ", t1 + " " + t2);
    ConcatAssoc(t1, " ", t2);
  }

  /** The chunk files are named `<stem>_chunk_0`, `<stem>_chunk_1`, ... */
  lemma FirstChunkFileNames(cleaned: TempFile)
    ensures ChunkFile(cleaned, 0) == TempFile(cleaned.stem + "_chunk_0")
    ensures ChunkFile(cleaned, 1) == TempFile(cleaned.stem + "_chunk_1")
    ensures ChunkFile(cleaned, 2) == TempFile(cleaned.stem + "_chunk_2")
  {
    assert NatToString(0) == "0" && NatToString(1) == "1" && NatToString(2) == "2";
    ConcatAssoc(cleaned.stem, "_chunk_", "0");
    ConcatAssoc(cleaned.stem, "_chunk_", "1");
    ConcatAssoc(cleaned.stem, "_chunk_", "2");
  }

  /** The files of a twelve-second clip's three chunks. */
  lemma TwelveSecondChunkFiles(cleaned: TempFile)
    ensures var chunks := SplitAudioIntoChunks(cleaned, Some(12000), Chunking.ChunkDurationMs);
            Files(chunks) == [ChunkFile(cleaned, 0), ChunkFile(cleaned, 1), ChunkFile(cleaned, 2)]
  {
    Chunking.TwelveSecondsInFiveSecondChunks();
  }

  /** A twelve-second clip: chunks of 5 s, 5 s and 2 s, whose three texts come back joined in
      chunk order; the first call also loads the model. */
  lemma TwelveSecondClip(src: SourceFile, env: AudioEnv, t0: string, t1: string, t2: string)
    requires EnsureValidAudio(src, env.ffmpeg).Some? && env.denoised && env.whisperInstalled && env.load == LoadOk
    requires env.cleanedMs == Some(12000)
    requires t0 != [] && Trimmed(t0) && t1 != [] && Trimmed(t1) && t2 != [] && Trimmed(t2)
    requires env.asr(ChunkFile(CleanedFile(src), 0)) == Heard(t0)
    requires env.asr(ChunkFile(CleanedFile(src), 1)) == Heard(t1)
    requires env.asr(ChunkFile(CleanedFile(src), 2)) == Heard(t2)
    ensures TranscribeAudio(src, env, Unloaded).outcome == Speech(t0 + " " + t1 + " " + t2)
    ensures TranscribeAudio(src, env, Unloaded).loaded
  {
    TwelveSecondResponses(src, env, t0, t1, t2);
    ReachesChunks(src, env, Unloaded);
    CollectThree(t0, t1, t2);
    MergeKept([t0, t1, t2]);
    JoinThree(t0, t1, t2);
  }

  lemma TwelveSecondResponses(src: SourceFile, env: AudioEnv, t0: string, t1: string, t2: string)
    requires env.cleanedMs == Some(12000)
    requires env.asr(ChunkFile(CleanedFile(src), 0)) == Heard(t0)
    requires env.asr(ChunkFile(CleanedFile(src), 1)) == Heard(t1)
    requires env.asr(ChunkFile(CleanedFile(src), 2)) == Heard(t2)
    ensures Responses(SplitAudioIntoChunks(CleanedFile(src), env.cleanedMs, Chunking.ChunkDurationMs), env.asr)
              == [Heard(t0), Heard(t1), Heard(t2)]
  {
    var cleaned := CleanedFile(src);
    TwelveSecondChunkFiles(cleaned);
    var chunks := SplitAudioIntoChunks(cleaned, env.cleanedMs, Chunking.ChunkDurationMs);
    var files := Files(chunks);
    var outs := Responses(chunks, env.asr);
    assert outs[0] == env.asr(files[0]);
    assert outs[1] == env.asr(files[1]);
    assert outs[2] == env.asr(files[2]);
  }

  /** Loads of the model over a sequence of calls, each seeing the handle the previous one left. */
  function LoadCount(calls: seq<(SourceFile, AudioEnv)>, handle: Handle): nat
  {
    if |calls| == 0 then 0
    else
      var run := TranscribeAudio(calls[0].0, calls[0].1, handle);
      (if run.loaded then 1 else 0) + LoadCount(calls[1..], run.handle)
  }

  /** The shared model is loaded at most once over any sequence of calls, and never again once loaded. */
  lemma {:induction false} ModelLoadedAtMostOnce(calls: seq<(SourceFile, AudioEnv)>, handle: Handle)
    ensures LoadCount(calls, handle) <= 1
    ensures handle == Loaded ==> LoadCount(calls, handle) == 0
  {
    if |calls| > 0 {
      var run := TranscribeAudio(calls[0].0, calls[0].1, handle);
      ModelLoadedAtMostOnce(calls[1..], run.handle);
    }
  }

  /** What `process_voice_input` is given: a file path, or a recorded waveform that it first
      writes to `temp_recording_<seconds>.wav` (a WAV header alone is 44 bytes, so that file is
      never empty). */
  datatype VoiceInput = FromFile(src: SourceFile) | FromRecording(nowSeconds: nat)

  const WavHeaderBytes: nat := 44

  /** The file a recording is saved to: present, never empty, named after the second it was made. */
  function RecordingFile(nowSeconds: nat): (f: SourceFile)
    ensures f.present && f.sizeBytes > 0
    ensures StartsWith(f.stem, "temp_recording_")
  {
    SourceFile("temp_recording_" + NatToString(nowSeconds), true, WavHeaderBytes)
  }

  /** The dictionary `process_voice_input` returns, with the pipeline run behind it. */
  datatype VoiceReply = VoiceReply(success: bool, transcription: string, run: Run)

  /** The path `process_voice_input` hands to `transcribe_audio`: the given file, or the saved
      recording. */
  function InputFile(input: VoiceInput): (f: SourceFile)
    ensures input.FromFile? ==> f == input.src
    ensures input.FromRecording? ==> f.present && f.sizeBytes > 0 && StartsWith(f.stem, "temp_recording_")
  {
    match input
    case FromFile(src) => src
    case FromRecording(now) => RecordingFile(now)
  }

  /** Recordings made in different seconds are saved to different files. */
  lemma RecordingFilesDistinct(a: nat, b: nat)
    requires a != b
    ensures RecordingFile(a) != RecordingFile(b)
  {
    var p := "temp_recording_";
    if NatToString(a) == NatToString(b) {
      NatToStringInjective(a, b);
    }
    assert (p + NatToString(a))[|p|..] == NatToString(a);
    assert (p + NatToString(b))[|p|..] == NatToString(b);
  }

  /** `process_voice_input` as written: success is judged by the "Error:" prefix of the returned string. */
  function ProcessVoiceInput(input: VoiceInput, env: AudioEnv, handle: Handle): (reply: VoiceReply)
    ensures reply.run == TranscribeAudio(InputFile(input), env, handle)
    ensures reply.transcription == Render(reply.run.outcome)
    ensures reply.success <==> !StartsWith(reply.transcription, ErrorMark)
  {
    var run := TranscribeAudio(InputFile(input), env, handle);
    var text := Render(run.outcome);
    VoiceReply(!StartsWith(text, ErrorMark), text, run)
  }

  /** The Whisper error message never starts with "Error:": its sixth character is a space. */
  lemma AsrMessageLacksErrorMark(m: string)
    ensures !StartsWith(AsrErrorPrefix + m, ErrorMark)
  {
    assert (AsrErrorPrefix + m)[..6][5] == ' ';
  }

  /** As written, a Whisper exception while loading the model, whatever its message, and a
      missing Whisper are both reported as success, because neither message starts with "Error:". */
  lemma AsrFailureCountsAsSuccess(src: SourceFile, env: AudioEnv, m: string)
    requires EnsureValidAudio(src, env.ffmpeg).Some? && env.denoised
    requires env.whisperInstalled && env.load == LoadRaised(m)
    ensures ProcessVoiceInput(FromFile(src), env, Unloaded).run.outcome == AsrFailed(m)
    ensures ProcessVoiceInput(FromFile(src), env, Unloaded).success
    ensures ProcessVoiceInput(FromFile(src), env.(whisperInstalled := false), Unloaded).success
  {
    AsrMessageLacksErrorMark(m);
    assert UnavailableMessage[0] == 'T';
  }

  /** As written, a Whisper exception on a chunk is reported as success too. */
  lemma ChunkFailureCountsAsSuccess(src: SourceFile, env: AudioEnv, handle: Handle, k: nat)
    requires EnsureValidAudio(src, env.ffmpeg).Some? && env.denoised && env.whisperInstalled
    requires handle == Loaded || env.load == LoadOk
    requires RaisesFirstAt(Responses(SplitAudioIntoChunks(CleanedFile(src), env.cleanedMs, Chunking.ChunkDurationMs), env.asr), k)
    ensures var chunks := SplitAudioIntoChunks(CleanedFile(src), env.cleanedMs, Chunking.ChunkDurationMs);
            ProcessVoiceInput(FromFile(src), env, handle).run.outcome == AsrFailed(env.asr(chunks[k].file).message)
    ensures ProcessVoiceInput(FromFile(src), env, handle).success
  {
    var chunks := SplitAudioIntoChunks(CleanedFile(src), env.cleanedMs, Chunking.ChunkDurationMs);
    ReachesChunks(src, env, handle);
    assert chunks != [];
    AsrMessageLacksErrorMark(env.asr(chunks[k].file).message);
  }

  /** A failure of any stage of the pipeline. */
  predicate IsFailure(t: Transcription) {
    !(t.Speech? || t.NoSpeech?)
  }

  /** `process_voice_input` with success decided by the pipeline's outcome rather than the string prefix. */
  function ProcessVoiceInputChecked(input: VoiceInput, env: AudioEnv, handle: Handle): (reply: VoiceReply)
    ensures reply.transcription == Render(reply.run.outcome)
    ensures reply.success <==> !IsFailure(reply.run.outcome)
    ensures reply.run == TranscribeAudio(InputFile(input), env, handle)
  {
    var run := TranscribeAudio(InputFile(input), env, handle);
    VoiceReply(!IsFailure(run.outcome), Render(run.outcome), run)
  }

  /** The corrected flag agrees with the "Error:" convention on every outcome that follows it,
      and differs only on the two failure messages that do not. */
  lemma CheckedAgreesOnConventionalMessages(input: VoiceInput, env: AudioEnv, handle: Handle)
    ensures var t := TranscribeAudio(InputFile(input), env, handle).outcome;
            !t.AsrFailed? && !t.Unavailable? && !(t.Speech? && StartsWith(t.text, ErrorMark)) ==>
              ProcessVoiceInputChecked(input, env, handle).success == ProcessVoiceInput(input, env, handle).success
  {
    assert NoSpeechMessage[..6][0] == 'N';
  }
}
