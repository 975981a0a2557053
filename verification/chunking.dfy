/** The chunk plan of `split_audio_into_chunks`: `for i in range(0, duration_ms, chunk_duration_ms)`
    slices `audio[i:i + chunk_duration_ms]` and numbers it `i // chunk_duration_ms`. pydub clamps a
    slice that runs past the end of the audio, so the last chunk stops at the duration. */
module Chunking {

  /** CHUNK_DURATION_MS: the chunk length `transcribe_audio` asks for. */
  const ChunkDurationMs: int := 5000

  /** One slice `audio[start:end]`, exported as chunk number `index`. */
  datatype Span = Span(index: nat, start: nat, end: nat)

  function Min(a: int, b: int): int {
    if a <= b then a else b
  }

  lemma MulMonotone(a: int, b: int, c: nat)
    ensures a <= b ==> a * c <= b * c
  {
  }

  /** Euclidean division pinned down by its bounds: `t // size` is the `k` with `k * size <= t < (k + 1) * size`. */
  lemma DivIsUnique(t: nat, size: nat, k: nat)
    requires size > 0
    ensures k * size <= t < (k + 1) * size <==> k == t / size
  {
    var q := t / size;
    assert t == q * size + t % size;
    MulMonotone(k + 1, q, size);
    MulMonotone(q + 1, k, size);
  }

  /** The slices the loop produces once it has reached `i = first * size`. */
  function SpansFrom(first: nat, duration: nat, size: nat): (spans: seq<Span>)
    requires size > 0
    ensures first * size >= duration ==> spans == []
    ensures first * size < duration ==> (first + |spans| - 1) * size < duration <= (first + |spans|) * size
    ensures forall k :: 0 <= k < |spans| ==>
              spans[k] == Span(first + k, (first + k) * size, Min((first + k + 1) * size, duration))
    decreases duration - first * size
  {
    if first * size >= duration then []
    else
      var rest := SpansFrom(first + 1, duration, size);
      assert (first + 1) * size == first * size + size;
      [Span(first, first * size, Min((first + 1) * size, duration))] + rest
  }

  /** `ceil(duration / size)` is the `n` whose last slice starts before the end and whose slices reach it. */
  lemma CeilIsUnique(n: nat, duration: nat, size: nat)
    requires size > 0
    requires (n - 1) * size < duration <= n * size
    ensures n == (duration + size - 1) / size
  {
    var x := duration + size - 1;
    assert n * size <= x < (n + 1) * size;
    DivIsUnique(x, size, n);
  }

  /** The whole slice list for a duration and a requested chunk length. A zero step makes
      `range` raise, which `split_audio_into_chunks` catches, and a negative step gives an
      empty range: both give no chunks. */
  function Plan(duration: nat, size: int): (spans: seq<Span>)
    ensures size <= 0 ==> spans == []
    ensures size > 0 ==> |spans| == (duration + size - 1) / size
    ensures size > 0 ==> forall k :: 0 <= k < |spans| ==>
              spans[k] == Span(k, k * size, Min((k + 1) * size, duration))
  {
    if size <= 0 then []
    else
      var spans := SpansFrom(0, duration, size);
      assert |spans| == (duration + size - 1) / size by {
        if duration > 0 {
          CeilIsUnique(|spans|, duration, size);
        } else {
          DivIsUnique(size - 1, size, 0);
        }
      }
      spans
  }

  /** Slice k's number is exactly what the source writes into the file name: `i // chunk_duration_ms`. */
  lemma PlanIndexIsStartDivSize(duration: nat, size: int, k: nat)
    requires size > 0 && k < |Plan(duration, size)|
    ensures Plan(duration, size)[k].index == Plan(duration, size)[k].start / size
  {
    DivIsUnique(k * size, size, k);
  }

  /** The number of slices n is the least with n * size >= duration. */
  lemma PlanBounds(duration: nat, size: int)
    requires size > 0
    ensures var n := |Plan(duration, size)|; (n - 1) * size < duration <= n * size || (n == 0 && duration == 0)
  {
    var n := |Plan(duration, size)|;
    DivIsUnique(duration + size - 1, size, n);
    if duration == 0 {
      DivIsUnique(size - 1, size, 0);
    }
  }

  /** The slices tile [0, duration): the first starts at 0, each is non-empty, each ends where
      the next starts, and the last ends at the duration. */
  lemma PlanTiles(duration: nat, size: int)
    requires size > 0
    ensures Plan(duration, size) == [] <==> duration == 0
    ensures Plan(duration, size) != [] ==> Plan(duration, size)[0].start == 0
    ensures Plan(duration, size) != [] ==> Plan(duration, size)[|Plan(duration, size)| - 1].end == duration
    ensures forall k :: 0 <= k < |Plan(duration, size)| ==> Plan(duration, size)[k].start < Plan(duration, size)[k].end
    ensures forall k :: 0 <= k < |Plan(duration, size)| - 1 ==> Plan(duration, size)[k].end == Plan(duration, size)[k + 1].start
  {
    var spans := Plan(duration, size);
    var n := |spans|;
    PlanBounds(duration, size);
    forall k | 0 <= k < n ensures spans[k].start < spans[k].end {
      MulMonotone(k, n - 1, size);
    }
    forall k | 0 <= k < n - 1 ensures spans[k].end == spans[k + 1].start {
      MulMonotone(k + 1, n - 1, size);
    }
  }

  /** Every millisecond t of the audio lies in exactly one slice, the one numbered t // size. */
  lemma PlanCoversOnce(duration: nat, size: int, t: nat)
    requires size > 0 && t < duration
    ensures t / size < |Plan(duration, size)|
    ensures forall k :: 0 <= k < |Plan(duration, size)| ==>
              (Plan(duration, size)[k].start <= t < Plan(duration, size)[k].end <==> k == t / size)
  {
    var spans := Plan(duration, size);
    var n := |spans|;
    PlanBounds(duration, size);
    var q := t / size;
    DivIsUnique(t, size, q);
    MulMonotone(n, q, size);
    forall k | 0 <= k < n ensures spans[k].start <= t < spans[k].end <==> k == q {
      DivIsUnique(t, size, k);
    }
  }

  /** The last chunk lasts `duration mod size`, or a whole `size` when that is zero. */
  lemma PlanLastChunk(duration: nat, size: int)
    requires size > 0 && duration > 0
    ensures var spans := Plan(duration, size);
            spans[|spans| - 1].end - spans[|spans| - 1].start == (if duration % size == 0 then size else duration % size)
  {
    var spans := Plan(duration, size);
    var n := |spans|;
    PlanBounds(duration, size);
    assert spans[n - 1].end - spans[n - 1].start == duration - (n - 1) * size;
    var q := duration / size;
    assert duration == q * size + duration % size;
    DivIsUnique(duration, size, n - 1);
    DivIsUnique(duration, size, n);
  }

  /** Twelve seconds in five-second chunks: 5 s, 5 s and 2 s. */
  lemma TwelveSecondsInFiveSecondChunks()
    ensures Plan(12000, ChunkDurationMs) == [Span(0, 0, 5000), Span(1, 5000, 10000), Span(2, 10000, 12000)]
  {
    var spans := Plan(12000, ChunkDurationMs);
    assert |spans| == 3;
  }
}
