/** The observer's audio marker detector, which keeps only the latest samples.

    What the detector hears in a window (its loudness and tone powers) is a parameter here; which
    window it listens to is modelled. */
module MarkerDetectors {

  const MAX_AUDIO_SAMPLES := 32_000
  const LONGEST_WINDOW := 12_000

  datatype MarkerResult = MarkerResult(marker: bool, inBandDtmf: bool)

  const NOTHING := MarkerResult(false, false)

  datatype AudioFrame = AudioFrame(samples: seq<int>, sampleRate: nat, channels: nat) {
    /** Other frames are ignored. */
    predicate Usable() {
      channels == 1 && 8_000 <= sampleRate <= 48_000
    }
  }

  type Listener = (seq<int>, nat) -> MarkerResult

  function Min(a: nat, b: nat): nat {
    if a < b then a else b
  }

  /** The last `n` elements, or all of a shorter sequence. */
  function Latest(s: seq<int>, n: nat): seq<int> {
    s[|s| - Min(n, |s|)..]
  }

  /** Listen to the last quarter of a second, if there is at least a tenth of a second. */
  function Hear(listen: Listener, samples: seq<int>, rate: nat): MarkerResult {
    var window := Latest(samples, rate / 4);
    if |window| < rate / 10 then NOTHING else listen(window, rate)
  }

  // ---- The detector that keeps everything since the last change of rate ----

  datatype History = History(samples: seq<int>, rate: nat) {
    function Add(f: AudioFrame): History {
      if !f.Usable() then this
      else if rate != f.sampleRate then History(f.samples, f.sampleRate)
      else History(samples + f.samples, rate)
    }

    /** What a detector that kept at most `cap` samples would still have. */
    function Capped(cap: nat): History {
      History(Latest(samples, cap), rate)
    }
  }

  const SILENCE := History([], 0)

  function Answer(listen: Listener, h: History, f: AudioFrame): MarkerResult {
    if f.Usable() then Hear(listen, h.samples, h.rate) else NOTHING
  }

  function Answers(listen: Listener, h: History, frames: seq<AudioFrame>): seq<MarkerResult>
    decreases |frames|
  {
    if frames == [] then []
    else [Answer(listen, h.Add(frames[0]), frames[0])] + Answers(listen, h.Add(frames[0]), frames[1..])
  }

  /** The detector that truncates its buffer to `cap` after every frame. */
  function CappedAnswers(listen: Listener, cap: nat, h: History, frames: seq<AudioFrame>): seq<MarkerResult>
    decreases |frames|
  {
    if frames == [] then []
    else
      var next := h.Add(frames[0]).Capped(cap);
      [Answer(listen, next, frames[0])] + CappedAnswers(listen, cap, next, frames[1..])
  }

  // ---- Truncation is invisible ----

  lemma LatestOfLatest(s: seq<int>, n: nat, m: nat)
    requires n <= m
    ensures Latest(Latest(s, m), n) == Latest(s, n)
  {
  }

  /** Truncating before and after adding a frame is truncating after it. */
  lemma AddToCapped(h: History, cap: nat, f: AudioFrame)
    ensures h.Capped(cap).Add(f).Capped(cap) == h.Add(f).Capped(cap)
  {
    var kept := Latest(h.samples, cap);
    assert Latest(kept + f.samples, cap) == Latest(h.samples + f.samples, cap);
  }

  predicate RateInRange(h: History) {
    h.rate <= 48_000
  }

  lemma {:induction false} CapHides(listen: Listener, cap: nat, h: History, frames: seq<AudioFrame>)
    requires cap >= LONGEST_WINDOW && RateInRange(h)
    ensures CappedAnswers(listen, cap, h.Capped(cap), frames) == Answers(listen, h, frames)
    decreases |frames|
  {
    if frames != [] {
      var f := frames[0];
      var whole := h.Add(f);
      AddToCapped(h, cap, f);
      LatestOfLatest(whole.samples, whole.rate / 4, cap);
      CapHides(listen, cap, whole, frames[1..]);
    }
  }

  ghost predicate Invisible(cap: nat) {
    forall listen: Listener, frames: seq<AudioFrame> ::
      CappedAnswers(listen, cap, SILENCE, frames) == Answers(listen, SILENCE, frames)
  }

  /** A listener that reports a marker in exactly the longest window. */
  function LongWindow(window: seq<int>, rate: nat): MarkerResult {
    MarkerResult(|window| == LONGEST_WINDOW, false)
  }

  lemma ShortCapShows(cap: nat)
    requires cap < LONGEST_WINDOW
    ensures !Invisible(cap)
  {
    var f := AudioFrame(seq(LONGEST_WINDOW, i => 0), 48_000, 1);
    var whole := SILENCE.Add(f);
    assert Answer(LongWindow, whole, f).marker;
    assert !Answer(LongWindow, whole.Capped(cap), f).marker;
    assert Answers(LongWindow, SILENCE, [f])[0] == Answer(LongWindow, whole, f);
    assert CappedAnswers(LongWindow, cap, SILENCE, [f])[0] == Answer(LongWindow, whole.Capped(cap), f);
  }

  /** A buffer limit is invisible, for every listener and every sequence of frames, exactly when it
      holds the quarter second of the highest rate; the program's limit does. */
  lemma InvisibleExactly(cap: nat)
    ensures Invisible(cap) <==> cap >= LONGEST_WINDOW
    ensures Invisible(MAX_AUDIO_SAMPLES)
  {
    forall c: nat, listen: Listener, frames: seq<AudioFrame> | c >= LONGEST_WINDOW
      ensures CappedAnswers(listen, c, SILENCE, frames) == Answers(listen, SILENCE, frames)
    {
      CapHides(listen, c, SILENCE, frames);
      assert SILENCE.Capped(c) == SILENCE;
    }
    if cap < LONGEST_WINDOW {
      ShortCapShows(cap);
    }
  }

  // ---- Which samples a detector listens to ----

  /** The samples heard since the last usable frame of another rate, counted back from the end. */
  function SinceChange(frames: seq<AudioFrame>, rate: nat): seq<int> {
    if frames == [] then []
    else
      var n := |frames| - 1;
      var f := frames[n];
      if f.channels != 1 || f.sampleRate < 8_000 || f.sampleRate > 48_000 then SinceChange(frames[..n], rate)
      else if f.sampleRate != rate then []
      else SinceChange(frames[..n], rate) + f.samples
  }

  function After(h: History, frames: seq<AudioFrame>): History {
    if frames == [] then h else After(h, frames[..|frames| - 1]).Add(frames[|frames| - 1])
  }

  lemma {:induction false} AfterKeeps(frames: seq<AudioFrame>)
    ensures var h := After(SILENCE, frames); forall rate: nat :: rate > 0 ==>
      SinceChange(frames, rate) == if h.rate == rate then h.samples else []
  {
    if frames != [] {
      AfterKeeps(frames[..|frames| - 1]);
    }
  }

  lemma {:induction false} AnswersAt(listen: Listener, h: History, frames: seq<AudioFrame>, i: nat)
    requires i < |frames|
    ensures |Answers(listen, h, frames)| == |frames|
    ensures Answers(listen, h, frames)[i] == Answer(listen, After(h, frames[..i + 1]), frames[i])
    decreases |frames|
  {
    var rest := frames[1..];
    AfterFirst(h, frames[..i + 1]);
    assert frames[..i + 1][1..] == rest[..i];
    if i > 0 {
      AnswersAt(listen, h.Add(frames[0]), rest, i - 1);
    } else if rest != [] {
      AnswersAt(listen, h.Add(frames[0]), rest, 0);
    }
  }

  lemma {:induction false} AfterFirst(h: History, frames: seq<AudioFrame>)
    requires frames != []
    ensures After(h, frames) == After(h.Add(frames[0]), frames[1..])
    decreases |frames|
  {
    var n := |frames| - 1;
    if n > 0 {
      AfterFirst(h, frames[..n]);
      assert frames[..n][1..] == frames[1..][..n - 1];
    } else {
      assert frames[..0] == [] && frames[1..] == [];
    }
  }

  /** After a usable frame the listener is asked exactly if a tenth of a second has been heard since the
      rate last changed, and then about the last quarter of a second of it, or all of it if there is
      less; after any other frame, and before that, nothing is reported. */
  lemma {:induction false} ListensExactly(listen: Listener, frames: seq<AudioFrame>, i: nat)
    requires i < |frames|
    ensures |Answers(listen, SILENCE, frames)| == |frames|
    ensures Answers(listen, SILENCE, frames)[i] ==
      var f := frames[i];
      var heard := SinceChange(frames[..i + 1], f.sampleRate);
      var quarter := if |heard| < f.sampleRate / 4 then |heard| else f.sampleRate / 4;
      if f.channels != 1 || f.sampleRate < 8_000 || f.sampleRate > 48_000 || |heard| < f.sampleRate / 10
      then MarkerResult(false, false)
      else listen(heard[|heard| - quarter..], f.sampleRate)
  {
    AnswersAt(listen, SILENCE, frames, i);
    AfterKeeps(frames[..i + 1]);
    var h := After(SILENCE, frames[..i + 1]);
    assert frames[..i + 1][..i] == frames[..i];
  }

  // ---- The detector object ----

  class MarkerDetector {
    var samples: seq<int>
    var sampleRate: nat
    ghost var history: History

    /** The buffer is the latest part of everything heard since the last change of rate. */
    ghost predicate Valid()
      reads this
    {
      RateInRange(history) && History(samples, sampleRate) == history.Capped(MAX_AUDIO_SAMPLES)
    }

    constructor ()
      ensures Valid() && history == SILENCE
    {
      samples, sampleRate, history := [], 0, SILENCE;
    }

    method Observe(frame: AudioFrame, listen: Listener) returns (r: MarkerResult)
      requires Valid()
      modifies this
      ensures Valid() && |samples| <= MAX_AUDIO_SAMPLES && history == old(history).Add(frame)
      ensures r == Answer(listen, history, frame)
    {
      if frame.channels != 1 || !(8_000 <= frame.sampleRate <= 48_000) {
        return NOTHING;
      }
      Extend(frame);
      LatestOfLatest(history.samples, sampleRate / 4, MAX_AUDIO_SAMPLES);
      r := Classify(listen);
    }

    /** Append a usable frame, clearing the buffer on a new rate and dropping the oldest excess. */
    method Extend(frame: AudioFrame)
      requires Valid() && frame.Usable()
      modifies this
      ensures Valid() && history == old(history).Add(frame)
    {
      AddToCapped(history, MAX_AUDIO_SAMPLES, frame);
      history := history.Add(frame);
      if sampleRate != frame.sampleRate {
        samples, sampleRate := [], frame.sampleRate;
      }
      samples := samples + frame.samples;
      if |samples| > MAX_AUDIO_SAMPLES {
        samples := samples[|samples| - MAX_AUDIO_SAMPLES..];
      }
    }

    method Classify(listen: Listener) returns (r: MarkerResult)
      ensures r == Hear(listen, samples, sampleRate)
    {
      var length := Min(sampleRate / 4, |samples|);
      if length < sampleRate / 10 {
        return NOTHING;
      }
      r := listen(samples[|samples| - length..], sampleRate);
    }
  }
}
