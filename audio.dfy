/** The audio batcher: PCM bursts of any length are copied into a fixed
    buffer, and every time the buffer fills exactly it is handed to the
    host as one batch of 512 stereo frames. */
module Audio {
  import opened Common

  /** Samples that make up one full batch (`BUFFER_SIZE`). */
  const BUFFER_SIZE: nat := 1024
  const CHANNELS: nat := 2
  /** Slots of the static buffer (`BUFFER_SIZE * CHANNELS`); only the first
      `BUFFER_SIZE` of them are ever handed to the host. */
  const SLOTS: nat := BUFFER_SIZE * CHANNELS
  /** Frames announced to the host for a full buffer. */
  const FRAMES_PER_BATCH: nat := BUFFER_SIZE / CHANNELS

  /** All batches, in the order the host received them, as one sample stream. */
  function Flatten(bs: seq<seq<int>>): seq<int>
  {
    if bs == [] then [] else bs[0] + Flatten(bs[1..])
  }

  lemma {:induction false} FlattenAppend(a: seq<seq<int>>, b: seq<seq<int>>)
    ensures Flatten(a + b) == Flatten(a) + Flatten(b)
  {
    if a == [] {
      assert a + b == b;
    } else {
      assert (a + b)[1..] == a[1..] + b;
      FlattenAppend(a[1..], b);
    }
  }

  lemma FlattenCons(b: seq<int>, bs: seq<seq<int>>)
    ensures Flatten([b] + bs) == b + Flatten(bs)
  {
    assert ([b] + bs)[1..] == bs;
  }

  /** One more full buffer sent: the stream so far is unchanged, now wholly
      in the batches. */
  lemma EmitFull(stream: seq<int>, bs: seq<seq<int>>, full: seq<int>)
    requires stream == Flatten(bs) + full
    ensures stream == Flatten(bs + [full]) + []
  {
    FlattenAppend(bs, [full]);
    FlattenCons(full, []);
  }

  /** Copying the next `t` samples of `data` after the first `c`. */
  lemma CopyChunk(pending: seq<int>, data: seq<int>, c: nat, t: nat, sent: seq<int>, prefix: seq<int>)
    requires c + t <= |data|
    requires pending + data[..c] == sent + prefix
    ensures pending + data[..c + t] == sent + (prefix + data[c..c + t])
  {
    assert data[..c + t] == data[..c] + data[c..c + t];
    calc {
      pending + data[..c + t];
      (pending + data[..c]) + data[c..c + t];
      (sent + prefix) + data[c..c + t];
      sent + (prefix + data[c..c + t]);
    }
  }

  /** Full batches carry exactly `BUFFER_SIZE` samples each. */
  lemma {:induction false} FlattenFullLength(bs: seq<seq<int>>)
    requires forall i | 0 <= i < |bs| :: |bs[i]| == BUFFER_SIZE
    ensures |Flatten(bs)| == BUFFER_SIZE * |bs|
  {
    if bs != [] {
      FlattenFullLength(bs[1..]);
    }
  }

  lemma DivMod(a: nat, k: nat, r: nat)
    requires a == BUFFER_SIZE * k + r && r < BUFFER_SIZE
    ensures a / BUFFER_SIZE == k && a % BUFFER_SIZE == r
  {
  }

  /** `fmax(0.0, fmin(1.0, vol))`. */
  function ClampVolume(v: real): (r: real)
    ensures 0.0 <= r <= 1.0
    ensures 0.0 <= v <= 1.0 ==> r == v
    ensures v > 1.0 ==> r == 1.0
    ensures v < 0.0 ==> r == 0.0
  {
    if v < 0.0 then 0.0 else if v > 1.0 then 1.0 else v
  }

  /** C's conversion of a floating value to an integer: truncation toward zero. */
  function Truncate(x: real): (r: int)
    ensures x >= 0.0 ==> r as real <= x < r as real + 1.0
    ensures x < 0.0 ==> r as real - 1.0 < x <= r as real
  {
    if x >= 0.0 then x.Floor else -((-x).Floor)
  }

  /** `(int16_t)(sample * volume)`, skipped when the volume is exactly 1.0. */
  function ApplyVolume(s: int16, v: real): (r: int16)
    requires 0.0 <= v <= 1.0
    ensures v == 1.0 ==> r == s
    ensures v == 0.0 ==> r == 0
    ensures s >= 0 ==> 0 <= r <= s
    ensures s < 0 ==> s <= r <= 0
  {
    if v == 1.0 then s
    else
      ScaledBetween(s, v);
      Truncate(s as real * v)
  }

  lemma ScaledBetween(s: int, v: real)
    requires 0.0 <= v <= 1.0
    ensures s >= 0 ==> 0 <= Truncate(s as real * v) <= s
    ensures s < 0 ==> s <= Truncate(s as real * v) <= 0
  {
    if s >= 0 {
      MulBelow(s as real, v);
      TruncateBetween(s as real * v, 0, s);
    } else {
      MulNegative(s as real, v);
      TruncateBetween(s as real * v, s, 0);
    }
  }

  lemma TruncateBetween(x: real, lo: int, hi: int)
    requires lo as real <= x <= hi as real
    ensures lo <= Truncate(x) <= hi
  {
  }

  lemma MulBelow(a: real, v: real)
    requires a >= 0.0 && 0.0 <= v <= 1.0
    ensures 0.0 <= a * v <= a
  {
  }

  lemma MulNegative(a: real, v: real)
    requires a < 0.0 && 0.0 <= v <= 1.0
    ensures a <= a * v <= 0.0
  {
    MulBelow(-a, v);
    assert a * v == -((-a) * v);
  }

  /** `float_to_int16`: clamp to [-1, 1], scale by 32767 and truncate. */
  function FloatToInt16(x: real): (r: int16)
    ensures -32767 <= r <= 32767
    ensures x >= 1.0 ==> r == 32767
    ensures x <= -1.0 ==> r == -32767
    ensures -1.0 <= x <= 1.0 ==> -1.0 < r as real - x * 32767.0 < 1.0
    ensures (x >= 0.0 ==> r >= 0) && (x <= 0.0 ==> r <= 0)
  {
    var c := if x < -1.0 then -1.0 else if x > 1.0 then 1.0 else x;
    Truncate(c * 32767.0)
  }

  function Scaled(samples: seq<int16>, v: real): (r: seq<int>)
    requires 0.0 <= v <= 1.0
    ensures |r| == |samples|
    ensures forall i | 0 <= i < |r| :: r[i] == ApplyVolume(samples[i], v)
  {
    seq(|samples|, i requires 0 <= i < |samples| => ApplyVolume(samples[i], v) as int)
  }

  function Converted(samples: seq<real>): (r: seq<int16>)
    ensures |r| == |samples|
    ensures forall i | 0 <= i < |r| :: r[i] == FloatToInt16(samples[i])
  {
    seq(|samples|, i requires 0 <= i < |samples| => FloatToInt16(samples[i]))
  }

  /** `frame_count * CHANNELS` zero samples. */
  function Silence(frames: nat): (r: seq<int>)
    ensures |r| == frames * CHANNELS
    ensures forall i | 0 <= i < |r| :: r[i] == 0
  {
    seq(frames * CHANNELS, _ => 0)
  }

  /** The chunked copy of `process_samples` and `generate_silence`: starting
      from the buffered samples `pending` with the host having received
      `sent`, appending `data` leaves `pending'` buffered and `sent'`
      received. Every new batch is a full buffer, the number of new batches
      and the new cursor are the quotient and remainder of the total by
      `BUFFER_SIZE`, and nothing is lost or reordered. */
  ghost predicate Appended(pending: seq<int>, sent: seq<seq<int>>, data: seq<int>,
                           pending': seq<int>, sent': seq<seq<int>>)
  {
    && |sent'| == |sent| + (|pending| + |data|) / BUFFER_SIZE
    && |pending'| == (|pending| + |data|) % BUFFER_SIZE
    && sent'[..|sent|] == sent
    && (forall i | |sent| <= i < |sent'| :: |sent'[i]| == BUFFER_SIZE)
    && pending + data == Flatten(sent'[|sent|..]) + pending'
  }

  /** The outcome of an append is determined by its inputs. */
  lemma AppendedUnique(pending: seq<int>, sent: seq<seq<int>>, data: seq<int>,
                       p1: seq<int>, s1: seq<seq<int>>, p2: seq<int>, s2: seq<seq<int>>)
    requires Appended(pending, sent, data, p1, s1)
    requires Appended(pending, sent, data, p2, s2)
    ensures p1 == p2 && s1 == s2
  {
    var n := |sent|;
    var k := |s1| - n;
    FlattenFullLength(s1[n..]);
    FlattenFullLength(s2[n..]);
    var whole := pending + data;
    assert Flatten(s1[n..]) == whole[..BUFFER_SIZE * k];
    assert Flatten(s2[n..]) == whole[..BUFFER_SIZE * k];
    assert p1 == whole[BUFFER_SIZE * k..] == p2;
    BatchesFromStream(s1[n..], s2[n..]);
    assert s1 == s1[..n] + s1[n..];
    assert s2 == s2[..n] + s2[n..];
  }

  /** Two runs of full batches with the same concatenation are the same runs. */
  lemma {:induction false} BatchesFromStream(a: seq<seq<int>>, b: seq<seq<int>>)
    requires |a| == |b|
    requires forall i | 0 <= i < |a| :: |a[i]| == BUFFER_SIZE
    requires forall i | 0 <= i < |b| :: |b[i]| == BUFFER_SIZE
    requires Flatten(a) == Flatten(b)
    ensures a == b
  {
    if a != [] {
      assert a[0] == Flatten(a)[..BUFFER_SIZE];
      assert b[0] == Flatten(b)[..BUFFER_SIZE];
      assert Flatten(a[1..]) == Flatten(a)[BUFFER_SIZE..];
      assert Flatten(b[1..]) == Flatten(b)[BUFFER_SIZE..];
      BatchesFromStream(a[1..], b[1..]);
      assert a == [a[0]] + a[1..];
      assert b == [b[0]] + b[1..];
    }
  }

  /** Submitting exactly one buffer's worth into an empty buffer emits that
      data as a single batch and leaves nothing buffered; one sample more
      stays behind for the next flush. */
  lemma OneBatch(sent: seq<seq<int>>, data: seq<int>, pending': seq<int>, sent': seq<seq<int>>)
    requires |data| == BUFFER_SIZE || |data| == BUFFER_SIZE + 1
    requires Appended([], sent, data, pending', sent')
    ensures sent' == sent + [data[..BUFFER_SIZE]]
    ensures pending' == data[BUFFER_SIZE..]
  {
    assert |data| / BUFFER_SIZE == 1;
    assert |sent'| == |sent| + 1;
    var b := sent'[|sent|];
    assert sent'[|sent|..] == [b];
    assert Flatten([b]) == b + Flatten([]);
    assert [] + data == data;
    assert data == b + pending';
    assert |b| == BUFFER_SIZE;
    assert b == data[..BUFFER_SIZE];
    assert sent' == sent'[..|sent|] + [b];
  }

  /** `generate_test_tone`'s buffer discipline: each frame's sample is written
      twice, then a full buffer is sent. When the cursor is odd, the second
      write of the frame that crosses `BUFFER_SIZE` lands in slot
      `BUFFER_SIZE` and is not part of the batch. */
  function ToneRun(pending: seq<int>, xs: seq<int>): (t: Tone)
    requires |pending| < BUFFER_SIZE
    decreases |xs|
  {
    if xs == [] then Tone(pending, [])
    else
      var grown := pending + [xs[0], xs[0]];
      if |grown| >= BUFFER_SIZE then
        var rest := ToneRun([], xs[1..]);
        Tone(rest.pending, [grown[..BUFFER_SIZE]] + rest.sent)
      else
        ToneRun(grown, xs[1..])
  }

  /** What is left buffered and what was sent after a run of frames. */
  datatype Tone = Tone(pending: seq<int>, sent: seq<seq<int>>)

  ghost predicate AllFull(bs: seq<seq<int>>)
  {
    forall i | 0 <= i < |bs| :: |bs[i]| == BUFFER_SIZE
  }

  /** Each frame as its left and right sample. */
  function Duplicated(xs: seq<int>): (r: seq<int>)
    ensures |r| == 2 * |xs|
  {
    if xs == [] then [] else [xs[0], xs[0]] + Duplicated(xs[1..])
  }

  /** Sample `i` of the duplicated stream is frame `i / 2`: left and right
      channel carry the same value. */
  lemma {:induction false} DuplicatedAt(xs: seq<int>, i: nat)
    requires i < 2 * |xs|
    ensures Duplicated(xs)[i] == xs[i / 2]
  {
    if i >= 2 {
      DuplicatedAt(xs[1..], i - 2);
    }
  }

  /** From an even cursor, the test tone is exactly an append of every
      frame's sample twice: the cursor stays even and below `BUFFER_SIZE`,
      batches are full, and no sample is lost. */
  lemma {:induction false} ToneRunEven(pending: seq<int>, xs: seq<int>)
    requires |pending| < BUFFER_SIZE && |pending| % 2 == 0
    ensures var t := ToneRun(pending, xs);
      && |t.pending| < BUFFER_SIZE && |t.pending| % 2 == 0
      && AllFull(t.sent)
      && pending + Duplicated(xs) == Flatten(t.sent) + t.pending
    decreases |xs|
  {
    if xs != [] {
      var grown := pending + [xs[0], xs[0]];
      assert Duplicated(xs) == [xs[0], xs[0]] + Duplicated(xs[1..]);
      assert pending + Duplicated(xs) == grown + Duplicated(xs[1..]);
      if |grown| >= BUFFER_SIZE {
        ToneRunEven([], xs[1..]);
        ToneEmitWhole(grown, ToneRun([], xs[1..]), Duplicated(xs[1..]));
      } else {
        ToneRunEven(grown, xs[1..]);
      }
    }
  }

  /** One frame of the test tone, as the loop performs it: the run from
      `before` over `xs` is the frame's step followed by the run over the
      remaining frames. */
  lemma ToneStep(before: seq<int>, xs: seq<int>, sent: seq<seq<int>>)
    requires |before| < BUFFER_SIZE && xs != []
    ensures var grown := before + [xs[0], xs[0]];
      var t := ToneRun(before, xs);
      if |grown| >= BUFFER_SIZE then
        var rest := ToneRun([], xs[1..]);
        Tone(t.pending, sent + t.sent)
          == Tone(rest.pending, (sent + [grown[..BUFFER_SIZE]]) + rest.sent)
      else
        var rest := ToneRun(grown, xs[1..]);
        Tone(t.pending, sent + t.sent) == Tone(rest.pending, sent + rest.sent)
  {
    var grown := before + [xs[0], xs[0]];
    if |grown| >= BUFFER_SIZE {
      var rest := ToneRun([], xs[1..]);
      assert sent + ([grown[..BUFFER_SIZE]] + rest.sent) == (sent + [grown[..BUFFER_SIZE]]) + rest.sent;
    }
  }

  /** A whole buffer followed by a run that started empty. */
  lemma ToneEmitWhole(grown: seq<int>, rest: Tone, tail: seq<int>)
    requires |grown| == BUFFER_SIZE
    requires AllFull(rest.sent) && [] + tail == Flatten(rest.sent) + rest.pending
    ensures AllFull([grown[..BUFFER_SIZE]] + rest.sent)
    ensures grown + tail == Flatten([grown[..BUFFER_SIZE]] + rest.sent) + rest.pending
  {
    assert grown[..BUFFER_SIZE] == grown;
    FlattenCons(grown, rest.sent);
    assert [] + tail == tail;
  }

  /** From an odd cursor exactly one sample is lost: the stream position
      `BUFFER_SIZE`, which the crossing frame writes into the slot past the
      batch. If no batch is sent nothing is lost. */
  lemma {:induction false} ToneRunOdd(pending: seq<int>, xs: seq<int>)
    requires |pending| < BUFFER_SIZE && |pending| % 2 == 1
    ensures var t := ToneRun(pending, xs);
      var s := pending + Duplicated(xs);
      && AllFull(t.sent)
      && (t.sent == [] ==> t.pending == s)
      && (t.sent != [] ==> BUFFER_SIZE < |s| && Flatten(t.sent) + t.pending == s[..BUFFER_SIZE] + s[BUFFER_SIZE + 1..])
    decreases |xs|
  {
    if xs != [] {
      var grown := pending + [xs[0], xs[0]];
      var tail := Duplicated(xs[1..]);
      assert Duplicated(xs) == [xs[0], xs[0]] + tail;
      assert pending + Duplicated(xs) == grown + tail;
      if |grown| >= BUFFER_SIZE {
        ToneRunEven([], xs[1..]);
        assert [] + tail == tail;
        ToneCrossOdd(grown, tail, ToneRun([], xs[1..]));
      } else {
        ToneRunOdd(grown, xs[1..]);
      }
    }
  }

  /** The frame that crosses the boundary from an odd cursor: its second
      sample falls past the batch, and the run that follows starts empty. */
  lemma ToneCrossOdd(grown: seq<int>, tail: seq<int>, rest: Tone)
    requires |grown| == BUFFER_SIZE + 1
    requires AllFull(rest.sent) && tail == Flatten(rest.sent) + rest.pending
    ensures AllFull([grown[..BUFFER_SIZE]] + rest.sent)
    ensures var s := grown + tail;
      Flatten([grown[..BUFFER_SIZE]] + rest.sent) + rest.pending == s[..BUFFER_SIZE] + s[BUFFER_SIZE + 1..]
  {
    FlattenCons(grown[..BUFFER_SIZE], rest.sent);
    var s := grown + tail;
    assert s[..BUFFER_SIZE] == grown[..BUFFER_SIZE];
    assert s[BUFFER_SIZE + 1..] == tail;
  }

  /** The batcher's static state: `audio_buffer`, `buffer_pos`,
      `audio_initialized`, `volume`, `audio_muted`; `hostAttached` says
      whether `audio_sample_batch_cb` is set, and `batches` records every
      call of it as the samples the host reads (twice the frames announced). */
  class Batcher {
    var buffer: array<int>
    var pos: nat
    var initialized: bool
    var volume: real
    var muted: bool
    var hostAttached: bool
    var batches: seq<seq<int>>

    ghost predicate Valid()
      reads this
    {
      && buffer.Length == SLOTS
      && pos < BUFFER_SIZE
      && 0.0 <= volume <= 1.0
      && (forall b | b in batches :: |b| % CHANNELS == 0 && |b| <= BUFFER_SIZE)
    }

    /** The samples buffered and not yet sent. */
    ghost function Pending(): seq<int>
      reads this, buffer
      requires Valid()
    {
      buffer[..pos]
    }

    /** Samples are accepted only when initialised, unmuted and attached. */
    predicate Accepting()
      reads this
    {
      initialized && !muted && hostAttached
    }

    /** The static initial state: zeroed buffer, cursor 0, uninitialised,
        volume 1.0, unmuted. */
    constructor (hostAttached: bool)
      ensures Valid() && fresh(buffer)
      ensures buffer[..] == seq(SLOTS, _ => 0)
      ensures pos == 0 && !initialized && volume == 1.0 && !muted
      ensures this.hostAttached == hostAttached && batches == []
    {
      buffer := new int[SLOTS](_ => 0);
      pos := 0;
      initialized := false;
      volume := 1.0;
      muted := false;
      this.hostAttached := hostAttached;
      batches := [];
    }

    /** `cytrus_audio_init`: a no-op when already initialised; otherwise
        clears the buffer and the cursor. Always reports success. */
    method Init() returns (ok: bool)
      requires Valid()
      modifies this, buffer
      ensures Valid() && ok && initialized && buffer == old(buffer)
      ensures old(initialized) ==> pos == old(pos) && buffer[..] == old(buffer[..])
      ensures !old(initialized) ==> pos == 0 && buffer[..] == seq(SLOTS, _ => 0)
      ensures volume == old(volume) && muted == old(muted)
      ensures hostAttached == old(hostAttached) && batches == old(batches)
    {
      if initialized {
        return true;
      }
      forall i | 0 <= i < buffer.Length {
        buffer[i] := 0;
      }
      pos := 0;
      initialized := true;
      return true;
    }

    /** `cytrus_audio_deinit`: drops whatever is buffered. */
    method Deinit()
      requires Valid()
      modifies this
      ensures Valid() && !initialized && pos == 0
      ensures buffer == old(buffer) && volume == old(volume) && muted == old(muted)
      ensures hostAttached == old(hostAttached) && batches == old(batches)
    {
      initialized := false;
      pos := 0;
    }

    /** `cytrus_audio_set_volume`: the volume is clamped into [0, 1]. */
    method SetVolume(v: real)
      requires Valid()
      modifies this
      ensures Valid() && volume == ClampVolume(v)
      ensures buffer == old(buffer) && pos == old(pos) && initialized == old(initialized)
      ensures muted == old(muted) && hostAttached == old(hostAttached) && batches == old(batches)
    {
      volume := ClampVolume(v);
    }

    /** `cytrus_audio_set_muted`. */
    method SetMuted(m: bool)
      requires Valid()
      modifies this
      ensures Valid() && muted == m
      ensures buffer == old(buffer) && pos == old(pos) && initialized == old(initialized)
      ensures volume == old(volume) && hostAttached == old(hostAttached) && batches == old(batches)
    {
      muted := m;
    }

    /** The chunked copy loop shared by `process_samples`,
        `process_float_samples` and `generate_silence`: copy as much as fits,
        and send the buffer whenever it is exactly full. */
    method Enqueue(data: seq<int>)
      requires Valid()
      modifies this`pos, this`batches, buffer
      ensures Valid()
      ensures Appended(old(Pending()), old(batches), data, Pending(), batches)
    {
      ghost var pending0 := buffer[..pos];
      ghost var n0 := |batches|;
      var consumed := 0;
      while consumed < |data|
        invariant Valid()
        invariant 0 <= consumed <= |data| && n0 <= |batches|
        invariant batches[..n0] == old(batches)
        invariant forall i | n0 <= i < |batches| :: |batches[i]| == BUFFER_SIZE
        invariant |pending0| + consumed == BUFFER_SIZE * (|batches| - n0) + pos
        invariant pending0 + data[..consumed] == Flatten(batches[n0..]) + buffer[..pos]
      {
        var spaceLeft := BUFFER_SIZE - pos;
        var toProcess := if |data| - consumed < spaceLeft then |data| - consumed else spaceLeft;
        ghost var prefix := buffer[..pos];
        CopyIn(data, consumed, toProcess);
        CopyChunk(pending0, data, consumed, toProcess, Flatten(batches[n0..]), prefix);
        consumed := consumed + toProcess;
        if pos >= BUFFER_SIZE {
          var full := buffer[..BUFFER_SIZE];
          EmitFull(pending0 + data[..consumed], batches[n0..], full);
          assert (batches + [full])[n0..] == batches[n0..] + [full];
          assert (batches + [full])[..n0] == batches[..n0];
          batches := batches + [full];
          pos := 0;
        }
      }
      assert data[..consumed] == data;
      DivMod(|pending0| + |data|, |batches| - n0, pos);
    }

    /** The inner copy loop: `count` samples of `data` from index `from`
        are stored at the cursor, which advances past them. */
    method CopyIn(data: seq<int>, from: nat, count: nat)
      requires from + count <= |data| && pos + count <= BUFFER_SIZE
      requires buffer.Length == SLOTS
      modifies this`pos, buffer
      ensures pos == old(pos) + count
      ensures buffer[..pos] == old(buffer[..pos]) + data[from..from + count]
    {
      ghost var prefix := buffer[..pos];
      var i := 0;
      while i < count
        invariant 0 <= i <= count
        invariant pos == |prefix| + i
        invariant buffer[..pos] == prefix + data[from..from + i]
      {
        buffer[pos] := data[from + i];
        assert buffer[..pos + 1] == buffer[..pos] + [data[from + i]];
        assert data[from..from + i + 1] == data[from..from + i] + [data[from + i]];
        pos := pos + 1;
        i := i + 1;
      }
    }

    /** `cytrus_audio_process_samples`: a no-op unless initialised, unmuted
        and attached; otherwise every sample, scaled by the volume, is
        appended in order. */
    method ProcessSamples(samples: seq<int16>)
      requires Valid()
      modifies this`pos, this`batches, buffer
      ensures Valid()
      ensures !old(Accepting()) ==>
        pos == old(pos) && batches == old(batches) && buffer[..] == old(buffer[..])
      ensures old(Accepting()) ==>
        Appended(old(Pending()), old(batches), Scaled(samples, volume), Pending(), batches)
    {
      if !initialized || muted || !hostAttached {
        return;
      }
      Enqueue(Scaled(samples, volume));
    }

    /** `cytrus_audio_process_float_samples`: as `ProcessSamples`, after
        `float_to_int16`. */
    method ProcessFloatSamples(samples: seq<real>)
      requires Valid()
      modifies this`pos, this`batches, buffer
      ensures Valid()
      ensures !old(Accepting()) ==>
        pos == old(pos) && batches == old(batches) && buffer[..] == old(buffer[..])
      ensures old(Accepting()) ==>
        Appended(old(Pending()), old(batches), Scaled(Converted(samples), volume), Pending(), batches)
    {
      if !initialized || muted || !hostAttached {
        return;
      }
      Enqueue(Scaled(Converted(samples), volume));
    }

    /** `cytrus_audio_generate_silence`: appends `frames * 2` zero samples;
        muting does not stop it. */
    method GenerateSilence(frames: nat)
      requires Valid()
      modifies this`pos, this`batches, buffer
      ensures Valid()
      ensures !(old(initialized) && old(hostAttached)) ==>
        pos == old(pos) && batches == old(batches) && buffer[..] == old(buffer[..])
      ensures old(initialized) && old(hostAttached) ==>
        Appended(old(Pending()), old(batches), Silence(frames), Pending(), batches)
    {
      if !initialized || !hostAttached {
        return;
      }
      Enqueue(Silence(frames));
    }

    /** `cytrus_audio_flush`: sends the buffered whole frames, however few,
        and empties the buffer; a trailing odd sample is dropped. */
    method Flush()
      requires Valid()
      modifies this`pos, this`batches
      ensures Valid()
      ensures !(old(initialized) && old(pos) != 0 && old(hostAttached)) ==>
        pos == old(pos) && batches == old(batches)
      ensures old(initialized) && old(pos) != 0 && old(hostAttached) ==>
        pos == 0 && batches == old(batches) + [old(buffer[..(pos / CHANNELS) * CHANNELS])]
    {
      if !initialized || pos == 0 || !hostAttached {
        return;
      }
      var frames := pos / CHANNELS;
      batches := batches + [buffer[..frames * CHANNELS]];
      pos := 0;
    }

    /** Stores one frame's sample in the left and the right channel slot.
        From cursor `BUFFER_SIZE - 1` the right one lands in slot
        `BUFFER_SIZE`, inside the static buffer but past the batch. */
    method StoreFrame(sample: int)
      requires buffer.Length == SLOTS && pos < BUFFER_SIZE
      modifies this`pos, buffer
      ensures pos == old(pos) + 2
      ensures buffer[..pos] == old(buffer[..pos]) + [sample, sample]
    {
      buffer[pos] := sample;
      pos := pos + 1;
      buffer[pos] := sample;
      pos := pos + 1;
    }

    /** The buffer handling of `cytrus_audio_generate_test_tone`, given the
        synthesised sine value of every frame (the synthesis itself is not
        modelled). Neither muting nor the volume affects it. */
    method GenerateTestTone(wave: seq<real>)
      requires Valid()
      modifies this`pos, this`batches, buffer
      ensures Valid()
      ensures !(old(initialized) && old(hostAttached)) ==>
        pos == old(pos) && batches == old(batches) && buffer[..] == old(buffer[..])
      ensures old(initialized) && old(hostAttached) ==>
        var t := ToneRun(old(Pending()), Converted(wave));
        Pending() == t.pending && batches == old(batches) + t.sent
    {
      if !initialized || !hostAttached {
        return;
      }
      ghost var xs := Converted(wave);
      ghost var pending0 := buffer[..pos];
      ghost var n0 := |batches|;
      assert xs[0..] == xs && batches[n0..] == [];
      for frame := 0 to |wave|
        invariant Valid()
        invariant n0 <= |batches| && batches[..n0] == old(batches)
        invariant var t := ToneRun(buffer[..pos], xs[frame..]);
          ToneRun(pending0, xs) == Tone(t.pending, batches[n0..] + t.sent)
      {
        var sample := FloatToInt16(wave[frame]);
        ghost var before := buffer[..pos];
        ToneStep(before, xs[frame..], batches[n0..]);
        assert xs[frame..][0] == sample && xs[frame..][1..] == xs[frame + 1..];
        StoreFrame(sample);
        if pos >= BUFFER_SIZE {
          var full := buffer[..BUFFER_SIZE];
          assert full == (before + [sample, sample])[..BUFFER_SIZE];
          assert (batches + [full])[n0..] == batches[n0..] + [full];
          assert (batches + [full])[..n0] == batches[..n0];
          batches := batches + [full];
          pos := 0;
        }
      }
    }
  }
}
