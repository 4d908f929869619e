/** The outbound side of one streaming-recognition session: the generator
    that turns the WAV file into the request stream handed to the RPC layer.
    Each iteration reopens the file, emits one configuration request and then
    one audio request per non-empty read of at most CHUNK frames; with
    real-time simulation on, it sleeps before each audio request so that the
    k-th chunk of an iteration leaves no earlier than k * CHUNK / rate
    seconds after that iteration started. */
module RequestGenerator {
  import opened WaveReading

  /** Frames requested from the file per read. */
  const CHUNK: nat := 1600

  datatype Option<T> = None | Some(value: T)

  /** The streaming configuration sent at the head of every iteration; the
      client builds it once per session and never changes it. */
  datatype StreamingConfig = StreamingConfig(
    sampleRateHertz: int,
    languageCode: string,
    maxAlternatives: int,
    automaticPunctuation: bool,
    wordTimeOffsets: bool,
    interimResults: bool)

  /** One outbound request: the configuration, or a chunk of audio. */
  datatype Request = Config(config: StreamingConfig) | Audio(content: seq<Frame>)

  /** A span of wall-clock time, in seconds. */
  type Duration = r: real | r >= 0.0

  function Min(a: int, b: int): int { if a <= b then a else b }

  function Max(a: real, b: real): real { if a >= b then a else b }

  // ---------------------------------------------------------------------
  // What one pass over the file reads and emits

  /** The successive results of `readframes(CHUNK)` on a freshly opened
      file, up to (not including) the first empty one. */
  function Chunks(frames: seq<Frame>): (cs: seq<seq<Frame>>)
    ensures forall i :: 0 <= i < |cs| ==> 0 < |cs[i]| <= CHUNK
    ensures |frames| <= CHUNK ==> |cs| <= 1
    decreases |frames|
  {
    if |frames| == 0 then []
    else
      var n := Min(CHUNK, |frames|);
      [frames[..n]] + Chunks(frames[n..])
  }

  /** The chunks put back together, in order. */
  function Flatten(cs: seq<seq<Frame>>): seq<Frame>
  {
    if cs == [] then [] else cs[0] + Flatten(cs[1..])
  }

  /** The payloads of the audio requests of a request sequence, in order. */
  function AudioPayload(reqs: seq<Request>): seq<Frame>
  {
    if reqs == [] then []
    else (if reqs[0].Audio? then reqs[0].content else []) + AudioPayload(reqs[1..])
  }

  /** Number of configuration requests in a request sequence. */
  function Configs(reqs: seq<Request>): nat
  {
    if reqs == [] then 0 else (if reqs[0].Config? then 1 else 0) + Configs(reqs[1..])
  }

  /** The requests of one iteration: the configuration, then one audio
      request per chunk. */
  function Iteration(config: StreamingConfig, frames: seq<Frame>): seq<Request>
  {
    [Config(config)] + AudioRequests(Chunks(frames))
  }

  /** One audio request per chunk, in order. */
  function AudioRequests(cs: seq<seq<Frame>>): (rs: seq<Request>)
    ensures |rs| == |cs|
  {
    if cs == [] then [] else [Audio(cs[0])] + AudioRequests(cs[1..])
  }

  /** The whole stream when nothing goes wrong: `numIterations` iterations
      one after the other (none when the count is not positive). */
  function Requests(config: StreamingConfig, frames: seq<Frame>, numIterations: int): seq<Request>
    decreases numIterations
  {
    if numIterations <= 0 then []
    else Iteration(config, frames) + Requests(config, frames, numIterations - 1)
  }

  /** Requests of one complete iteration. */
  function IterationLength(frames: seq<Frame>): nat
  {
    |Chunks(frames)| + 1
  }

  /** I/O operations of one complete iteration: the open, one read per
      chunk and the read that finds the end of the file. */
  function OpsPerIteration(frames: seq<Frame>): nat
  {
    |Chunks(frames)| + 2
  }

  /** I/O operations of the complete stream. */
  function TotalOps(frames: seq<Frame>, numIterations: int): nat
    decreases numIterations
  {
    if numIterations <= 0 then 0 else OpsPerIteration(frames) + TotalOps(frames, numIterations - 1)
  }

  /** The stream when I/O operation number `b` (counted from 0 over opens
      and reads) raises: an iteration whose open fails emits nothing, one
      whose r-th read fails has emitted its configuration and r - 1 chunks,
      and nothing follows the failure. */
  function Truncated(config: StreamingConfig, frames: seq<Frame>, numIterations: int, b: nat): seq<Request>
    decreases numIterations
  {
    var it := Iteration(config, frames);
    if numIterations <= 0 then []
    else if b <= |it| then it[..b]
    else it + Truncated(config, frames, numIterations - 1, b - OpsPerIteration(frames))
  }

  /** Whether the I/O operation numbered `ops` raises. */
  predicate Fails(faultAt: Option<nat>, ops: nat)
  {
    faultAt == Some(ops)
  }

  /** Seconds of audio in the first k chunks of a full-length pass:
      `CHUNK / rate * k`. */
  function Target(k: nat, rate: int): real
    requires rate > 0
  {
    (CHUNK as real / rate as real) * k as real
  }

  /** The clock reading at which request j is yielded, in an iteration
      layout of `len` requests per iteration. When the generator resumes
      after yielding request j - 1, `delay(j - 1)` has passed (the consumer,
      the network and the file reads); a configuration is yielded at once
      and marks the iteration's start time; an audio request is yielded
      after the pacing sleep, if any. */
  predicate TimedAt(times: seq<real>, j: nat, len: nat, t0: real, delay: nat -> Duration,
                    simulateRealtime: bool, rate: int)
    requires j < |times| && len > 0 && rate > 0
  {
    var k := Offset(j, len);
    var ready := if j == 0 then t0 else times[j - 1] + delay(j - 1);
    if k == 0 then times[j] == ready
    else if simulateRealtime then times[j] == Max(ready, times[j - k] + Target(k, rate))
    else times[j] == ready
  }

  /** The clock readings at the yields of one iteration that starts at
      `start`, after `base` requests of the stream: the configuration is
      yielded at `start`; before the k-th chunk the generator, resumed at
      `ready`, sleeps `max(0, Target(k) - (ready - start))` when simulating
      real time. */
  predicate PassTimed(times: seq<real>, base: nat, start: real, delay: nat -> Duration,
                      simulateRealtime: bool, rate: int)
    requires rate > 0
  {
    forall k :: 0 <= k < |times| ==> PassTimedAt(times, k, base, start, delay, simulateRealtime, rate)
  }

  predicate PassTimedAt(times: seq<real>, k: nat, base: nat, start: real, delay: nat -> Duration,
                        simulateRealtime: bool, rate: int)
    requires k < |times| && rate > 0
  {
    if k == 0 then times[k] == start
    else
      var ready := times[k - 1] + delay(base + k - 1);
      times[k] == if simulateRealtime then Max(ready, start + Target(k, rate)) else ready
  }

  lemma PassTimedSnoc(times: seq<real>, x: real, base: nat, start: real, delay: nat -> Duration,
                      simulateRealtime: bool, rate: int)
    requires rate > 0
    requires PassTimed(times, base, start, delay, simulateRealtime, rate)
    requires PassTimedAt(times + [x], |times|, base, start, delay, simulateRealtime, rate)
    ensures PassTimed(times + [x], base, start, delay, simulateRealtime, rate)
  {
    forall k | 0 <= k < |times|
      ensures PassTimedAt(times + [x], k, base, start, delay, simulateRealtime, rate)
    {
      assert PassTimedAt(times, k, base, start, delay, simulateRealtime, rate);
    }
  }

  /** The clock during a pass: `now` is the reading when the generator
      resumes after its last yield, and the yields so far keep
      `PassTimed`. */
  predicate PassClock(times: seq<real>, now: real, base: nat, start: real, delay: nat -> Duration,
                      simulateRealtime: bool, rate: int)
    requires rate > 0
  {
    && |times| > 0
    && now == times[|times| - 1] + delay(base + |times| - 1)
    && PassTimed(times, base, start, delay, simulateRealtime, rate)
  }

  /** The sleeps of a pass, one before each chunk: the k-th chunk is
      yielded exactly the k-th sleep after the generator resumed from the
      previous yield. */
  predicate PassSlept(times: seq<real>, sleeps: seq<real>, base: nat, delay: nat -> Duration)
  {
    && |times| == |sleeps| + 1
    && forall m :: 0 <= m < |sleeps| ==>
         sleeps[m] >= 0.0 && times[m + 1] == times[m] + delay(base + m) + sleeps[m]
  }

  /** One more chunk of a pass: the sleep is never negative, the chunk's
      yield time extends the pass's timing, and the sleep joins the pass's
      sleeps. */
  lemma PaceStep(times: seq<real>, sleeps: seq<real>, now: real, base: nat, start: real,
                 delay: nat -> Duration, simulateRealtime: bool, rate: int, sleep: real)
    requires rate > 0
    requires PassClock(times, now, base, start, delay, simulateRealtime, rate)
    requires simulateRealtime ==> PassSlept(times, sleeps, base, delay)
    requires sleep == if simulateRealtime then Max(0.0, Target(|times|, rate) - (now - start)) else 0.0
    ensures sleep >= 0.0
    ensures PassClock(times + [now + sleep], now + sleep + delay(base + |times|), base, start, delay,
                      simulateRealtime, rate)
    ensures simulateRealtime ==> PassSlept(times + [now + sleep], sleeps + [sleep], base, delay)
  {
    PassTimedSnoc(times, now + sleep, base, start, delay, simulateRealtime, rate);
    var t, z := times + [now + sleep], sleeps + [sleep];
    if simulateRealtime {
      forall m | 0 <= m < |z| ensures z[m] >= 0.0 && t[m + 1] == t[m] + delay(base + m) + z[m] {
        if m < |sleeps| {
          assert t[m] == times[m] && t[m + 1] == times[m + 1] && z[m] == sleeps[m];
        }
      }
    }
  }

  /** Every request of the stream so far was yielded at the time
      `TimedAt` gives. */
  predicate Timed(times: seq<real>, len: nat, t0: real, delay: nat -> Duration,
                  simulateRealtime: bool, rate: int)
    requires len > 0 && rate > 0
  {
    forall j :: 0 <= j < |times| ==> TimedAt(times, j, len, t0, delay, simulateRealtime, rate)
  }

  /** The clock reading when the generator next runs after the yields
      recorded in `times`. */
  function Ready(times: seq<real>, t0: real, delay: nat -> Duration): real
  {
    if |times| == 0 then t0 else times[|times| - 1] + delay(|times| - 1)
  }

  /** The sleeps of a stream whose first n yields happened at `times`: in
      order, for each audio request j < n, the time beyond the delay after
      request j - 1 that passed before request j was yielded. */
  function SleepsOf(times: seq<real>, n: nat, len: nat, delay: nat -> Duration): seq<real>
    requires n <= |times| && len > 0
    decreases n
  {
    if n == 0 then []
    else
      SleepsOf(times, n - 1, len, delay)
        + if n == 1 || Offset(n - 1, len) == 0 then [] else [times[n - 1] - (times[n - 2] + delay(n - 2))]
  }

  // ---------------------------------------------------------------------
  // Properties of the reads

  /** Reading a freshly opened file chunk by chunk loses and adds nothing. */
  lemma {:induction false} ChunksConcatenate(frames: seq<Frame>)
    ensures Flatten(Chunks(frames)) == frames
    decreases |frames|
  {
    if |frames| > 0 {
      var n := Min(CHUNK, |frames|);
      ChunksConcatenate(frames[n..]);
      assert Chunks(frames)[1..] == Chunks(frames[n..]);
      assert frames == frames[..n] + frames[n..];
    }
  }

  /** The number of chunks is the frame count divided by CHUNK, rounded up. */
  lemma {:induction false} ChunksCount(frames: seq<Frame>)
    ensures |Chunks(frames)| == (|frames| + CHUNK - 1) / CHUNK
    decreases |frames|
  {
    if |frames| > 0 {
      var n := Min(CHUNK, |frames|);
      ChunksCount(frames[n..]);
    }
  }

  /** Every chunk but the last is a full CHUNK frames. */
  lemma {:induction false} ChunksFull(frames: seq<Frame>, i: nat)
    requires i + 1 < |Chunks(frames)|
    ensures |Chunks(frames)[i]| == CHUNK
    decreases |frames|
  {
    if i > 0 {
      ChunksFull(frames[CHUNK..], i - 1);
    }
  }

  /** One read from position `pos` of the file takes the next chunk. */
  lemma ChunksStep(frames: seq<Frame>, pos: nat)
    requires pos < |frames|
    ensures var end := Min(pos + CHUNK, |frames|);
            Chunks(frames[pos..]) == [frames[pos..end]] + Chunks(frames[end..])
  {
    var end := Min(pos + CHUNK, |frames|);
    assert frames[pos..][..end - pos] == frames[pos..end];
    assert frames[pos..][end - pos..] == frames[end..];
  }

  /** The state of a pass after `n` chunks: the cursor stands at `pos`, the
      chunks still to come are the rest of the iteration's, and the
      requests yielded so far are the configuration and the first n
      chunks. */
  predicate PassRead(config: StreamingConfig, frames: seq<Frame>, pos: nat, n: nat, reqs: seq<Request>)
  {
    && pos <= |frames| && n <= |Chunks(frames)|
    && Chunks(frames[pos..]) == Chunks(frames)[n..]
    && reqs == Iteration(config, frames)[..1 + n]
  }

  /** A read at the end of the file comes after the last chunk; any other
      read returns the next chunk, and yielding it keeps `PassRead`. */
  lemma ReadStep(config: StreamingConfig, frames: seq<Frame>, pos: nat, n: nat, reqs: seq<Request>)
    requires PassRead(config, frames, pos, n, reqs)
    ensures pos == |frames| ==> n == |Chunks(frames)|
    ensures pos < |frames| ==>
      var end := if pos + CHUNK <= |frames| then pos + CHUNK else |frames|;
      PassRead(config, frames, end, n + 1, reqs + [Audio(frames[pos..end])])
  {
    var cs := Chunks(frames);
    if pos == |frames| {
      assert frames[pos..] == [];
    } else {
      ChunksStep(frames, pos);
      assert cs[n..][0] == cs[n];
      assert cs[n..][1..] == cs[n + 1..];
      IterationSnoc(config, frames, n);
    }
  }

  /** Request r + 1 of an iteration carries chunk r. */
  lemma IterationSnoc(config: StreamingConfig, frames: seq<Frame>, r: nat)
    requires r < |Chunks(frames)|
    ensures Iteration(config, frames)[..r + 2] == Iteration(config, frames)[..r + 1] + [Audio(Chunks(frames)[r])]
  {
    var cs := Chunks(frames);
    var it := Iteration(config, frames);
    AudioRequestsAt(cs, r);
    assert it[r + 1] == AudioRequests(cs)[r];
    assert it[..r + 2] == it[..r + 1] + [it[r + 1]];
  }

  /** Audio request i carries chunk i. */
  lemma {:induction false} AudioRequestsAt(cs: seq<seq<Frame>>, i: nat)
    requires i < |cs|
    ensures AudioRequests(cs)[i] == Audio(cs[i])
    decreases i
  {
    if i > 0 {
      AudioRequestsAt(cs[1..], i - 1);
      assert AudioRequests(cs)[i] == AudioRequests(cs[1..])[i - 1];
    }
  }

  // ---------------------------------------------------------------------
  // Properties of the request stream

  lemma {:induction false} AudioPayloadAppend(a: seq<Request>, b: seq<Request>)
    ensures AudioPayload(a + b) == AudioPayload(a) + AudioPayload(b)
    decreases |a|
  {
    if a == [] {
      assert a + b == b;
    } else {
      AudioPayloadAppend(a[1..], b);
      assert (a + b)[0] == a[0];
      assert (a + b)[1..] == a[1..] + b;
    }
  }

  lemma {:induction false} ConfigsAppend(a: seq<Request>, b: seq<Request>)
    ensures Configs(a + b) == Configs(a) + Configs(b)
    decreases |a|
  {
    if a == [] {
      assert a + b == b;
    } else {
      ConfigsAppend(a[1..], b);
      assert (a + b)[0] == a[0];
      assert (a + b)[1..] == a[1..] + b;
    }
  }

  lemma {:induction false} AudioRequestsFacts(cs: seq<seq<Frame>>)
    ensures forall i :: 0 <= i < |cs| ==> AudioRequests(cs)[i] == Audio(cs[i])
    ensures AudioPayload(AudioRequests(cs)) == Flatten(cs)
    ensures Configs(AudioRequests(cs)) == 0
    decreases |cs|
  {
    if cs != [] {
      AudioRequestsFacts(cs[1..]);
      var rs := AudioRequests(cs);
      assert rs[1..] == AudioRequests(cs[1..]);
      forall i | 0 <= i < |cs| ensures rs[i] == Audio(cs[i]) {
        if i > 0 {
          assert rs[i] == AudioRequests(cs[1..])[i - 1];
        }
      }
    }
  }

  lemma AudioRequestsPrefix(cs: seq<seq<Frame>>, r: nat)
    requires r <= |cs|
    ensures AudioRequests(cs)[..r] == AudioRequests(cs[..r])
  {
    AudioRequestsFacts(cs);
    AudioRequestsFacts(cs[..r]);
  }

  /** An iteration starts with its one configuration request, the rest are
      audio requests carrying the chunks in order, each of 1 to CHUNK frames,
      and the audio carried, in order, is exactly the file. */
  lemma IterationShape(config: StreamingConfig, frames: seq<Frame>)
    ensures var it := Iteration(config, frames);
      && |it| == |Chunks(frames)| + 1
      && it[0] == Config(config)
      && (forall i :: 1 <= i < |it| ==> it[i] == Audio(Chunks(frames)[i - 1]))
      && (forall i :: 1 <= i < |it| ==> it[i].Audio? && 0 < |it[i].content| <= CHUNK)
      && Configs(it) == 1
      && AudioPayload(it) == frames
  {
    var cs := Chunks(frames);
    var it := Iteration(config, frames);
    AudioRequestsFacts(cs);
    ChunksConcatenate(frames);
    assert it[1..] == AudioRequests(cs);
    assert Configs(it) == 1 + Configs(AudioRequests(cs));
    assert AudioPayload(it) == AudioPayload(AudioRequests(cs));
  }

  /** A non-empty prefix of an iteration holds exactly its configuration. */
  lemma IterationPrefixConfigs(config: StreamingConfig, frames: seq<Frame>, r: nat)
    requires r <= IterationLength(frames)
    ensures Configs(Iteration(config, frames)[..r]) == if r == 0 then 0 else 1
  {
    if r > 0 {
      var cs := Chunks(frames);
      var p := Iteration(config, frames)[..r];
      AudioRequestsPrefix(cs, r - 1);
      AudioRequestsFacts(cs[..r - 1]);
      assert p == [Config(config)] + AudioRequests(cs)[..r - 1];
      assert p[1..] == AudioRequests(cs[..r - 1]);
      assert Configs(p) == 1 + Configs(p[1..]);
    }
  }

  /** Adding an iteration at the end of the stream. */
  lemma {:induction false} RequestsSnoc(config: StreamingConfig, frames: seq<Frame>, n: nat)
    ensures Requests(config, frames, n + 1) == Requests(config, frames, n) + Iteration(config, frames)
    decreases n
  {
    if n > 0 {
      RequestsSnoc(config, frames, n - 1);
    }
  }

  /** Position of request j within its iteration, for iterations of `len`
      requests each. */
  function Offset(j: nat, len: nat): (k: nat)
    requires len > 0
    ensures k < len
    ensures k <= j
    decreases j
  {
    if j < len then j else Offset(j - len, len)
  }

  /** The stream is `numIterations` copies of one iteration: its length is
      that many times an iteration's, request j is the request at the same
      offset of an iteration, and it is a configuration exactly when it
      starts an iteration. In particular every iteration emits the same
      chunks. */
  lemma {:induction false} RequestsLayout(config: StreamingConfig, frames: seq<Frame>, n: nat, j: nat)
    requires j < |Requests(config, frames, n)|
    ensures var len := |Iteration(config, frames)|;
      && |Requests(config, frames, n)| == n * len
      && Requests(config, frames, n)[j] == Iteration(config, frames)[Offset(j, len)]
      && (Requests(config, frames, n)[j].Config? <==> Offset(j, len) == 0)
    decreases n
  {
    var len := |Iteration(config, frames)|;
    IterationShape(config, frames);
    RequestsLength(config, frames, n);
    if j >= len {
      RequestsLayout(config, frames, n - 1, j - len);
    }
  }

  lemma {:induction false} RequestsLength(config: StreamingConfig, frames: seq<Frame>, n: nat)
    ensures |Requests(config, frames, n)| == n * |Iteration(config, frames)|
    decreases n
  {
    if n > 0 {
      RequestsLength(config, frames, n - 1);
    }
  }

  /** The position within its iteration of the request k places after the
      end of i complete iterations is k. */
  lemma {:induction false} OffsetAfterRequests(config: StreamingConfig, frames: seq<Frame>, i: nat, k: nat)
    requires k < IterationLength(frames)
    ensures Offset(|Requests(config, frames, i)| + k, IterationLength(frames)) == k
    decreases i
  {
    IterationShape(config, frames);
    if i > 0 {
      OffsetAfterRequests(config, frames, i - 1, k);
    }
  }

  /** The yields of one more iteration, appended to those of i complete
      iterations, keep the stream's timing. */
  lemma TimedAppendPass(config: StreamingConfig, frames: seq<Frame>, i: nat, times: seq<real>, p: seq<real>,
                        t0: real, delay: nat -> Duration, simulateRealtime: bool, rate: int)
    requires rate > 0
    requires |times| == |Requests(config, frames, i)| && |p| <= IterationLength(frames)
    requires Timed(times, IterationLength(frames), t0, delay, simulateRealtime, rate)
    requires PassTimed(p, |times|, Ready(times, t0, delay), delay, simulateRealtime, rate)
    ensures Timed(times + p, IterationLength(frames), t0, delay, simulateRealtime, rate)
  {
    var len := IterationLength(frames);
    var all := times + p;
    forall j | 0 <= j < |all| ensures TimedAt(all, j, len, t0, delay, simulateRealtime, rate) {
      if j < |times| {
        assert TimedAt(times, j, len, t0, delay, simulateRealtime, rate);
        assert all[j] == times[j];
        assert j > 0 ==> all[j - 1] == times[j - 1];
        assert all[j - Offset(j, len)] == times[j - Offset(j, len)];
      } else {
        var k := j - |times|;
        OffsetAfterRequests(config, frames, i, k);
        assert Offset(j, len) == k;
        assert all[j] == p[k];
        assert PassTimedAt(p, k, |times|, Ready(times, t0, delay), delay, simulateRealtime, rate);
        assert PassTimedAt(p, 0, |times|, Ready(times, t0, delay), delay, simulateRealtime, rate);
        if k == 0 {
          assert j > 0 ==> all[j - 1] == times[|times| - 1];
        } else {
          assert all[j - 1] == p[k - 1];
          assert all[j - k] == p[0];
          assert j - 1 == |times| + k - 1;
        }
      }
    }
  }

  /** Past a request that starts an iteration, positions keep counting
      within that iteration. */
  lemma {:induction false} OffsetShift(a: nat, k: nat, len: nat)
    requires len > 0 && Offset(a, len) == 0 && k < len
    ensures Offset(a + k, len) == k
    decreases a
  {
    if a >= len {
      OffsetShift(a - len, k, len);
    }
  }

  /** The sleeps of the first n yields depend on those yields alone. */
  lemma {:induction false} SleepsOfPrefix(a: seq<real>, b: seq<real>, n: nat, len: nat, delay: nat -> Duration)
    requires n <= |a| && len > 0
    ensures SleepsOf(a + b, n, len, delay) == SleepsOf(a, n, len, delay)
    decreases n
  {
    if n > 0 {
      SleepsOfPrefix(a, b, n - 1, len, delay);
      assert (a + b)[n - 1] == a[n - 1];
      if n >= 2 {
        assert (a + b)[n - 2] == a[n - 2];
      }
    }
  }

  /** The first r yields of one more iteration, appended to the yields of
      complete iterations, add the first r - 1 sleeps of that iteration to
      the sleeps `SleepsOf` reads off the stream. */
  lemma {:induction false} SleepsAppendPass(times: seq<real>, p: seq<real>, z: seq<real>, len: nat,
                                            delay: nat -> Duration, r: nat)
    requires len > 0 && Offset(|times|, len) == 0 && |p| <= len && r <= |p|
    requires p != [] ==> PassSlept(p, z, |times|, delay)
    ensures SleepsOf(times + p, |times| + r, len, delay)
      == SleepsOf(times, |times|, len, delay) + z[..if r == 0 then 0 else r - 1]
    decreases r
  {
    var all := times + p;
    var n := |times|;
    if r == 0 {
      SleepsOfPrefix(times, p, n, len, delay);
    } else if r == 1 {
      SleepsAppendPass(times, p, z, len, delay, 0);
    } else {
      SleepsAppendPass(times, p, z, len, delay, r - 1);
      OffsetShift(n, r - 1, len);
      assert all[n + r - 1] == p[r - 1] && all[n + r - 2] == p[r - 2];
      assert z[r - 2] == p[r - 1] - (p[r - 2] + delay(n + r - 2));
      assert z[..r - 1] == z[..r - 2] + [z[r - 2]];
    }
  }

  /** The pacing sleeps of a stream so far: never negative, none without
      real-time simulation, and with it one per audio request, each the
      one `SleepsOf` reads off the yield times. */
  predicate StreamSlept(reqs: seq<Request>, times: seq<real>, sleeps: seq<real>, len: nat,
                        delay: nat -> Duration, simulateRealtime: bool)
    requires len > 0
  {
    && (forall m :: 0 <= m < |sleeps| ==> sleeps[m] >= 0.0)
    && (!simulateRealtime ==> sleeps == [])
    && (simulateRealtime ==> |sleeps| == |reqs| - Configs(reqs) && sleeps == SleepsOf(times, |times|, len, delay))
  }

  /** The sleeps of one more pass, appended after i complete iterations,
      keep the stream's sleeps. */
  lemma StreamSleptStep(config: StreamingConfig, frames: seq<Frame>, i: nat, reqs: seq<Request>,
                        times: seq<real>, sleeps: seq<real>, pr: seq<Request>, pt: seq<real>,
                        ps: seq<real>, delay: nat -> Duration, simulateRealtime: bool)
    requires |reqs| == |times| == |Requests(config, frames, i)|
    requires StreamSlept(reqs, times, sleeps, IterationLength(frames), delay, simulateRealtime)
    requires |pr| <= IterationLength(frames) && pr == Iteration(config, frames)[..|pr|] && |pt| == |pr|
    requires forall m :: 0 <= m < |ps| ==> ps[m] >= 0.0
    requires !simulateRealtime ==> ps == []
    requires simulateRealtime ==> |ps| == if pr == [] then 0 else |pr| - 1
    requires simulateRealtime ==> forall m :: 0 <= m < |ps| ==>
      pt[m + 1] == pt[m] + delay(|times| + m) + ps[m]
    ensures StreamSlept(reqs + pr, times + pt, sleeps + ps, IterationLength(frames), delay, simulateRealtime)
  {
    var len := IterationLength(frames);
    var z := sleeps + ps;
    forall m | 0 <= m < |z| ensures z[m] >= 0.0 {
      if m >= |sleeps| {
        assert z[m] == ps[m - |sleeps|];
      }
    }
    if simulateRealtime {
      ConfigsAppend(reqs, pr);
      IterationPrefixConfigs(config, frames, |pr|);
      OffsetAfterRequests(config, frames, i, 0);
      assert pt != [] ==> PassSlept(pt, ps, |times|, delay);
      SleepsAppendPass(times, pt, ps, len, delay, |pt|);
      assert ps[..if pt == [] then 0 else |pt| - 1] == ps;
    }
  }

  /** Yield times never decrease, and with real-time simulation the k-th
      chunk of an iteration leaves at least `Target(k, rate)` seconds after
      the iteration's configuration. */
  lemma TimedPacing(times: seq<real>, len: nat, t0: real, delay: nat -> Duration,
                    simulateRealtime: bool, rate: int)
    requires len > 0 && rate > 0
    requires Timed(times, len, t0, delay, simulateRealtime, rate)
    ensures forall j :: 0 < j < |times| ==> times[j - 1] <= times[j]
    ensures simulateRealtime ==> forall j {:trigger Offset(j, len)} ::
      0 <= j < |times| && Offset(j, len) != 0 ==>
      times[j] - times[j - Offset(j, len)] >= Target(Offset(j, len), rate)
  {
    forall j | 0 < j < |times| ensures times[j - 1] <= times[j] {
      assert TimedAt(times, j, len, t0, delay, simulateRealtime, rate);
    }
    forall j | 0 <= j < |times| && Offset(j, len) != 0 && simulateRealtime
      ensures times[j] - times[j - Offset(j, len)] >= Target(Offset(j, len), rate)
    {
      assert TimedAt(times, j, len, t0, delay, simulateRealtime, rate);
    }
  }

  /** The stream holds exactly one configuration per iteration. */
  lemma {:induction false} RequestsConfigCount(config: StreamingConfig, frames: seq<Frame>, n: int)
    ensures Configs(Requests(config, frames, n)) == if n <= 0 then 0 else n
    decreases n
  {
    if n > 0 {
      IterationShape(config, frames);
      RequestsConfigCount(config, frames, n - 1);
      ConfigsAppend(Iteration(config, frames), Requests(config, frames, n - 1));
    }
  }

  /** The file's frames `n` times over. */
  function Repeat(frames: seq<Frame>, n: int): seq<Frame>
    decreases n
  {
    if n <= 0 then [] else frames + Repeat(frames, n - 1)
  }

  /** The audio carried by the whole stream is the file once per iteration. */
  lemma {:induction false} RequestsPayload(config: StreamingConfig, frames: seq<Frame>, n: int)
    ensures AudioPayload(Requests(config, frames, n)) == Repeat(frames, n)
    decreases n
  {
    if n > 0 {
      IterationShape(config, frames);
      AudioPayloadAppend(Iteration(config, frames), Requests(config, frames, n - 1));
      RequestsPayload(config, frames, n - 1);
    }
  }

  /** What is emitted before a failure is a prefix of the stream that would
      have been emitted without it. */
  lemma {:induction false} TruncatedIsPrefix(config: StreamingConfig, frames: seq<Frame>, n: int, b: nat)
    ensures Truncated(config, frames, n, b) <= Requests(config, frames, n)
    decreases n
  {
    if n > 0 && b > |Iteration(config, frames)| {
      TruncatedIsPrefix(config, frames, n - 1, b - OpsPerIteration(frames));
    }
  }

  /** A failure after the last operation of the stream truncates nothing. */
  lemma {:induction false} TruncatedComplete(config: StreamingConfig, frames: seq<Frame>, n: int, b: nat)
    requires b >= TotalOps(frames, n)
    ensures Truncated(config, frames, n, b) == Requests(config, frames, n)
    decreases n
  {
    if n > 0 {
      TruncatedComplete(config, frames, n - 1, b - OpsPerIteration(frames));
    }
  }

  /** A failure of operation r of iteration i (both from 0) leaves the first
      i iterations and the first r requests of iteration i. */
  lemma {:induction false} TruncatedAt(config: StreamingConfig, frames: seq<Frame>, n: int, i: nat, r: nat)
    requires i < n && r <= IterationLength(frames)
    ensures Truncated(config, frames, n, TotalOps(frames, i) + r)
            == Requests(config, frames, i) + Iteration(config, frames)[..r]
    decreases i
  {
    if i == 0 {
      TruncatedInFirst(config, frames, n, r);
    } else {
      TruncatedAt(config, frames, n - 1, i - 1, r);
      TruncatedAtStep(config, frames, n, i, r);
    }
  }

  /** A failure within the first iteration truncates that iteration. */
  lemma TruncatedInFirst(config: StreamingConfig, frames: seq<Frame>, n: int, r: nat)
    requires 0 < n && r <= IterationLength(frames)
    ensures Truncated(config, frames, n, TotalOps(frames, 0) + r)
            == Requests(config, frames, 0) + Iteration(config, frames)[..r]
  {
    var it := Iteration(config, frames);
    assert Truncated(config, frames, n, r) == it[..r];
    assert Requests(config, frames, 0) + it[..r] == it[..r];
  }

  /** A failure in iteration i of the stream is one in iteration i - 1 of
      the stream without its first iteration. */
  lemma TruncatedAtStep(config: StreamingConfig, frames: seq<Frame>, n: int, i: nat, r: nat)
    requires 0 < i < n && r <= IterationLength(frames)
    requires Truncated(config, frames, n - 1, TotalOps(frames, i - 1) + r)
             == Requests(config, frames, i - 1) + Iteration(config, frames)[..r]
    ensures Truncated(config, frames, n, TotalOps(frames, i) + r)
            == Requests(config, frames, i) + Iteration(config, frames)[..r]
  {
    var it := Iteration(config, frames);
    var b := TotalOps(frames, i - 1) + r;
    assert TotalOps(frames, i) + r == b + OpsPerIteration(frames);
    TruncatedSkip(config, frames, n, b);
    var before := Requests(config, frames, i - 1);
    assert Requests(config, frames, i) == it + before;
    assert it + (before + it[..r]) == (it + before) + it[..r];
  }

  /** Past the operations of the first iteration, a failure truncates the
      remaining iterations. */
  lemma TruncatedSkip(config: StreamingConfig, frames: seq<Frame>, n: int, b: nat)
    requires n > 0
    ensures Truncated(config, frames, n, b + OpsPerIteration(frames))
            == Iteration(config, frames) + Truncated(config, frames, n - 1, b)
  {
  }

  /** Operation r of iteration i is one the stream performs. */
  lemma {:induction false} TotalOpsBelow(frames: seq<Frame>, n: int, i: nat, r: nat)
    requires i < n && r <= IterationLength(frames)
    ensures TotalOps(frames, i) + r < TotalOps(frames, n)
    decreases i
  {
    if i > 0 {
      TotalOpsBelow(frames, n - 1, i - 1, r);
    }
  }

  /** An iteration cut short by a failure after its first r requests ends
      the stream as `Truncated` says. */
  lemma FailedPass(config: StreamingConfig, frames: seq<Frame>, n: int, i: nat, r: nat,
                   reqs: seq<Request>, pass: seq<Request>, b: nat)
    requires i < n && r <= IterationLength(frames)
    requires reqs == Requests(config, frames, i) && pass == Iteration(config, frames)[..r]
    requires b == TotalOps(frames, i) + r
    ensures reqs + pass == Truncated(config, frames, n, b)
    ensures b < TotalOps(frames, n)
  {
    TruncatedAt(config, frames, n, i, r);
    TotalOpsBelow(frames, n, i, r);
  }

  /** A complete iteration extends the stream by one iteration. */
  lemma CompletedPass(config: StreamingConfig, frames: seq<Frame>, i: nat, reqs: seq<Request>)
    requires reqs == Requests(config, frames, i)
    ensures reqs + Iteration(config, frames) == Requests(config, frames, i + 1)
    ensures TotalOps(frames, i) + OpsPerIteration(frames) == TotalOps(frames, i + 1)
  {
    RequestsSnoc(config, frames, i);
  }

  /** The stream performs `OpsPerIteration` I/O operations per iteration. */
  lemma {:induction false} TotalOpsValue(frames: seq<Frame>, n: nat)
    ensures TotalOps(frames, n) == n * OpsPerIteration(frames)
    decreases n
  {
    if n > 0 {
      TotalOpsValue(frames, n - 1);
    }
  }

  // ---------------------------------------------------------------------
  // The generator

  /** One iteration of the generator: reopen the file, note the start time,
      yield the configuration, then read and yield chunks (sleeping first
      when simulating real time) until a read comes back empty. It starts
      with I/O operation number `ops0` at clock reading `start`, after
      `base` requests of the stream; an exception from the open or a read
      ends it early with `raised`. */
  method Pass(config: StreamingConfig, frames: seq<Frame>, rate: int, simulateRealtime: bool,
              faultAt: Option<nat>, delay: nat -> Duration, base: nat, ops0: nat, start: real)
    returns (reqs: seq<Request>, times: seq<real>, sleeps: seq<real>, raised: bool)
    requires rate > 0
    ensures |reqs| <= |Iteration(config, frames)|
    ensures reqs == Iteration(config, frames)[..|reqs|]
    ensures !raised ==> reqs == Iteration(config, frames)
    ensures raised ==> faultAt == Some(ops0 + |reqs|)
    ensures !raised ==> !(faultAt.Some? && ops0 <= faultAt.value < ops0 + OpsPerIteration(frames))
    ensures |times| == |reqs|
    ensures PassTimed(times, base, start, delay, simulateRealtime, rate)
    ensures forall m :: 0 <= m < |sleeps| ==> sleeps[m] >= 0.0
    ensures !simulateRealtime ==> sleeps == []
    ensures simulateRealtime ==> |sleeps| == if reqs == [] then 0 else |reqs| - 1
    ensures simulateRealtime ==> forall m :: 0 <= m < |sleeps| ==>
      times[m + 1] == times[m] + delay(base + m) + sleeps[m]
  {
    ghost var it := Iteration(config, frames);
    ghost var cs := Chunks(frames);
    reqs, times, sleeps := [], [], [];
    if Fails(faultAt, ops0) {
      raised := true;
      return;
    }
    var w := new WaveReader.Open(frames);
    var startTime := start;
    assert it[..1] == [Config(config)];
    assert frames[0..] == frames;
    reqs := [Config(config)];
    times := [start];
    var now := start + delay(base);
    var numRequests: nat := 0;
    raised := false;
    while true
      invariant w.Valid() && w.frames == frames
      invariant PassRead(config, frames, w.pos, numRequests, reqs)
      invariant |times| == |reqs| == 1 + numRequests
      invariant !(faultAt.Some? && ops0 <= faultAt.value <= ops0 + numRequests)
      invariant PassClock(times, now, base, start, delay, simulateRealtime, rate)
      invariant !simulateRealtime ==> sleeps == []
      invariant simulateRealtime ==> PassSlept(times, sleeps, base, delay)
      decreases |frames| - w.pos
    {
      if Fails(faultAt, ops0 + 1 + numRequests) {
        raised := true;
        break;
      }
      ReadStep(config, frames, w.pos, numRequests, reqs);
      var d := w.ReadFrames(CHUNK);
      if |d| == 0 {
        break;
      }
      var timeToSleep := 0.0;
      if simulateRealtime {
        timeToSleep := Max(0.0, Target(numRequests + 1, rate) - (now - startTime));
      }
      PaceStep(times, sleeps, now, base, start, delay, simulateRealtime, rate, timeToSleep);
      if simulateRealtime {
        sleeps := sleeps + [timeToSleep];
      }
      numRequests := numRequests + 1;
      reqs := reqs + [Audio(d)];
      var sendAt := now + timeToSleep;
      now := sendAt + delay(base + |times|);
      times := times + [sendAt];
    }
  }

  /** The generator of one session, run to completion against a clock that
      starts at `t0` and advances by `delay(j)` after request j is yielded
      and by each pacing sleep. `faultAt` names the I/O operation that
      raises, if any; the exception ends the stream. Returns the yielded
      requests, the clock reading at each yield, the arguments of the
      pacing sleeps and whether an exception ended the stream. */
  method Generate(config: StreamingConfig, frames: seq<Frame>, rate: int, numIterations: int,
                  simulateRealtime: bool, faultAt: Option<nat>, t0: real, delay: nat -> Duration)
    returns (reqs: seq<Request>, sendTimes: seq<real>, sleeps: seq<real>, raised: bool)
    requires rate > 0
    ensures faultAt.None? ==> !raised && reqs == Requests(config, frames, numIterations)
    ensures faultAt.Some? ==> reqs == Truncated(config, frames, numIterations, faultAt.value)
    ensures raised <==> faultAt.Some? && faultAt.value < TotalOps(frames, numIterations)
    ensures |sendTimes| == |reqs|
    ensures Timed(sendTimes, IterationLength(frames), t0, delay, simulateRealtime, rate)
    ensures forall j :: 0 < j < |sendTimes| ==> sendTimes[j - 1] <= sendTimes[j]
    ensures simulateRealtime ==> forall j {:trigger Offset(j, IterationLength(frames))} ::
      0 <= j < |reqs| && Offset(j, IterationLength(frames)) != 0 ==>
      var k := Offset(j, IterationLength(frames));
      sendTimes[j] - sendTimes[j - k] >= Target(k, rate)
    ensures forall m :: 0 <= m < |sleeps| ==> sleeps[m] >= 0.0
    ensures !simulateRealtime ==> sleeps == []
    ensures simulateRealtime ==> |sleeps| == |reqs| - Configs(reqs)
    ensures simulateRealtime ==> sleeps == SleepsOf(sendTimes, |sendTimes|, IterationLength(frames), delay)
  {
    var len := IterationLength(frames);
    reqs, sendTimes, sleeps, raised := [], [], [], false;
    var i: nat := 0;
    while i < numIterations
      invariant numIterations > 0 ==> i <= numIterations
      invariant numIterations <= 0 ==> i == 0
      invariant |sendTimes| == |reqs|
      invariant reqs == Requests(config, frames, i)
      invariant faultAt.Some? ==> faultAt.value >= TotalOps(frames, i)
      invariant Timed(sendTimes, len, t0, delay, simulateRealtime, rate)
      invariant StreamSlept(reqs, sendTimes, sleeps, len, delay, simulateRealtime)
      decreases numIterations - i
    {
      var passReqs, passTimes, passSleeps, passRaised :=
        Pass(config, frames, rate, simulateRealtime, faultAt, delay, |reqs|, TotalOps(frames, i),
             Ready(sendTimes, t0, delay));
      TimedAppendPass(config, frames, i, sendTimes, passTimes, t0, delay, simulateRealtime, rate);
      StreamSleptStep(config, frames, i, reqs, sendTimes, sleeps, passReqs, passTimes, passSleeps, delay,
                      simulateRealtime);
      if passRaised {
        FailedPass(config, frames, numIterations, i, |passReqs|, reqs, passReqs, faultAt.value);
      } else {
        CompletedPass(config, frames, i, reqs);
      }
      reqs := reqs + passReqs;
      sendTimes := sendTimes + passTimes;
      sleeps := sleeps + passSleeps;
      if passRaised {
        raised := true;
        break;
      }
      i := i + 1;
    }
    TimedPacing(sendTimes, len, t0, delay, simulateRealtime, rate);
    if !raised && faultAt.Some? {
      TruncatedComplete(config, frames, numIterations, faultAt.value);
    }
  }
}
