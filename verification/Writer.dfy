/** The server's writer task (crates/moonlight-bridge-server/src/lib.rs): it takes queued
    frames, passes each through the pipeline, gathers up to 64 of them or 512 KiB into one
    write, and puts a frame that no longer fits aside for the next batch. */
module Writer {
  import opened Common
  import opened Wire
  import opened Frames
  import opened Compression
  import opened Outbound

  const MAX_BATCH_FRAMES: nat := 64
  const WRITER_BATCH_BYTES: nat := 512 * 1024

  predicate AllSound(queue: seq<Frame>) {
    forall i :: 0 <= i < |queue| ==> Sound(queue[i])
  }

  /** What the writer relies on: a sound frame comes out of the pipeline readable for the peer. */
  ghost predicate Prepares(prepare: Frame -> Frame, maxBody: nat) {
    maxBody <= U32_MAX && forall f {:trigger prepare(f)} :: Sound(f) ==> Readable(prepare(f), maxBody)
  }

  /** One write: its frames and their bytes. */
  ghost predicate GoodBatch(frames: seq<Frame>, data: bytes) {
    && data == FlatMap(frames, FrameBytes)
    && 1 <= |frames| <= MAX_BATCH_FRAMES
    && (|frames| > 1 ==> |data| <= WRITER_BATCH_BYTES)
  }

  /** The i-th queued frame as it was written: once through the pipeline, or twice if it was
      put aside. */
  ghost predicate WrittenAs(prepare: Frame -> Frame, queue: seq<Frame>, deferrals: set<nat>, written: seq<Frame>) {
    && |written| <= |queue|
    && forall i: nat :: i < |written| ==>
         written[i] == if i in deferrals then prepare(prepare(queue[i])) else prepare(queue[i])
  }

  /** The queue between two batches: `next` frames taken, the last of them perhaps put aside
      after one pass. */
  ghost predicate Between(prepare: Frame -> Frame, queue: seq<Frame>, next: nat, deferred: Option<Frame>, written: nat)
  {
    && next <= |queue|
    && (deferred.None? ==> next == written)
    && (deferred.Some? ==> next == written + 1 && deferred.value == prepare(queue[written]))
  }

  ghost predicate Batch(prepare: Frame -> Frame, queue: seq<Frame>, from: nat, again: bool, batch: seq<Frame>) {
    && from + |batch| <= |queue|
    && forall i :: 0 <= i < |batch| ==>
         batch[i] == if i == 0 && again then prepare(prepare(queue[from]))
                     else prepare(queue[from + i])
  }

  ghost predicate AlwaysReady(ready: nat -> bool) {
    forall k :: ready(k)
  }

  /** If a frame is always ready and there are more, the batch is full or left one aside. */
  ghost predicate Uncut(ready: nat -> bool, batch: seq<Frame>, aside: bool, more: bool) {
    AlwaysReady(ready) && !aside && more ==> |batch| == MAX_BATCH_FRAMES
  }

  /** A frame that did not fit this batch: the i-th of the queue. */
  ghost predicate DoesNotFit(prepare: Frame -> Frame, queue: seq<Frame>, data: bytes, batch: seq<Frame>, i: nat) {
    && i < |queue| && |batch| < MAX_BATCH_FRAMES
    && |data| + HEADER_LEN + |prepare(queue[i]).body| > WRITER_BATCH_BYTES
  }

  ghost predicate AllReady(ready: nat -> bool, j: nat, i: nat) {
    forall k :: j <= k < i ==> ready(k)
  }

  /** One round of the writer's loop. `ready(k)` is what the k-th `try_recv` finds: with any
      `ready`, every arrival pattern is covered. The round ends only when the batch is full,
      nothing is ready, or the next frame does not fit and is put aside. Frames beyond the
      first are taken only as polls find them ready. */
  method WriteBatch(prepare: Frame -> Frame, maxBody: nat, queue: seq<Frame>, next0: nat, deferred0: Option<Frame>,
                    ready: nat -> bool, polls0: nat, ghost written: nat)
    returns (data: bytes, next: nat, deferred: Option<Frame>, polls: nat, held: seq<Frame>)
    requires AllSound(queue) && Prepares(prepare, maxBody)
    requires Between(prepare, queue, next0, deferred0, written) && written < |queue|
    ensures GoodBatch(held, data) && Batch(prepare, queue, written, deferred0.Some?, held)
    ensures Between(prepare, queue, next, deferred, written + |held|)
    ensures deferred.Some? ==> DoesNotFit(prepare, queue, data, held, written + |held|)
    ensures |held| == MAX_BATCH_FRAMES || deferred.Some? || next == |queue| || (polls > 0 && !ready(polls - 1))
    ensures Uncut(ready, held, deferred.Some?, next < |queue|)
    ensures |held| - 1 <= polls - polls0 <= |held|
    ensures AllReady(ready, polls0, polls0 + |held| - 1 + if deferred.Some? then 1 else 0)
  {
    next, deferred, polls := next0, None, polls0;
    var first;
    if deferred0.Some? {
      first := deferred0.value;
    } else {
      first := queue[next];
      next := next + 1;
    }
    first := prepare(first);
    PreparedEncodes(first, maxBody);
    data := EncodeFrame(first).value;
    held := [first];
    var frames := 1;
    BatchStarts(prepare, queue, written, deferred0.Some?, first);
    while frames < MAX_BATCH_FRAMES
      invariant frames == |held| && GoodBatch(held, data) && Batch(prepare, queue, written, deferred0.Some?, held)
      invariant next == written + |held| <= |queue| && deferred.None?
      invariant polls == polls0 + |held| - 1 && AllReady(ready, polls0, polls)
    {
      polls := polls + 1;
      if next == |queue| || !ready(polls - 1) {
        break;
      }
      var queued := prepare(queue[next]);
      PreparedEncodes(queued, maxBody);
      next := next + 1;
      var frameLen := HEADER_LEN + |queued.body|;
      if |data| + frameLen > WRITER_BATCH_BYTES {
        deferred := Some(queued);
        break;
      }
      BatchGrows(prepare, queue, written, deferred0.Some?, held, data, queued);
      data := data + EncodeFrame(queued).value;
      held := held + [queued];
      frames := frames + 1;
    }
  }

  lemma BatchStarts(prepare: Frame -> Frame, queue: seq<Frame>, from: nat, again: bool, first: Frame)
    requires from < |queue|
    requires first == if again then prepare(prepare(queue[from])) else prepare(queue[from])
    ensures GoodBatch([first], FrameBytes(first)) && Batch(prepare, queue, from, again, [first])
  {
  }

  lemma BatchGrows(prepare: Frame -> Frame, queue: seq<Frame>, from: nat, again: bool, batch: seq<Frame>, data: bytes,
                   f: Frame)
    requires GoodBatch(batch, data) && Batch(prepare, queue, from, again, batch)
    requires |batch| < MAX_BATCH_FRAMES && from + |batch| < |queue| && f == prepare(queue[from + |batch|])
    requires |data| + |FrameBytes(f)| <= WRITER_BATCH_BYTES
    ensures GoodBatch(batch + [f], data + FrameBytes(f)) && Batch(prepare, queue, from, again, batch + [f])
  {
    FlatMapAppend(batch, f, FrameBytes);
  }

  /** A readable frame never makes `encode_into` fail. */
  lemma PreparedEncodes(f: Frame, maxBody: nat)
    requires Readable(f, maxBody)
    ensures EncodeFrame(f) == Ok(FrameBytes(f)) && |FrameBytes(f)| == HEADER_LEN + |f.body|
  {
  }

  // ---------------------------------------------------------------------------
  // The loop

  /** One round of the loop: where in the queue its batch starts, whether its first frame had
      been put aside, the frames and the bytes written. */
  datatype Round = Round(start: nat, again: bool, frames: seq<Frame>, data: bytes)

  ghost predicate RoundOk(prepare: Frame -> Frame, queue: seq<Frame>, r: Round) {
    GoodBatch(r.frames, r.data) && Batch(prepare, queue, r.start, r.again, r.frames)
  }

  /** A round takes up where the one before ended; a frame is put aside only because it did
      not fit there, and if a frame is always ready no batch ends early for another reason. */
  ghost predicate Follows(prepare: Frame -> Frame, queue: seq<Frame>, ready: nat -> bool, before: Round, r: Round) {
    && r.start == before.start + |before.frames|
    && (r.again ==> DoesNotFit(prepare, queue, before.data, before.frames, r.start))
    && Uncut(ready, before.frames, r.again, true)
  }

  ghost predicate Rounds(prepare: Frame -> Frame, queue: seq<Frame>, ready: nat -> bool, rounds: seq<Round>) {
    && (forall b :: 0 <= b < |rounds| ==> RoundOk(prepare, queue, rounds[b]))
    && (forall b :: 0 < b < |rounds| ==> Follows(prepare, queue, ready, rounds[b - 1], rounds[b]))
    && (rounds != [] ==> rounds[0].start == 0 && !rounds[0].again)
  }

  function EndOf(rounds: seq<Round>): nat {
    if rounds == [] then 0 else rounds[|rounds| - 1].start + |rounds[|rounds| - 1].frames|
  }

  /** What the last round says about the next one. */
  ghost predicate LastLeaves(prepare: Frame -> Frame, queue: seq<Frame>, ready: nat -> bool, rounds: seq<Round>,
                             aside: bool, more: bool)
  {
    if rounds == [] then !aside
    else
      var last := rounds[|rounds| - 1];
      && (aside ==> DoesNotFit(prepare, queue, last.data, last.frames, EndOf(rounds)))
      && Uncut(ready, last.frames, aside, more)
  }

  lemma RoundAdded(prepare: Frame -> Frame, queue: seq<Frame>, ready: nat -> bool, rounds: seq<Round>, r: Round)
    requires Rounds(prepare, queue, ready, rounds) && RoundOk(prepare, queue, r)
    requires LastLeaves(prepare, queue, ready, rounds, r.again, true) && r.start == EndOf(rounds)
    ensures Rounds(prepare, queue, ready, rounds + [r])
  {
    var more := rounds + [r];
    forall b | 0 < b < |more| ensures Follows(prepare, queue, ready, more[b - 1], more[b]) {
      if b < |rounds| { assert Follows(prepare, queue, ready, rounds[b - 1], rounds[b]); }
    }
  }

  /** The writer's loop until its queue is closed and empty, over any pipeline that keeps
      frames readable. */
  method WriteAll(prepare: Frame -> Frame, maxBody: nat, queue: seq<Frame>, ready: nat -> bool)
    returns (rounds: seq<Round>)
    requires AllSound(queue) && Prepares(prepare, maxBody)
    ensures Rounds(prepare, queue, ready, rounds) && EndOf(rounds) == |queue|
  {
    rounds := [];
    var count: nat := 0;
    var next: nat, deferred, polls: nat := 0, None, 0;
    while deferred.Some? || next < |queue|
      invariant Rounds(prepare, queue, ready, rounds) && count == EndOf(rounds)
      invariant Between(prepare, queue, next, deferred, count)
      invariant LastLeaves(prepare, queue, ready, rounds, deferred.Some?, next < |queue|)
      decreases |queue| - count
    {
      var again := deferred.Some?;
      var data, held;
      data, next, deferred, polls, held := WriteBatch(prepare, maxBody, queue, next, deferred, ready, polls, count);
      var r := Round(count, again, held, data);
      RoundAdded(prepare, queue, ready, rounds, r);
      rounds := rounds + [r];
      count := count + |held|;
    }
  }

  // ---------------------------------------------------------------------------
  // What the rounds have written

  function FramesOf(r: Round): seq<Frame> {
    r.frames
  }

  function DataOf(r: Round): bytes {
    r.data
  }

  /** The frames that were put aside. */
  function Deferrals(rounds: seq<Round>): set<nat> {
    set b | 0 <= b < |rounds| && rounds[b].again :: rounds[b].start
  }

  /** The rounds have written every frame up to their end, once, in order, and each as the
      pipeline makes it; the bytes are the frames' encodings. */
  lemma {:induction false} RoundsWrite(prepare: Frame -> Frame, queue: seq<Frame>, ready: nat -> bool,
                                       rounds: seq<Round>)
    requires Rounds(prepare, queue, ready, rounds)
    ensures var written := FlatMap(rounds, FramesOf);
      && |written| == EndOf(rounds) && WrittenAs(prepare, queue, Deferrals(rounds), written)
      && FlatMap(rounds, DataOf) == FlatMap(written, FrameBytes)
    ensures forall i :: i in Deferrals(rounds) ==> i < EndOf(rounds)
  {
    if rounds != [] {
      var front, last := rounds[..|rounds| - 1], rounds[|rounds| - 1];
      assert rounds == front + [last];
      FrontRounds(prepare, queue, ready, rounds);
      RoundsWrite(prepare, queue, ready, front);
      FlatMapAppend(front, last, FramesOf);
      FlatMapAppend(front, last, DataOf);
      FlatMapConcat(FlatMap(front, FramesOf), last.frames, FrameBytes);
      DeferralsAppend(front, last);
      BatchWritten(prepare, queue, Deferrals(front), FlatMap(front, FramesOf), last.frames, last.again);
    }
  }

  lemma FrontRounds(prepare: Frame -> Frame, queue: seq<Frame>, ready: nat -> bool, rounds: seq<Round>)
    requires Rounds(prepare, queue, ready, rounds) && rounds != []
    ensures Rounds(prepare, queue, ready, rounds[..|rounds| - 1])
    ensures rounds[|rounds| - 1].start == EndOf(rounds[..|rounds| - 1]) && RoundOk(prepare, queue, rounds[|rounds| - 1])
    ensures |rounds| == 1 ==> !rounds[0].again
  {
    var front := rounds[..|rounds| - 1];
    forall b | 0 < b < |front| ensures Follows(prepare, queue, ready, front[b - 1], front[b]) {
      assert Follows(prepare, queue, ready, rounds[b - 1], rounds[b]);
    }
    if |rounds| > 1 {
      assert Follows(prepare, queue, ready, rounds[|rounds| - 2], rounds[|rounds| - 1]);
    }
  }

  lemma DeferralsAppend(rounds: seq<Round>, r: Round)
    ensures Deferrals(rounds + [r]) == if r.again then Deferrals(rounds) + {r.start} else Deferrals(rounds)
  {
    var more := rounds + [r];
    assert more[|rounds|] == r;
    forall i | i in Deferrals(rounds) ensures i in Deferrals(more) {
      var b :| 0 <= b < |rounds| && rounds[b].again && rounds[b].start == i;
      assert more[b] == rounds[b];
    }
  }

  lemma BatchWritten(prepare: Frame -> Frame, queue: seq<Frame>, deferrals: set<nat>, written: seq<Frame>,
                     batch: seq<Frame>, again: bool)
    requires WrittenAs(prepare, queue, deferrals, written) && Batch(prepare, queue, |written|, again, batch)
    requires forall i :: i in deferrals ==> i < |written|
    ensures WrittenAs(prepare, queue, if again then deferrals + {|written|} else deferrals, written + batch)
  {
  }

  lemma AllWrittenReadable(prepare: Frame -> Frame, maxBody: nat, queue: seq<Frame>, deferrals: set<nat>,
                           written: seq<Frame>)
    requires AllSound(queue) && Prepares(prepare, maxBody) && WrittenAs(prepare, queue, deferrals, written)
    ensures AllReadable(written, maxBody)
  {
  }

  // ---------------------------------------------------------------------------
  // The writer task

  function Prepared(z: Zstd, cfg: Config): Frame -> Frame {
    (f: Frame) => Pipeline(z, cfg, f)
  }

  lemma PipelinePrepares(z: Zstd, cfg: Config)
    requires cfg.maxBody <= U32_MAX
    ensures Prepares(Prepared(z, cfg), cfg.maxBody)
  {
    forall f | Sound(f) ensures Readable(Prepared(z, cfg)(f), cfg.maxBody) {
      PipelineReadable(z, cfg, f);
    }
  }

  /** The writer task: every queued frame is written, none lost, repeated or reordered, in
      batches within their limits. What is written reads back, at the negotiated limit, as
      the queued frames after the pipeline. A frame passes the pipeline twice only if it did
      not fit the batch before it. */
  method RunWriter(z: Zstd, cfg: Config, queue: seq<Frame>, ready: nat -> bool) returns (rounds: seq<Round>)
    requires AllSound(queue) && cfg.maxBody <= U32_MAX
    ensures Rounds(Prepared(z, cfg), queue, ready, rounds)
    ensures var written := FlatMap(rounds, FramesOf);
      && |written| == |queue| && WrittenAs(Prepared(z, cfg), queue, Deferrals(rounds), written)
      && ReadFrames(FlatMap(rounds, DataOf), 0, cfg.maxBody) == Some(written)
  {
    PipelinePrepares(z, cfg);
    rounds := WriteAll(Prepared(z, cfg), cfg.maxBody, queue, ready);
    ghost var written := FlatMap(rounds, FramesOf);
    RoundsWrite(Prepared(z, cfg), queue, ready, rounds);
    AllWrittenReadable(Prepared(z, cfg), cfg.maxBody, queue, Deferrals(rounds), written);
    StreamReadsIff(FlatMap(rounds, DataOf), cfg.maxBody, written);
  }

  /** Deferral cannot be seen if and only if the deferred frames are settled. */
  lemma DeferralInvisible(z: Zstd, cfg: Config, queue: seq<Frame>, deferrals: set<nat>, written: seq<Frame>)
    requires WrittenAs(Prepared(z, cfg), queue, deferrals, written) && |written| == |queue|
    requires forall i :: 0 <= i < |queue| ==> queue[i].flags == 0
    ensures (forall i: nat :: i in deferrals && i < |queue| ==> Settled(z, cfg, queue[i])) <==>
      forall i :: 0 <= i < |queue| ==> written[i] == Pipeline(z, cfg, queue[i])
  {
    forall i | 0 <= i < |queue|
      ensures written[i] == Pipeline(z, cfg, queue[i]) <==> (i in deferrals ==> Settled(z, cfg, queue[i]))
    {
      PipelineIdempotentIff(z, cfg, queue[i]);
    }
  }

  // ---------------------------------------------------------------------------
  // A response the writer loses

  lemma TwoFramesLong(frames: seq<Frame>)
    requires |frames| >= 2
    ensures |FlatMap(frames, FrameBytes)| >= |FrameBytes(frames[0])| + HEADER_LEN
  {
    assert FlatMap(frames, FrameBytes) == FrameBytes(frames[0]) + FlatMap(frames[1..], FrameBytes);
    assert FlatMap(frames[1..], FrameBytes) == FrameBytes(frames[1]) + FlatMap(frames[1..][1..], FrameBytes);
  }

  /** If the first of two frames leaves no room for another, the second is put aside. */
  lemma SecondIsPutAside(prepare: Frame -> Frame, queue: seq<Frame>, ready: nat -> bool, rounds: seq<Round>)
    requires Rounds(prepare, queue, ready, rounds) && AlwaysReady(ready) && |queue| == 2 && EndOf(rounds) == 2
    requires |FrameBytes(prepare(queue[0]))| + HEADER_LEN > WRITER_BATCH_BYTES
    ensures Deferrals(rounds) == {1}
  {
    var first := rounds[0];
    assert RoundOk(prepare, queue, first) && first.frames[0] == prepare(queue[0]);
    assert |first.frames| == 1 by {
      if |first.frames| > 1 { TwoFramesLong(first.frames); }
    }
    assert Follows(prepare, queue, ready, rounds[0], rounds[1]);
    RoundsWrite(prepare, queue, ready, rounds);
    forall i | i in Deferrals(rounds) ensures i == 1 {
      var b :| 0 <= b < |rounds| && rounds[b].again && rounds[b].start == i;
      assert RoundOk(prepare, queue, rounds[b - 1]) && Follows(prepare, queue, ready, rounds[b - 1], rounds[b]);
    }
  }

  /** Two frames queued together, the first leaving no room in its batch: the second goes
      through the pipeline twice. */
  method WriteBehindFull(z: Zstd, cfg: Config, first: Frame, second: Frame) returns (output: bytes)
    requires Sound(first) && Sound(second) && cfg.maxBody <= U32_MAX
    requires |FrameBytes(Pipeline(z, cfg, first))| + HEADER_LEN > WRITER_BATCH_BYTES
    ensures ReadFrames(output, 0, cfg.maxBody) ==
      Some([Pipeline(z, cfg, first), Pipeline(z, cfg, Pipeline(z, cfg, second))])
  {
    var ready := (_: nat) => true;
    var rounds := RunWriter(z, cfg, [first, second], ready);
    output := FlatMap(rounds, DataOf);
    SecondPassesTwice(Prepared(z, cfg), first, second, ready, rounds);
  }

  lemma SecondPassesTwice(prepare: Frame -> Frame, first: Frame, second: Frame, ready: nat -> bool, rounds: seq<Round>)
    requires Rounds(prepare, [first, second], ready, rounds) && AlwaysReady(ready)
    requires |FlatMap(rounds, FramesOf)| == 2 && |FrameBytes(prepare(first))| + HEADER_LEN > WRITER_BATCH_BYTES
    ensures FlatMap(rounds, FramesOf) == [prepare(first), prepare(prepare(second))]
  {
    RoundsWrite(prepare, [first, second], ready, rounds);
    SecondIsPutAside(prepare, [first, second], ready, rounds);
  }

  /** A frame that is not compressed and fills a batch by itself. */
  function FillingFrame(): Frame {
    Frame(Pong, 0, 0, 1, Zeros(WRITER_BATCH_BYTES - HEADER_LEN))
  }

  lemma FillingFrameStays()
    ensures Pipeline(HalvingZstd(), EXAMPLE_CONFIG, FillingFrame()) == FillingFrame()
    ensures |FrameBytes(FillingFrame())| == WRITER_BATCH_BYTES
  {
    PipelineCases(HalvingZstd(), EXAMPLE_CONFIG, FillingFrame());
  }

  /** Behind a frame that fills the batch, a response the pipeline would let through is put
      aside, compressed again and written as an error, although decompression undoes
      compression. */
  method DeferredResponseIsLost() returns (output: bytes)
    ensures Inverse(HalvingZstd()) && Pipeline(HalvingZstd(), EXAMPLE_CONFIG, ExampleResponse()).kind == Response
    ensures var frames := ReadFrames(output, 0, EXAMPLE_CONFIG.maxBody);
      frames.Some? && |frames.value| == 2 && frames.value[0] == FillingFrame() && frames.value[1].kind == Error
  {
    TwoPassesCanLoseResponse();
    FillingFrameStays();
    output := WriteBehindFull(HalvingZstd(), EXAMPLE_CONFIG, FillingFrame(), ExampleResponse());
  }
}
