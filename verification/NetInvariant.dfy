/** What the Zygote, the workers and the sockets keep: whole frames, each result once, in order. */
module NetInvariant {
  import opened Wire
  import opened RunProtocol

  // ------------------------------------------------------------------ frames

  function Frames(qs: seq<Queued>): seq<byte> {
    if qs == [] then [] else qs[0].frame + Frames(qs[1..])
  }

  function Concat(cs: seq<seq<byte>>): seq<byte> {
    if cs == [] then [] else cs[0] + Concat(cs[1..])
  }

  lemma {:induction false} FramesSnoc(qs: seq<Queued>, q: Queued)
    ensures Frames(qs + [q]) == Frames(qs) + q.frame
  {
    if qs == [] {
      assert qs + [q] == [q];
      assert Frames([q][1..]) == [];
    } else {
      assert (qs + [q])[1..] == qs[1..] + [q];
      FramesSnoc(qs[1..], q);
      Assoc(qs[0].frame, Frames(qs[1..]), q.frame);
    }
  }

  lemma {:induction false} ConcatSnoc(cs: seq<seq<byte>>, c: seq<byte>)
    ensures Concat(cs + [c]) == Concat(cs) + c
  {
    if cs == [] {
      assert cs + [c] == [c];
      assert Concat([c][1..]) == [];
    } else {
      assert (cs + [c])[1..] == cs[1..] + [c];
      ConcatSnoc(cs[1..], c);
      Assoc(cs[0], Concat(cs[1..]), c);
    }
  }

  /** Reading from a prefix of a frame stream yields the first frame or nothing. */
  lemma ReadPrefix(body: seq<byte>, rest: seq<byte>, p: seq<byte>)
    requires |body| < 0x1_0000_0000
    requires p <= Frame(body) + rest
    requires ReadFrame(p).Got?
    ensures ReadFrame(p).value == body && p == Frame(body) + ReadFrame(p).rest
  {
    var n := |Frame(body)|;
    if |p| < n {
      assert p == Frame(body)[..|p|];
      PartialFrameUnreadable(body, |p|);
    } else {
      assert p == Frame(body) + p[n..];
      ReadFrameInverts(body, p[n..]);
    }
  }

  // --------------------------------------------------------------- invariants

  predicate Fits(r: TestResult) { |EncodeResult(r)| < 0x1_0000_0000 }

  /** A worker has written a beginning of its one result frame, if anything. */
  ghost predicate SentOk(w: Worker) {
    match w.result
    case None => w.sent == []
    case Some(r) => r.testId == w.payload.testId && Fits(r) && w.sent <= FrameOf(r)
  }

  ghost predicate WorkersOk(ws: map<u32, Worker>, next: nat) {
    forall id :: id in ws ==> id < next && ws[id].payload.testId == id && SentOk(ws[id])
  }

  /** The queued result is the result of its worker. */
  ghost predicate Owned(q: Queued, ws: map<u32, Worker>) {
    && q.result.testId in ws
    && ws[q.result.testId].result == Some(q.result)
    && !ws[q.result.testId].collecting
  }

  /** Each result is queued once, by its worker's collector. */
  ghost predicate LogOk(log: seq<Queued>, ws: map<u32, Worker>) {
    && (forall i :: 0 <= i < |log| ==> Owned(log[i], ws))
    && DistinctIds(log)
  }

  ghost predicate DistinctIds(log: seq<Queued>) {
    forall i, j :: 0 <= i < j < |log| ==> log[i].result.testId != log[j].result.testId
  }

  ghost predicate Complete(q: Queued) { Fits(q.result) && q.frame == FrameOf(q.result) }

  /** Only complete frames are queued. */
  ghost predicate AllComplete(log: seq<Queued>) {
    forall i :: 0 <= i < |log| ==> Complete(log[i])
  }

  /** The channel holds the frames queued last. */
  ghost predicate ChannelOk(log: seq<Queued>, channel: seq<seq<byte>>) {
    && |channel| <= |log|
    && forall i :: 0 <= i < |channel| ==> channel[i] == log[|log| - |channel| + i].frame
  }

  /** The bytes still to be read are the frames still to be read, cut off if the Zygote died. */
  ghost predicate BytesOk(up: bool, pipe: seq<byte>, behind: seq<byte>, pending: seq<Queued>) {
    if up then pipe + behind == Frames(pending) else pipe <= Frames(pending)
  }

  ghost predicate ProducersOk(ws: map<u32, Worker>, next: nat, log: seq<Queued>) {
    WorkersOk(ws, next) && LogOk(log, ws) && AllComplete(log)
  }

  ghost predicate QueueOk(up: bool, pipe: seq<byte>, writing: seq<byte>, channel: seq<seq<byte>>, log: seq<Queued>, got: nat) {
    && ChannelOk(log, channel) && got <= |log|
    && BytesOk(up, pipe, writing + Concat(channel), log[got..])
  }

  ghost predicate NetOk(n: Net, next: nat) {
    ProducersOk(n.workers, next, n.log) && QueueOk(n.up, n.pipe, n.writing, n.channel, n.log, n.got)
  }

  // ------------------------------------------------------------- worker steps

  lemma FinishOk(w: Worker, outcome: HarnessOutcome, ns: u64)
    requires SentOk(w)
    ensures SentOk(WorkerStep(w, FinishTest(outcome, ns)))
  {}

  lemma WriteOk(w: Worker, n: nat)
    requires SentOk(w)
    ensures SentOk(WorkerStep(w, Write(n)))
  {}

  lemma WorkerStepOk(w: Worker, act: WorkerAct)
    requires SentOk(w)
    ensures var w' := WorkerStep(w, act);
            && SentOk(w') && w'.payload == w.payload
            && (w.result.Some? ==> w'.result == w.result) && (!w.collecting ==> !w'.collecting)
  {
    match act
    case FinishTest(outcome, ns) => FinishOk(w, outcome, ns);
    case Write(n) => WriteOk(w, n);
    case Exit =>
    case Abandon =>
  }

  lemma ReplaceWorker(ws: map<u32, Worker>, next: nat, log: seq<Queued>, id: u32, w: Worker)
    requires WorkersOk(ws, next) && LogOk(log, ws) && id in ws
    requires SentOk(w) && w.payload == ws[id].payload
    requires ws[id].result.Some? ==> w.result == ws[id].result
    requires !ws[id].collecting ==> !w.collecting
    ensures WorkersOk(ws[id := w], next) && LogOk(log, ws[id := w])
  {}

  /** What a collector forwards is its worker's complete frame. */
  lemma CollectorReads(w: Worker)
    requires SentOk(w) && ToQueue(w).Some?
    ensures Complete(ToQueue(w).value)
  {
    var body := EncodeResult(w.result.value);
    assert Frame(body) + [] == Frame(body);
    ReadPrefix(body, [], w.sent);
    var f := Frame(body) + ReadFrame(w.sent).rest;
    assert f[..|Frame(body)|] == Frame(body);
  }

  lemma EnqueueLog(ws: map<u32, Worker>, next: nat, log: seq<Queued>, id: u32, q: Queued)
    requires WorkersOk(ws, next) && LogOk(log, ws)
    requires id in ws && ws[id].collecting && ws[id].result == Some(q.result)
    ensures var ws' := ws[id := ws[id].(collecting := false)];
            WorkersOk(ws', next) && LogOk(log + [q], ws')
  {
    ReplaceWorker(ws, next, log, id, ws[id].(collecting := false));
    forall i | 0 <= i < |log|
      ensures log[i].result.testId != id
    {
      assert Owned(log[i], ws);
    }
  }

  lemma EnqueueChannel(log: seq<Queued>, channel: seq<seq<byte>>, q: Queued)
    requires ChannelOk(log, channel)
    ensures ChannelOk(log + [q], channel + [q.frame])
  {}

  lemma EnqueueComplete(log: seq<Queued>, q: Queued)
    requires AllComplete(log) && Complete(q)
    ensures AllComplete(log + [q])
  {}

  lemma EnqueueBytes(pipe: seq<byte>, writing: seq<byte>, channel: seq<seq<byte>>, pending: seq<Queued>, q: Queued)
    requires BytesOk(true, pipe, writing + Concat(channel), pending)
    ensures BytesOk(true, pipe, writing + Concat(channel + [q.frame]), pending + [q])
  {
    FramesSnoc(pending, q);
    ConcatSnoc(channel, q.frame);
    Assoc(writing, Concat(channel), q.frame);
    Assoc(pipe, writing + Concat(channel), q.frame);
  }

  lemma EnqueueQueue(pipe: seq<byte>, writing: seq<byte>, channel: seq<seq<byte>>, log: seq<Queued>, got: nat, q: Queued)
    requires QueueOk(true, pipe, writing, channel, log, got)
    ensures QueueOk(true, pipe, writing, channel + [q.frame], log + [q], got)
  {
    EnqueueChannel(log, channel, q);
    EnqueueBytes(pipe, writing, channel, log[got..], q);
    assert (log + [q])[got..] == log[got..] + [q];
  }

  lemma EnqueueKeeps(n: Net, next: nat, id: u32, q: Queued)
    requires NetOk(n, next) && n.up && Complete(q)
    requires id in n.workers && n.workers[id].collecting && n.workers[id].result == Some(q.result)
    ensures NetOk(Enqueue(n, id, q), next)
  {
    EnqueueLog(n.workers, next, n.log, id, q);
    EnqueueComplete(n.log, q);
    EnqueueQueue(n.pipe, n.writing, n.channel, n.log, n.got, q);
  }

  lemma CollectKeeps(n: Net, next: nat, id: u32)
    requires NetOk(n, next) && id in n.workers
    ensures NetOk(CollectStep(n, id), next)
  {
    var w := n.workers[id];
    var q := ToQueue(w);
    if n.up && q.Some? {
      CollectorReads(w);
      EnqueueKeeps(n, next, id, q.value);
    }
  }

  // ---------------------------------------------------------- forwarder, death

  lemma TakeChannel(log: seq<Queued>, channel: seq<seq<byte>>)
    requires ChannelOk(log, channel) && channel != []
    ensures ChannelOk(log, channel[1..])
  {
    var rest := channel[1..];
    forall i | 0 <= i < |rest|
      ensures rest[i] == log[|log| - |rest| + i].frame
    {
      assert rest[i] == channel[i + 1];
    }
  }

  lemma TakeBytes(channel: seq<seq<byte>>)
    requires channel != []
    ensures [] + Concat(channel) == channel[0] + Concat(channel[1..])
  {}

  lemma TakeKeeps(n: Net, next: nat)
    requires NetOk(n, next)
    ensures NetOk(Take(n), next)
  {
    if n.up && n.writing == [] && n.channel != [] {
      TakeChannel(n.log, n.channel);
      TakeBytes(n.channel);
    }
  }

  lemma MoveBytes(pipe: seq<byte>, writing: seq<byte>, k: nat, queued: seq<byte>)
    requires k <= |writing|
    ensures (pipe + writing[..k]) + (writing[k..] + queued) == pipe + (writing + queued)
  {}

  lemma ForwardKeeps(n: Net, next: nat, count: nat)
    requires NetOk(n, next)
    ensures NetOk(Forward(n, count), next)
  {
    MoveBytes(n.pipe, n.writing, Min(count, |n.writing|), Concat(n.channel));
  }

  lemma DieKeeps(n: Net, next: nat)
    requires NetOk(n, next)
    ensures NetOk(Die(n), next)
  {
    assert n.pipe <= Frames(n.log[n.got..]);
    forall i | 0 <= i < |n.log|
      ensures Owned(n.log[i], AllDead(n.workers))
    {
      assert Owned(n.log[i], n.workers);
    }
  }

  lemma NetStepKeeps(n: Net, next: nat, l: NetLabel)
    requires NetOk(n, next)
    ensures NetOk(NetStep(n, l), next)
  {
    match l
    case WorkerActs(id, act) =>
      if id in n.workers {
        WorkerStepOk(n.workers[id], act);
        ReplaceWorker(n.workers, next, n.log, id, WorkerStep(n.workers[id], act));
      }
    case CollectorSends(id) =>
      if id in n.workers {
        CollectKeeps(n, next, id);
      }
    case ForwarderTakes => TakeKeeps(n, next);
    case ForwarderWrites(count) => ForwardKeeps(n, next, count);
    case ZygoteDies => DieKeeps(n, next);
  }

  // ------------------------------------------------------------ reads and forks

  /** What the scheduler reads next is the oldest frame it has not read, or nothing. */
  lemma ReadsOldest(n: Net, next: nat)
    requires NetOk(n, next) && ReadFrame(n.pipe).Got?
    ensures n.got < |n.log| && ReadFrame(n.pipe).value == EncodeResult(n.log[n.got].result)
    ensures n.pipe == n.log[n.got].frame + ReadFrame(n.pipe).rest && Complete(n.log[n.got])
  {
    var pending := n.log[n.got..];
    assert n.pipe <= Frames(pending);
    assert pending != [];
    assert pending[0] == n.log[n.got] && Complete(n.log[n.got]);
    ReadPrefix(EncodeResult(pending[0].result), Frames(pending[1..]), n.pipe);
  }

  lemma ConsumeBytes(up: bool, f: seq<byte>, rest: seq<byte>, behind: seq<byte>, pending: seq<Queued>)
    requires pending != [] && pending[0].frame == f && BytesOk(up, f + rest, behind, pending)
    ensures BytesOk(up, rest, behind, pending[1..])
  {
    var tail := Frames(pending[1..]);
    assert (f + tail)[|f|..] == tail;
    if up {
      Assoc(f, rest, behind);
      assert (f + (rest + behind))[|f|..] == rest + behind;
    } else {
      assert (f + rest)[|f|..] == rest;
    }
  }

  lemma ConsumeKeeps(n: Net, next: nat)
    requires NetOk(n, next) && !MidFrame(n)
    ensures NetOk(Consume(n), next)
  {
    if ReadFrame(n.pipe).Got? {
      ReadsOldest(n, next);
      ConsumeBytes(n.up, n.log[n.got].frame, ReadFrame(n.pipe).rest, n.writing + Concat(n.channel), n.log[n.got..]);
      assert n.log[n.got..][1..] == n.log[n.got + 1..];
    }
  }

  /** Reads keep the byte stream in step exactly when none gives up in the middle of a frame. */
  lemma ConsumeKeepsIff(n: Net, next: nat)
    requires NetOk(n, next)
    ensures NetOk(Consume(n), next) <==> !MidFrame(n)
  {
    if MidFrame(n) {
      var behind := n.writing + Concat(n.channel);
      assert |[] + behind| < |n.pipe + behind|;
    } else {
      ConsumeKeeps(n, next);
    }
  }

  lemma RequestArrives(p: TestPayload)
    requires PayloadOk(p)
    ensures ForkRequest(ForkCommand(p)) == Some(p)
  {
    var f := Frame(EncodePayload(p));
    assert ([CMD_FORK] + f)[1..] == f;
    FrameReadsBack(EncodePayload(p));
    PayloadRoundTrip(p);
  }

  lemma MoreAttempts(n: Net, next: nat)
    requires NetOk(n, next)
    ensures NetOk(n, next + 1)
  {}

  lemma SpawnKeeps(n: Net, next: nat, p: TestPayload)
    requires NetOk(n, next) && p.testId == next
    ensures NetOk(Spawn(n, p), next + 1)
  {
    forall i | 0 <= i < |n.log|
      ensures Owned(n.log[i], Spawn(n, p).workers)
    {
      assert Owned(n.log[i], n.workers);
    }
  }

  lemma DispatchNetKeeps(n: Net, next: nat, p: TestPayload, failed: bool, forked: bool)
    requires NetOk(n, next) && p.testId == next && PayloadOk(p)
    ensures var n' := DispatchNet(n, ForkCommand(p), failed, forked);
            n'.Some? ==> NetOk(n'.value, next + 1) && n'.value.log == n.log && n'.value.got == n.got
  {
    RequestArrives(p);
    MoreAttempts(n, next);
    SpawnKeeps(n, next, p);
  }

  /** At most one worker appears, with the payload that was sent. */
  lemma DispatchSpawns(n: Net, p: TestPayload, failed: bool, forked: bool)
    requires PayloadOk(p)
    ensures var n' := DispatchNet(n, ForkCommand(p), failed, forked);
            n'.Some? ==> n'.value == n || n'.value == Spawn(n, p)
  {
    RequestArrives(p);
  }
}
