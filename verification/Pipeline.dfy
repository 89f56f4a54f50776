/** The concurrent encode pipeline as a transition system: every interleaving of its atomic actions is a run. */
module Pipeline {
  import opened Outcome
  import opened Bytes
  import opened Clusters

  // One producer, a pool of workers, one ordered writer, two bounded channels and a byte budget whose permits live until
  // the ordered write.

  /** A cluster to encode; `size` is the allocation the budget accounts for it. */
  datatype Job = Job(idx: nat, blobs: seq<Bytes>, comp: Compression, size: nat)

  /** The jobs the producer may submit, in order, and the fixed parameters of the pipeline. */
  datatype Config = Config(codec: Codec, jobs: seq<Job>, workers: nat, requestedLimit: nat, base: Bytes) {
    function Limit(): nat {
      if requestedLimit == 0 then 1 else requestedLimit
    }

    function Capacity(): nat {
      2 * workers
    }
  }

  /** Where a job is: not yet submitted, waiting for its permit and then holding it at the producer, in the job channel, at a worker
      before and after encoding, in the output channel, waiting in the writer's map, written, or given up. */
  datatype Place = Todo | Asking | Held | Queued | Encoding(w: nat) | Encoded(w: nat) | Out | Pending | Written | Dropped

  /** A failed writer may have written the first `torn` bytes of the next cluster. */
  datatype WriterState = Running | Finished | Failed(torn: nat, cause: Cause)

  datatype Cause = EncodeError | WriteError | MissingCluster

  datatype State = State(
    place: seq<Place>,
    sent: nat,
    open: bool,
    alive: seq<bool>,
    writer: WriterState,
    next: nat,
    file: Bytes,
    offsets: seq<(nat, nat)>,
    used: nat,
    peak: nat)

  datatype Step =
    | Submit
    | Acquire
    | Enqueue
    | SendFails
    | Close
    | Take(w: nat, j: nat)
    | Encode(w: nat, j: nat)
    | Deliver(w: nat, j: nat)
    | WorkerStops(w: nat, j: nat)
    | WorkerExits(w: nat)
    | Receive(j: nat)
    | Write
    | WriteFails(torn: nat)
    | WriterEnds
    | Reap(j: nat)

  function EncodeJob(c: Config, j: nat): Result<Bytes>
    requires j < |c.jobs|
  {
    EncodeCluster(c.codec, c.jobs[j].blobs, c.jobs[j].comp)
  }

  // ---- Budget ----

  predicate Live(p: Place) {
    p != Todo && p != Asking && p != Written && p != Dropped
  }

  /** `acquire` waits while anything is in use and the request does not fit into the rest. */
  predicate Admits(limit: nat, used: nat, size: nat) {
    used == 0 || size <= (if used <= limit then limit - used else 0)
  }

  /** Total size of the live permits among the first `n` jobs. */
  function LiveBytes(jobs: seq<Job>, place: seq<Place>, n: nat): nat
    requires n <= |jobs| == |place|
  {
    if n == 0 then 0 else LiveBytes(jobs, place, n - 1) + (if Live(place[n - 1]) then jobs[n - 1].size else 0)
  }

  // ---- The sequential writer ----

  /** The encoded bytes of the jobs, one after the other; an unencodable job contributes nothing. */
  function Encodings(codec: Codec, jobs: seq<Job>): (s: seq<Bytes>)
    ensures |s| == |jobs|
  {
    seq(|jobs|, i requires 0 <= i < |jobs| => EncodeCluster(codec, jobs[i].blobs, jobs[i].comp).GetOr([]))
  }

  /** The file a sequential writer leaves after the first `k` jobs. */
  function Log(codec: Codec, base: Bytes, jobs: seq<Job>, k: nat): Bytes
    requires k <= |jobs|
  {
    base + Join(Encodings(codec, jobs), k)
  }

  /** Where it put each of them: (cluster index, offset). */
  function Offsets(codec: Codec, base: Bytes, jobs: seq<Job>, k: nat): (s: seq<(nat, nat)>)
    requires k <= |jobs|
    ensures |s| == k
  {
    seq(k, i requires 0 <= i < k => (jobs[i].idx, |base| + |Join(Encodings(codec, jobs), i)|))
  }

  // ---- Transitions ----

  function Init(c: Config): State {
    State(seq(|c.jobs|, _ => Todo), 0, true, seq(c.workers, _ => true), Running, 0, c.base, [], 0, 0)
  }

  ghost predicate AnyAt(s: State, p: Place) {
    exists j :: 0 <= j < |s.place| && s.place[j] == p
  }

  ghost function JobsAt(s: State, p: Place): set<nat> {
    set j | 0 <= j < |s.place| && s.place[j] == p
  }

  ghost predicate AnyAlive(s: State) {
    exists w :: 0 <= w < |s.alive| && s.alive[w]
  }

  ghost predicate Idle(s: State, w: nat) {
    w < |s.alive| && s.alive[w] && !AnyAt(s, Encoding(w)) && !AnyAt(s, Encoded(w))
  }

  ghost predicate Holding(s: State) {
    s.sent > 0 && s.sent <= |s.place| && s.place[s.sent - 1] == Held
  }

  ghost predicate Waiting(s: State) {
    s.sent > 0 && s.sent <= |s.place| && s.place[s.sent - 1] == Asking
  }

  ghost predicate NextPending(s: State) {
    s.next < |s.place| && s.place[s.next] == Pending
  }

  ghost predicate Enabled(c: Config, s: State, step: Step) {
    match step
    case Submit => s.open && s.sent < |c.jobs| && !Holding(s) && !Waiting(s)
    case Acquire => Waiting(s) && s.sent <= |c.jobs| && Admits(c.Limit(), s.used, c.jobs[s.sent - 1].size)
    case Enqueue => s.open && Holding(s) && AnyAlive(s) && |JobsAt(s, Queued)| < c.Capacity()
    case SendFails => s.open && Holding(s) && !AnyAlive(s)
    case Close => s.open && !Holding(s) && !Waiting(s)
    case Take(w, j) => Idle(s, w) && j < |s.place| && s.place[j] == Queued && forall i :: 0 <= i < j ==> s.place[i] != Queued
    case Encode(w, j) => j < |s.place| && s.place[j] == Encoding(w)
    case Deliver(w, j) =>
      j < |s.place| && s.place[j] == Encoded(w) && s.writer.Running? && |JobsAt(s, Out)| < c.Capacity()
    case WorkerStops(w, j) => j < |s.place| && w < |s.alive| && s.place[j] == Encoded(w) && !s.writer.Running?
    case WorkerExits(w) => Idle(s, w) && !s.open && !AnyAt(s, Queued)
    case Receive(j) => s.writer.Running? && j < |s.place| && s.place[j] == Out && !NextPending(s)
    case Write => s.writer.Running? && NextPending(s)
    case WriteFails(torn) =>
      s.writer.Running? && NextPending(s) && s.next < |c.jobs| && torn <= |EncodeJob(c, s.next).GetOr([])|
    case WriterEnds => s.writer.Running? && !AnyAlive(s) && !AnyAt(s, Out) && !NextPending(s)
    case Reap(j) =>
      j < |s.place| && ((!s.writer.Running? && (s.place[j] == Out || s.place[j] == Pending))
                        || (!AnyAlive(s) && s.place[j] == Queued))
  }

  function Move(s: State, j: nat, p: Place): State {
    if j < |s.place| then s.(place := s.place[j := p]) else s
  }

  /** Moves job `j` out of the pipeline and returns its permit. */
  function Release(c: Config, s: State, j: nat, p: Place): State {
    if j < |c.jobs| then
      Move(s, j, p).(used := if c.jobs[j].size <= s.used then s.used - c.jobs[j].size else 0)
    else s
  }

  function After(c: Config, s: State, step: Step): State {
    match step
    case Submit => Move(s, s.sent, Asking).(sent := s.sent + 1)
    case Acquire =>
      if 0 < s.sent <= |c.jobs| then
        var used := s.used + c.jobs[s.sent - 1].size;
        Move(s, s.sent - 1, Held).(used := used, peak := if used > s.peak then used else s.peak)
      else s
    case Enqueue => if s.sent > 0 then Move(s, s.sent - 1, Queued) else s
    case SendFails => if s.sent > 0 then Release(c, s, s.sent - 1, Dropped).(open := false) else s
    case Close => s.(open := false)
    case Take(w, j) => Move(s, j, Encoding(w))
    case Encode(w, j) => Move(s, j, Encoded(w))
    case Deliver(_, j) => Move(s, j, Out)
    case WorkerStops(w, j) =>
      if w < |s.alive| then Release(c, s, j, Dropped).(alive := s.alive[w := false]) else s
    case WorkerExits(w) => if w < |s.alive| then s.(alive := s.alive[w := false]) else s
    case Receive(j) =>
      if j < |c.jobs| && EncodeJob(c, j).Ok? then Move(s, j, Pending)
      else Release(c, s, j, Dropped).(writer := Failed(0, EncodeError))
    case Write =>
      if s.next < |c.jobs| then
        Release(c, s, s.next, Written).(
          next := s.next + 1,
          file := s.file + EncodeJob(c, s.next).GetOr([]),
          offsets := s.offsets + [(c.jobs[s.next].idx, |s.file|)])
      else s
    case WriteFails(torn) =>
      if s.next < |c.jobs| && torn <= |EncodeJob(c, s.next).GetOr([])| then
        Release(c, s, s.next, Dropped).(
          file := s.file + EncodeJob(c, s.next).GetOr([])[..torn], writer := Failed(torn, WriteError))
      else s
    case WriterEnds =>
      if exists j :: 0 <= j < |s.place| && s.place[j] == Pending then s.(writer := Failed(0, MissingCluster)) else s.(writer := Finished)
    case Reap(j) => Release(c, s, j, Dropped)
  }

  // ---- Invariants ----

  ghost predicate Shape(c: Config, s: State) {
    && |s.place| == |c.jobs| && |s.alive| == c.workers && c.workers > 0
    && s.next <= s.sent <= |c.jobs|
    && (forall j :: 0 <= j < |s.place| ==> (s.place[j] == Todo <==> s.sent <= j))
    && (forall j :: 0 <= j < |s.place| ==> (s.place[j] == Written <==> j < s.next))
    && (forall j :: 0 <= j < |s.place| && (s.place[j] == Held || s.place[j] == Asking) ==> j == s.sent - 1 && s.open)
  }

  function WorkerOf(p: Place): Option<nat> {
    match p
    case Encoding(w) => Some(w)
    case Encoded(w) => Some(w)
    case _ => None
  }

  /** A worker has at most one job, and only a live one has any. */
  ghost predicate Manned(place: seq<Place>, alive: seq<bool>) {
    && (forall j :: 0 <= j < |place| && WorkerOf(place[j]).Some? ==>
          WorkerOf(place[j]).value < |alive| && alive[WorkerOf(place[j]).value])
    && (forall i, j :: 0 <= i < |place| && 0 <= j < |place| && i != j && WorkerOf(place[i]).Some? ==>
          WorkerOf(place[i]) != WorkerOf(place[j]))
  }

  ghost predicate Accounted(c: Config, s: State) {
    |s.place| == |c.jobs| && s.used == LiveBytes(c.jobs, s.place, |c.jobs|)
  }

  ghost predicate AnyDead(s: State) {
    exists w :: 0 <= w < |s.alive| && !s.alive[w]
  }

  /** Jobs are given up only once the writer has failed. */
  ghost predicate NoLoss(s: State) {
    AnyAt(s, Dropped) ==> s.writer.Failed?
  }

  /** While the writer runs, workers leave only after the channel is closed and empty. */
  ghost predicate NoEarlyExit(s: State) {
    s.writer.Running? && AnyDead(s) ==> !s.open && !AnyAt(s, Queued)
  }

  /** A finished writer has written everything that was submitted; it never finds a cluster missing. */
  ghost predicate CleanFinish(s: State) {
    && (s.writer.Finished? ==> !s.open && !AnyAlive(s) && s.next == s.sent)
    && (s.writer.Failed? ==> s.writer.cause != MissingCluster)
  }

  ghost predicate EncodedAt(c: Config, s: State, j: nat) {
    j < |s.place| && (s.place[j] == Pending || s.place[j] == Written) ==> j < |c.jobs| && EncodeJob(c, j).Ok?
  }

  ghost predicate AllEncoded(c: Config, s: State) {
    forall j: nat :: EncodedAt(c, s, j)
  }

  ghost predicate Unencodable(c: Config, s: State, j: nat) {
    j < s.sent && j < |c.jobs| && EncodeJob(c, j).Err?
  }

  /** An encode error is blamed on a submitted job that really cannot be encoded. */
  ghost predicate Blamed(c: Config, s: State) {
    s.writer.Failed? && s.writer.cause == EncodeError ==> exists j: nat :: Unencodable(c, s, j)
  }

  ghost predicate Flow(c: Config, s: State) {
    NoLoss(s) && NoEarlyExit(s) && CleanFinish(s) && AllEncoded(c, s) && Blamed(c, s)
  }

  /** The bytes of the job the writer failed on that still reached the file. */
  function Torn(c: Config, s: State): Bytes {
    match s.writer
    case Failed(torn, _) =>
      if s.next < |c.jobs| && torn <= |EncodeJob(c, s.next).GetOr([])| then EncodeJob(c, s.next).GetOr([])[..torn] else []
    case _ => []
  }

  ghost predicate Ordered(c: Config, s: State) {
    && s.next <= |c.jobs|
    && s.file == Log(c.codec, c.base, c.jobs, s.next) + Torn(c, s)
    && s.offsets == Offsets(c.codec, c.base, c.jobs, s.next)
  }

  /** In budget, or one oversized permit holds everything. */
  ghost predicate InBudget(c: Config, s: State) {
    && |s.place| == |c.jobs|
    && (s.used <= c.Limit() || exists j :: 0 <= j < |s.place| && Live(s.place[j]) && c.jobs[j].size == s.used)
  }

  ghost predicate PeakBounded(c: Config, s: State) {
    s.used <= s.peak && (s.peak <= c.Limit() || exists j :: 0 <= j < |c.jobs| && s.peak <= c.jobs[j].size)
  }

  ghost predicate Inv(c: Config, s: State) {
    Shape(c, s) && Manned(s.place, s.alive) && Accounted(c, s) && Flow(c, s) && Ordered(c, s) && InBudget(c, s) && PeakBounded(c, s)
  }

  lemma InitInv(c: Config)
    requires c.workers > 0
    ensures Inv(c, Init(c))
  {
    NothingLive(c.jobs, Init(c).place, |c.jobs|);
  }

  lemma {:induction false} NothingLive(jobs: seq<Job>, place: seq<Place>, n: nat)
    requires n <= |jobs| == |place| && forall j :: 0 <= j < n ==> !Live(place[j])
    ensures LiveBytes(jobs, place, n) == 0
  {
    if n > 0 {
      NothingLive(jobs, place, n - 1);
    }
  }

  lemma {:induction false} LiveMove(jobs: seq<Job>, place: seq<Place>, n: nat, j: nat, p: Place)
    requires n <= |jobs| == |place| && j < |place|
    ensures LiveBytes(jobs, place[j := p], n)
            == LiveBytes(jobs, place, n)
               + (if j < n then (if Live(p) then jobs[j].size else 0) - (if Live(place[j]) then jobs[j].size else 0) else 0)
  {
    if n > 0 {
      LiveMove(jobs, place, n - 1, j, p);
    }
  }

  /** Two live permits together are within the total. */
  lemma {:induction false} LiveTwo(jobs: seq<Job>, place: seq<Place>, n: nat, i: nat, j: nat)
    requires n <= |jobs| == |place| && i < n && j < n && Live(place[i]) && Live(place[j])
    ensures jobs[i].size <= LiveBytes(jobs, place, n)
    ensures i != j ==> jobs[i].size + jobs[j].size <= LiveBytes(jobs, place, n)
    decreases n
  {
    if i < n - 1 && j < n - 1 {
      LiveTwo(jobs, place, n - 1, i, j);
    } else if i < n - 1 {
      LiveTwo(jobs, place, n - 1, i, i);
    } else if j < n - 1 {
      LiveTwo(jobs, place, n - 1, j, j);
    }
  }

  /** The job a step moves, if any. */
  ghost function Moved(s: State, step: Step): Option<nat> {
    match step
    case Submit => Some(s.sent)
    case Acquire => if s.sent > 0 then Some(s.sent - 1) else None
    case Enqueue => if s.sent > 0 then Some(s.sent - 1) else None
    case SendFails => if s.sent > 0 then Some(s.sent - 1) else None
    case Close => None
    case Take(_, j) => Some(j)
    case Encode(_, j) => Some(j)
    case Deliver(_, j) => Some(j)
    case WorkerStops(_, j) => Some(j)
    case WorkerExits(_) => None
    case Receive(j) => Some(j)
    case Write => Some(s.next)
    case WriteFails(_) => Some(s.next)
    case WriterEnds => None
    case Reap(j) => Some(j)
  }

  predicate Releases(step: Step) {
    step.SendFails? || step.WorkerStops? || step.Receive? || step.Write? || step.WriteFails? || step.Reap?
  }

  /** A step moves at most one job, and `used` changes by the permit that move takes or returns. */
  ghost predicate OneMove(c: Config, s: State, t: State, moved: Option<nat>) {
    match moved
    case None => t.place == s.place && t.used == s.used
    case Some(j) =>
      && j < |c.jobs| && |t.place| == |s.place| == |c.jobs| && t.place == s.place[j := t.place[j]]
      && t.used + (if Live(s.place[j]) then c.jobs[j].size else 0) == s.used + (if Live(t.place[j]) then c.jobs[j].size else 0)
  }

  lemma ReleaseIsOneMove(c: Config, s: State, j: nat, p: Place)
    requires Accounted(c, s) && j < |c.jobs| && Live(s.place[j]) && !Live(p)
    ensures Release(c, s, j, p).place == s.place[j := p] && Release(c, s, j, p).used + c.jobs[j].size == s.used
  {
    LiveTwo(c.jobs, s.place, |c.jobs|, j, j);
  }

  lemma PlaceAfterRelease(c: Config, s: State, step: Step)
    requires Shape(c, s) && Accounted(c, s) && Enabled(c, s, step) && Releases(step) && Moved(s, step).Some?
    ensures OneMove(c, s, After(c, s, step), Moved(s, step))
  {
    hide LiveBytes, EncodeJob, JobsAt, AnyAlive, AnyAt, Idle, Admits, Accounted;
    var j := Moved(s, step).value;
    assert j < |c.jobs| && Live(s.place[j]);
    ReleaseIsOneMove(c, s, j, if step.Write? then Written else Dropped);
    hide Shape;
  }

  lemma PlaceAfter(c: Config, s: State, step: Step)
    requires Shape(c, s) && Accounted(c, s) && Enabled(c, s, step)
    ensures OneMove(c, s, After(c, s, step), Moved(s, step))
  {
    if Releases(step) && Moved(s, step).Some? {
      hide *;
      PlaceAfterRelease(c, s, step);
    } else {
      hide LiveBytes, EncodeJob, JobsAt, AnyAlive, AnyAt, Idle, Admits, Accounted, Release;
    }
  }

  lemma AccountedStep(c: Config, s: State, step: Step)
    requires Shape(c, s) && Accounted(c, s) && Enabled(c, s, step)
    ensures Accounted(c, After(c, s, step))
  {
    PlaceAfter(c, s, step);
    hide After, Enabled, LiveBytes, Shape;
    if Moved(s, step).Some? {
      var j := Moved(s, step).value;
      LiveMove(c.jobs, s.place, |c.jobs|, j, After(c, s, step).place[j]);
    }
  }

  /** What a move may do to the counters: it submits the next job, writes it, or leaves both alone. */
  ghost predicate Counted(s: State, t: State, j: nat) {
    && j < |s.place| == |t.place| && t.place == s.place[j := t.place[j]] && |t.alive| == |s.alive|
    && (if t.place[j] == Asking then j == s.sent && t.sent == s.sent + 1 && t.open == s.open == true && !Holding(s) && !Waiting(s)
        else t.place[j] != Todo && s.place[j] != Todo && t.sent == s.sent)
    && (if t.place[j] == Written then j == s.next && t.next == s.next + 1 && s.place[j] != Todo
        else s.place[j] != Written && t.next == s.next)
    && (t.open == s.open || s.place[j] == Held)
    && (t.place[j] == Held ==> s.place[j] == Asking)
  }

  lemma CountedStep(c: Config, s: State, step: Step)
    requires Shape(c, s) && Accounted(c, s) && Enabled(c, s, step) && Moved(s, step).Some?
    ensures Counted(s, After(c, s, step), Moved(s, step).value)
  {
    PlaceAfter(c, s, step);
    hide Accounted, LiveBytes, EncodeJob, JobsAt, AnyAlive, AnyAt, Idle, Admits;
  }

  lemma ShapeMove(c: Config, s: State, t: State, j: nat)
    requires Shape(c, s) && Counted(s, t, j)
    ensures Shape(c, t)
  {
    assert s.place[j] == Written <==> j < s.next;
    assert s.place[j] == Todo <==> s.sent <= j;
    assert forall i :: 0 <= i < |s.place| && i != j ==> t.place[i] == s.place[i];
    assert forall i :: 0 <= i < |s.place| && (s.place[i] == Held || s.place[i] == Asking) ==> Holding(s) || Waiting(s);
  }

  lemma ShapeStep(c: Config, s: State, step: Step)
    requires Shape(c, s) && Accounted(c, s) && Enabled(c, s, step)
    ensures Shape(c, After(c, s, step))
  {
    if Moved(s, step).Some? {
      CountedStep(c, s, step);
      hide Shape, Enabled, After, Accounted, Counted;
      ShapeMove(c, s, After(c, s, step), Moved(s, step).value);
    } else {
      hide Accounted, LiveBytes, EncodeJob, AnyAlive, AnyAt;
      assert forall i :: 0 <= i < |s.place| && (s.place[i] == Held || s.place[i] == Asking) ==> Holding(s) || Waiting(s);
    }
  }

  lemma MannedMove(place: seq<Place>, alive: seq<bool>, j: nat, p: Place)
    requires Manned(place, alive) && j < |place|
    requires WorkerOf(p).Some? ==>
      (WorkerOf(p) == WorkerOf(place[j])
       || (WorkerOf(p).value < |alive| && alive[WorkerOf(p).value]
           && forall i :: 0 <= i < |place| ==> WorkerOf(place[i]) != WorkerOf(p)))
    ensures Manned(place[j := p], alive)
  {
  }

  lemma MannedGone(place: seq<Place>, alive: seq<bool>, w: nat)
    requires Manned(place, alive) && w < |alive| && forall i :: 0 <= i < |place| ==> WorkerOf(place[i]) != Some(w)
    ensures Manned(place, alive[w := false])
  {
  }

  lemma IdleHasNone(s: State, w: nat)
    requires Idle(s, w)
    ensures forall i :: 0 <= i < |s.place| ==> WorkerOf(s.place[i]) != Some(w)
  {
    forall i | 0 <= i < |s.place|
      ensures WorkerOf(s.place[i]) != Some(w)
    {
      assert s.place[i] != Encoding(w) && s.place[i] != Encoded(w);
    }
  }

  lemma ShapeBounds(c: Config, s: State)
    requires Shape(c, s)
    ensures |s.place| == |c.jobs| && |s.alive| == c.workers && s.next <= s.sent <= |c.jobs|
  {
  }

  lemma MannedTake(c: Config, s: State, step: Step)
    requires Manned(s.place, s.alive) && Enabled(c, s, step) && step.Take?
    ensures Manned(After(c, s, step).place, After(c, s, step).alive)
  {
    IdleHasNone(s, step.w);
    hide Manned, AnyAt, EncodeJob;
    MannedMove(s.place, s.alive, step.j, Encoding(step.w));
  }

  lemma MannedLeave(c: Config, s: State, step: Step)
    requires |s.place| == |c.jobs| && Manned(s.place, s.alive) && Enabled(c, s, step) && (step.WorkerExits? || step.WorkerStops?)
    ensures Manned(After(c, s, step).place, After(c, s, step).alive)
  {
    hide EncodeJob, JobsAt;
    if step.WorkerExits? {
      IdleHasNone(s, step.w);
      hide Manned, Idle;
      MannedGone(s.place, s.alive, step.w);
    } else {
      assert WorkerOf(s.place[step.j]) == Some(step.w);
      MannedMove(s.place, s.alive, step.j, Dropped);
      MannedGone(s.place[step.j := Dropped], s.alive, step.w);
    }
  }

  /** Apart from those, no step changes the crew or gives a worker a job it does not have. */
  lemma CrewKept(c: Config, s: State, step: Step, j: nat)
    requires Enabled(c, s, step) && !step.Take? && !step.WorkerExits? && !step.WorkerStops?
    requires j < |s.place| == |After(c, s, step).place| && Moved(s, step) == Some(j)
    ensures var t := After(c, s, step);
      t.alive == s.alive && (WorkerOf(t.place[j]).Some? ==> WorkerOf(t.place[j]) == WorkerOf(s.place[j]))
  {
    hide EncodeJob, JobsAt, AnyAlive, Admits, AnyAt, Idle;
  }

  lemma MannedStep(c: Config, s: State, step: Step)
    requires Shape(c, s) && Accounted(c, s) && Manned(s.place, s.alive) && Enabled(c, s, step)
    ensures Manned(After(c, s, step).place, After(c, s, step).alive)
  {
    ShapeBounds(c, s);
    if step.Take? {
      hide *;
      MannedTake(c, s, step);
    } else if step.WorkerExits? || step.WorkerStops? {
      hide *;
      MannedLeave(c, s, step);
    } else if Moved(s, step).Some? {
      PlaceAfter(c, s, step);
      CrewKept(c, s, step, Moved(s, step).value);
      hide *;
      MannedMove(s.place, s.alive, Moved(s, step).value, After(c, s, step).place[Moved(s, step).value]);
    } else {
      hide EncodeJob, Enabled, Manned, Shape, Accounted;
    }
  }

  lemma Nobody(c: Config, s: State)
    requires Shape(c, s) && !AnyAlive(s)
    ensures AnyDead(s)
  {
    assert !s.alive[0];
  }

  /** With no worker left, the channel closed, and no job given up, every submitted job is queued, at the
      output channel, waiting or written. */
  lemma Stragglers(c: Config, s: State, j: nat)
    requires Shape(c, s) && Manned(s.place, s.alive) && !AnyAlive(s) && !s.open && j < s.sent
    ensures s.place[j] in {Queued, Out, Pending, Written, Dropped}
  {
    if WorkerOf(s.place[j]).Some? {
      assert AnyAlive(s);
    }
  }

  /** A job is given up only when the writer has failed already or fails now. */
  lemma DropMeansFailure(c: Config, s: State, step: Step)
    requires Shape(c, s) && Manned(s.place, s.alive) && NoEarlyExit(s) && CleanFinish(s) && Enabled(c, s, step)
    requires step.SendFails? || step.WorkerStops? || step.Reap?
    ensures s.writer.Failed?
  {
    hide EncodeJob, JobsAt, Admits;
    if step.WorkerStops? {
      assert WorkerOf(s.place[step.j]) == Some(step.w);
    } else if !AnyAlive(s) {
      Nobody(c, s);
    }
  }

  lemma DropsOnlyThen(c: Config, s: State, step: Step, j: nat)
    requires Enabled(c, s, step) && Moved(s, step) == Some(j) && j < |After(c, s, step).place| == |s.place| == |c.jobs|
    ensures After(c, s, step).place[j] == Dropped ==> step.SendFails? || step.WorkerStops? || step.Reap? || After(c, s, step).writer.Failed?
    ensures step.SendFails? || step.WorkerStops? || step.Reap? ==> After(c, s, step).writer == s.writer
    ensures s.writer.Failed? ==> After(c, s, step).writer.Failed?
  {
    hide EncodeJob, JobsAt, Admits, AnyAlive, Idle, AnyAt;
  }

  lemma NoLossStep(c: Config, s: State, step: Step)
    requires Shape(c, s) && Accounted(c, s) && Manned(s.place, s.alive) && Flow(c, s) && Enabled(c, s, step)
    ensures NoLoss(After(c, s, step))
  {
    PlaceAfter(c, s, step);
    ShapeBounds(c, s);
    if step.SendFails? || step.WorkerStops? || step.Reap? {
      DropMeansFailure(c, s, step);
    }
    if Moved(s, step).Some? {
      DropsOnlyThen(c, s, step, Moved(s, step).value);
      hide After, Enabled, Shape, Accounted, Manned, NoEarlyExit, CleanFinish, AllEncoded, Blamed, Moved, AnyAt, Live;
      DroppedBefore(s, After(c, s, step), Moved(s, step));
    } else {
      hide Shape, Accounted, Manned, NoEarlyExit, CleanFinish, AllEncoded, Blamed, Live, EncodeJob;
    }
  }

  lemma DroppedBefore(s: State, t: State, moved: Option<nat>)
    requires moved == None ==> t.place == s.place
    requires moved.Some? ==> var j := moved.value; j < |s.place| && |t.place| == |s.place| && t.place == s.place[j := t.place[j]]
    ensures AnyAt(t, Dropped) ==> AnyAt(s, Dropped) || (moved.Some? && t.place[moved.value] == Dropped)
    ensures AnyAt(t, Queued) ==> AnyAt(s, Queued) || (moved.Some? && t.place[moved.value] == Queued)
  {
  }

  lemma NoEarlyExitStep(c: Config, s: State, step: Step)
    requires Shape(c, s) && Accounted(c, s) && Flow(c, s) && Enabled(c, s, step)
    ensures NoEarlyExit(After(c, s, step))
  {
    PlaceAfter(c, s, step);
    hide Accounted, LiveBytes, EncodeJob, JobsAt, Admits, Shape, CleanFinish, AllEncoded, Blamed, Live, AnyAlive, Idle, AnyAt;
    DroppedBefore(s, After(c, s, step), Moved(s, step));
  }

  /** The writer's input ends only after everything submitted was written. */
  lemma EndMeansDone(c: Config, s: State)
    requires Shape(c, s) && Manned(s.place, s.alive) && NoLoss(s) && NoEarlyExit(s) && Enabled(c, s, WriterEnds)
    ensures !s.open && s.next == s.sent && !AnyAt(s, Pending)
  {
    Nobody(c, s);
    if s.next < s.sent {
      Stragglers(c, s, s.next);
    }
  }

  lemma CleanFinishStep(c: Config, s: State, step: Step)
    requires Shape(c, s) && Accounted(c, s) && Manned(s.place, s.alive) && Flow(c, s) && Enabled(c, s, step)
    ensures CleanFinish(After(c, s, step))
  {
    if step.WriterEnds? {
      EndMeansDone(c, s);
    }
    hide Accounted, LiveBytes, EncodeJob, JobsAt, Admits, Manned, AllEncoded, Blamed, Live, NoLoss, NoEarlyExit, Idle;
  }

  lemma AllEncodedStep(c: Config, s: State, step: Step)
    requires Shape(c, s) && Accounted(c, s) && Flow(c, s) && Enabled(c, s, step)
    ensures AllEncoded(c, After(c, s, step))
  {
    PlaceAfter(c, s, step);
    hide Accounted, LiveBytes, EncodeJob, JobsAt, Admits, NoLoss, NoEarlyExit, CleanFinish, Blamed, Live, AnyAlive, Idle, AnyAt;
    forall i: nat
      ensures EncodedAt(c, After(c, s, step), i)
    {
      assert EncodedAt(c, s, i);
    }
  }

  lemma BlamedStep(c: Config, s: State, step: Step)
    requires Shape(c, s) && Accounted(c, s) && Flow(c, s) && Enabled(c, s, step)
    ensures Blamed(c, After(c, s, step))
  {
    var t := After(c, s, step);
    assert s.sent <= t.sent by {
      hide Accounted, EncodeJob, JobsAt, Admits, AnyAlive, Idle, AnyAt, Flow, Shape;
    }
    if Blamed(c, s) && s.writer.Failed? && s.writer.cause == EncodeError {
      var j: nat :| Unencodable(c, s, j);
      assert Unencodable(c, t, j);
    } else {
      hide Accounted, EncodeJob, JobsAt, Admits, AnyAlive, Idle, AnyAt, NoLoss, NoEarlyExit, CleanFinish, AllEncoded;
      if step.Receive? && EncodeJob(c, step.j).Err? {
        assert Unencodable(c, t, step.j);
      }
    }
  }

  lemma FlowStep(c: Config, s: State, step: Step)
    requires Shape(c, s) && Accounted(c, s) && Manned(s.place, s.alive) && Flow(c, s) && Enabled(c, s, step)
    ensures Flow(c, After(c, s, step))
  {
    hide Shape, Accounted, Manned, NoLoss, NoEarlyExit, CleanFinish, AllEncoded, Blamed, Enabled, After;
    NoLossStep(c, s, step);
    NoEarlyExitStep(c, s, step);
    CleanFinishStep(c, s, step);
    AllEncodedStep(c, s, step);
    BlamedStep(c, s, step);
  }

  lemma LogStep(codec: Codec, base: Bytes, jobs: seq<Job>, k: nat)
    requires k < |jobs|
    ensures Log(codec, base, jobs, k + 1) == Log(codec, base, jobs, k) + EncodeCluster(codec, jobs[k].blobs, jobs[k].comp).GetOr([])
    ensures Offsets(codec, base, jobs, k + 1)
            == Offsets(codec, base, jobs, k) + [(jobs[k].idx, |Log(codec, base, jobs, k)|)]
  {
    hide EncodeCluster;
    var more := EncodeCluster(codec, jobs[k].blobs, jobs[k].comp).GetOr([]);
    assert base + Join(Encodings(codec, jobs), k) + more == base + (Join(Encodings(codec, jobs), k) + more);
  }

  lemma NothingTorn(c: Config, s: State)
    requires !s.writer.Failed? || s.writer.torn == 0
    ensures Torn(c, s) == []
  {
  }

  lemma WriteEffect(c: Config, s: State)
    requires Shape(c, s) && Enabled(c, s, Write)
    ensures s.next < |c.jobs| && s.writer.Running?
    ensures var t := After(c, s, Write);
      && t.next == s.next + 1 && t.file == s.file + EncodeJob(c, s.next).GetOr([]) && t.writer == s.writer
      && t.offsets == s.offsets + [(c.jobs[s.next].idx, |s.file|)]
  {
    hide EncodeJob;
  }

  lemma OrderedWrite(c: Config, s: State)
    requires Shape(c, s) && Ordered(c, s) && Enabled(c, s, Write)
    ensures Ordered(c, After(c, s, Write))
  {
    WriteEffect(c, s);
    LogStep(c.codec, c.base, c.jobs, s.next);
    hide EncodeCluster, Log, Offsets, JobsAt, Shape, After, Enabled;
    var t := After(c, s, Write);
    NothingTorn(c, s);
    NothingTorn(c, t);
    hide Torn;
    assert t.file + [] == t.file && s.file == Log(c.codec, c.base, c.jobs, s.next);
  }

  /** The other steps do not touch what the writer has done. */
  lemma WriterUntouched(c: Config, s: State, step: Step)
    requires Enabled(c, s, step) && !step.Write? && !step.WriteFails?
    ensures var t := After(c, s, step); t.file == s.file && t.next == s.next && t.offsets == s.offsets
    ensures var t := After(c, s, step); t.writer == s.writer || (s.writer.Running? && (t.writer.Finished? || t.writer == Failed(0, EncodeError) || t.writer == Failed(0, MissingCluster)))
  {
    hide EncodeJob, JobsAt, Admits, Idle, AnyAlive, AnyAt;
  }

  lemma OrderedStep(c: Config, s: State, step: Step)
    requires Shape(c, s) && Ordered(c, s) && Enabled(c, s, step)
    ensures Ordered(c, After(c, s, step))
  {
    var t := After(c, s, step);
    if step.Write? {
      OrderedWrite(c, s);
    } else if step.WriteFails? {
      hide EncodeJob, Log, Offsets, JobsAt, Idle, AnyAlive, AnyAt, Shape;
      NothingTorn(c, s);
      assert Log(c.codec, c.base, c.jobs, s.next) + [] == Log(c.codec, c.base, c.jobs, s.next);
    } else {
      WriterUntouched(c, s, step);
      hide After, Enabled, EncodeJob, Log, Offsets, Shape;
      if t.writer != s.writer {
        NothingTorn(c, s);
        NothingTorn(c, t);
      }
    }
  }

  lemma BudgetStep(c: Config, s: State, step: Step)
    requires Shape(c, s) && Accounted(c, s) && InBudget(c, s) && Enabled(c, s, step)
    ensures InBudget(c, After(c, s, step))
  {
    PlaceAfter(c, s, step);
    hide Accounted, LiveBytes, EncodeJob, Shape, JobsAt, AnyAlive, AnyAt, Idle;
    var t := After(c, s, step);
    if s.used > c.Limit() {
      var big :| 0 <= big < |s.place| && Live(s.place[big]) && c.jobs[big].size == s.used;
      if Moved(s, step).Some? {
        var j := Moved(s, step).value;
        if j != big && Live(s.place[j]) {
          OneOversized(c, s, big, j);
        }
        assert t.used == s.used || t.used == 0;
        assert t.used == s.used ==> Live(t.place[big]);
      }
    }
  }

  /** While an oversized permit is out, every other live permit has size zero. */
  lemma OneOversized(c: Config, s: State, big: nat, j: nat)
    requires Accounted(c, s) && big < |s.place| && j < |s.place| && big != j
    requires Live(s.place[big]) && Live(s.place[j]) && c.jobs[big].size == s.used
    ensures c.jobs[j].size == 0
  {
    LiveTwo(c.jobs, s.place, |c.jobs|, big, j);
  }

  lemma PeakStep(c: Config, s: State, step: Step)
    requires Shape(c, s) && Accounted(c, s) && InBudget(c, s) && PeakBounded(c, s) && Enabled(c, s, step)
    ensures PeakBounded(c, After(c, s, step))
  {
    PlaceAfter(c, s, step);
    BudgetStep(c, s, step);
    hide Accounted, LiveBytes, EncodeJob, Shape;
  }

  /** Every step of every thread keeps the whole invariant. */
  lemma InvStep(c: Config, s: State, step: Step)
    requires Inv(c, s) && Enabled(c, s, step)
    ensures Inv(c, After(c, s, step))
  {
    ShapeStep(c, s, step);
    MannedStep(c, s, step);
    AccountedStep(c, s, step);
    FlowStep(c, s, step);
    OrderedStep(c, s, step);
    BudgetStep(c, s, step);
    PeakStep(c, s, step);
  }

  // ---- Runs ----

  ghost predicate IsRun(c: Config, states: seq<State>, steps: seq<Step>) {
    && |states| == |steps| + 1
    && states[0] == Init(c)
    && forall i :: 0 <= i < |steps| ==> RunStep(c, states, steps, i)
  }

  ghost predicate RunStep(c: Config, states: seq<State>, steps: seq<Step>, i: nat)
    requires i < |steps| && |states| == |steps| + 1
  {
    Enabled(c, states[i], steps[i]) && states[i + 1] == After(c, states[i], steps[i])
  }

  lemma {:induction false} RunInv(c: Config, states: seq<State>, steps: seq<Step>, i: nat)
    requires c.workers > 0 && IsRun(c, states, steps) && i < |states|
    ensures Inv(c, states[i])
  {
    hide Inv, Enabled, After, Init;
    if i == 0 {
      InitInv(c);
    } else {
      RunInv(c, states, steps, i - 1);
      assert RunStep(c, states, steps, i - 1);
      InvStep(c, states[i - 1], steps[i - 1]);
    }
  }

  /** In every interleaving the file is what a sequential writer leaves after the jobs written so far, plus at
      most a torn piece of the next one; the recorded offsets are where the jobs start. */
  lemma RefinesSequentialWriter(c: Config, states: seq<State>, steps: seq<Step>, i: nat)
    requires c.workers > 0 && IsRun(c, states, steps) && i < |states|
    ensures var s := states[i];
      && s.next <= |c.jobs|
      && s.offsets == Offsets(c.codec, c.base, c.jobs, s.next)
      && s.file == Log(c.codec, c.base, c.jobs, s.next) + Torn(c, s)
      && (Torn(c, s) != [] ==> s.next < |c.jobs| && EncodeJob(c, s.next).Ok? && Torn(c, s) <= EncodeJob(c, s.next).value)
  {
    RunInv(c, states, steps, i);
  }

  /** In every reachable state the budget equals the live permits, is within the limit unless one permit holds
      all of it, and the peak stays within the limit or the largest request. */
  lemma BudgetSafe(c: Config, states: seq<State>, steps: seq<Step>, i: nat)
    requires c.workers > 0 && IsRun(c, states, steps) && i < |states|
    ensures var s := states[i]; Accounted(c, s) && InBudget(c, s) && PeakBounded(c, s)
    ensures var s := states[i]; s.used > c.Limit() ==>
              exists big :: 0 <= big < |c.jobs| && c.jobs[big].size == s.used &&
                forall j :: 0 <= j < |c.jobs| && j != big && Live(s.place[j]) ==> c.jobs[j].size == 0
  {
    RunInv(c, states, steps, i);
    var s := states[i];
    if s.used > c.Limit() {
      var big :| 0 <= big < |s.place| && Live(s.place[big]) && c.jobs[big].size == s.used;
      forall j | 0 <= j < |c.jobs| && j != big && Live(s.place[j])
        ensures c.jobs[j].size == 0
      {
        OneOversized(c, s, big, j);
      }
    }
  }

  /** With the limit and every request at most `max`, no reachable state counts more than `max`, and an admitted
      request does not lift the counter above it. */
  lemma NeverOverflows(c: Config, states: seq<State>, steps: seq<Step>, i: nat, max: nat)
    requires c.workers > 0 && IsRun(c, states, steps) && i < |states|
    requires c.Limit() <= max && forall j :: 0 <= j < |c.jobs| ==> c.jobs[j].size <= max
    ensures states[i].used <= max && states[i].peak <= max
    ensures Enabled(c, states[i], Acquire) ==> states[i].used + c.jobs[states[i].sent - 1].size <= max
  {
    hide *;
    RunInv(c, states, steps, i);
    BudgetParts(c, states[i]);
    CounterBounded(c, states[i], max);
  }

  lemma BudgetParts(c: Config, s: State)
    requires Inv(c, s)
    ensures InBudget(c, s) && PeakBounded(c, s)
  {
    hide InBudget, PeakBounded, Shape, Manned, Accounted, Flow, Ordered;
  }

  lemma CounterBounded(c: Config, s: State, max: nat)
    requires InBudget(c, s) && PeakBounded(c, s)
    requires c.Limit() <= max && forall j :: 0 <= j < |c.jobs| ==> c.jobs[j].size <= max
    ensures s.used <= max && s.peak <= max
    ensures Enabled(c, s, Acquire) ==> s.used + c.jobs[s.sent - 1].size <= max
  {
    hide Live, EncodeJob;
  }

  // ---- Progress ----

  /** Everything is at rest: the producer and the workers have left, the writer has ended, no job is under way. */
  ghost predicate Final(s: State) {
    && !s.open && !AnyAlive(s) && !s.writer.Running?
    && forall j :: 0 <= j < |s.place| ==> s.place[j] in {Todo, Written, Dropped}
  }

  ghost predicate CanStep(c: Config, s: State) {
    exists step :: Enabled(c, s, step)
  }

  /** A step is possible that is not the producer's free choice to submit more or to close. */
  ghost predicate CanAdvance(c: Config, s: State) {
    exists step :: Enabled(c, s, step) && !step.Submit? && !step.Close?
  }

  lemma FirstQueued(place: seq<Place>, j: nat) returns (k: nat)
    requires j < |place| && place[j] == Queued
    ensures k <= j && place[k] == Queued && forall i :: 0 <= i < k ==> place[i] != Queued
  {
    if i :| 0 <= i < j && place[i] == Queued {
      k := FirstQueued(place, i);
    } else {
      k := j;
    }
  }

  /** A running writer with input always moves: it writes the next cluster, or takes in another. */
  lemma WriterMoves(c: Config, s: State, j: nat)
    requires j < |s.place| && s.place[j] == Out
    ensures CanAdvance(c, s)
  {
    if !s.writer.Running? {
      assert Enabled(c, s, Reap(j));
    } else if NextPending(s) {
      assert Enabled(c, s, Write);
    } else {
      assert Enabled(c, s, Receive(j));
    }
  }

  lemma WorkerMoves(c: Config, s: State, j: nat)
    requires Shape(c, s) && Manned(s.place, s.alive) && j < |s.place| && WorkerOf(s.place[j]).Some?
    ensures CanAdvance(c, s)
  {
    var w := WorkerOf(s.place[j]).value;
    if s.place[j] == Encoding(w) {
      assert Enabled(c, s, Step.Encode(w, j));
    } else if !s.writer.Running? {
      assert Enabled(c, s, WorkerStops(w, j));
    } else if |JobsAt(s, Out)| < c.Capacity() {
      assert Enabled(c, s, Deliver(w, j));
    } else {
      assert JobsAt(s, Out) != {};
      var o :| o in JobsAt(s, Out);
      WriterMoves(c, s, o);
    }
  }

  lemma QueueMoves(c: Config, s: State, j: nat)
    requires Shape(c, s) && Manned(s.place, s.alive) && j < |s.place| && s.place[j] == Queued
    requires forall i :: 0 <= i < |s.place| ==> WorkerOf(s.place[i]) == None
    ensures CanAdvance(c, s)
  {
    if AnyAlive(s) {
      var w :| 0 <= w < |s.alive| && s.alive[w];
      var k := FirstQueued(s.place, j);
      assert WorkerOf(Encoding(w)).Some? && WorkerOf(Encoded(w)).Some?;
      assert Enabled(c, s, Take(w, k));
    } else {
      assert Enabled(c, s, Reap(j));
    }
  }

  /** When only out-of-order clusters wait, the writer has failed: the next one in order cannot be missing. */
  lemma PendingMoves(c: Config, s: State, j: nat)
    requires Shape(c, s) && NoLoss(s) && j < |s.place| && s.place[j] == Pending
    requires forall i :: 0 <= i < |s.place| ==> WorkerOf(s.place[i]) == None && s.place[i] != Queued && s.place[i] != Out
    ensures CanAdvance(c, s)
  {
    if !s.writer.Running? {
      assert Enabled(c, s, Reap(j));
    } else {
      assert s.place[s.next] != Dropped && s.place[s.next] != Written && s.place[s.next] != Todo;
      assert s.place[s.next] == Pending;
      assert Enabled(c, s, Write);
    }
  }

  ghost predicate UnderWay(p: Place) {
    WorkerOf(p).Some? || p == Queued || p == Out || p == Pending
  }

  lemma UnderWayMoves(c: Config, s: State, j: nat)
    requires Inv(c, s) && j < |s.place| && UnderWay(s.place[j])
    ensures CanAdvance(c, s)
  {
    hide CanAdvance, Shape, Manned, Accounted, Ordered, InBudget, PeakBounded, NoLoss, NoEarlyExit, CleanFinish, AllEncoded, Blamed;
    if i :| 0 <= i < |s.place| && WorkerOf(s.place[i]).Some? {
      WorkerMoves(c, s, i);
    } else if i :| 0 <= i < |s.place| && s.place[i] == Queued {
      QueueMoves(c, s, i);
    } else if i :| 0 <= i < |s.place| && s.place[i] == Out {
      WriterMoves(c, s, i);
    } else {
      PendingMoves(c, s, j);
    }
  }

  lemma ProducerMoves(c: Config, s: State)
    requires Shape(c, s) && Accounted(c, s) && (Holding(s) || Waiting(s))
    requires forall i :: 0 <= i < |s.place| ==> !UnderWay(s.place[i])
    ensures CanAdvance(c, s)
  {
    if Waiting(s) {
      assert forall i :: 0 <= i < |s.place| && s.place[i] == Held ==> i == s.sent - 1;
      NothingLive(c.jobs, s.place, |c.jobs|);
      assert Enabled(c, s, Acquire);
    } else if AnyAlive(s) {
      assert JobsAt(s, Queued) == {};
      assert Enabled(c, s, Enqueue);
    } else {
      assert Enabled(c, s, SendFails);
    }
  }

  /** No job under way, at a worker, in a channel or waiting for budget is ever stuck, however large it is and
      however full the channels are: some thread can move without the producer submitting or closing. */
  lemma NeverStuck(c: Config, s: State)
    requires Inv(c, s)
    requires Holding(s) || Waiting(s) || exists j :: 0 <= j < |s.place| && UnderWay(s.place[j])
    ensures CanAdvance(c, s)
  {
    hide CanAdvance, Shape, Manned, Accounted, Flow, Ordered, InBudget, PeakBounded;
    if j :| 0 <= j < |s.place| && UnderWay(s.place[j]) {
      UnderWayMoves(c, s, j);
    } else {
      ProducerMoves(c, s);
    }
  }

  lemma RestMoves(c: Config, s: State)
    requires Shape(c, s) && !Final(s) && !Holding(s) && !Waiting(s)
    requires forall j :: 0 <= j < |s.place| ==> !UnderWay(s.place[j])
    ensures CanStep(c, s)
  {
    if s.open {
      assert Enabled(c, s, Close);
    } else if AnyAlive(s) {
      var w :| 0 <= w < |s.alive| && s.alive[w];
      assert UnderWay(Encoding(w)) && UnderWay(Encoded(w));
      assert Enabled(c, s, WorkerExits(w));
    } else {
      assert s.writer.Running?;
      assert Enabled(c, s, WriterEnds);
    }
  }

  /** A state in which no thread can move is final. */
  lemma DeadlockFree(c: Config, s: State)
    requires Inv(c, s) && !Final(s)
    ensures CanStep(c, s)
  {
    if Holding(s) || Waiting(s) || exists j :: 0 <= j < |s.place| && UnderWay(s.place[j]) {
      hide Inv, UnderWay, Enabled, Final;
      NeverStuck(c, s);
    } else {
      hide Manned, Accounted, Flow, Ordered, InBudget, PeakBounded;
      RestMoves(c, s);
    }
  }

  function Rank(p: Place): nat {
    match p
    case Todo => 9
    case Asking => 8
    case Held => 7
    case Queued => 6
    case Encoding(_) => 5
    case Encoded(_) => 4
    case Out => 3
    case Pending => 2
    case Written => 0
    case Dropped => 0
  }

  function Ranks(place: seq<Place>, n: nat): nat
    requires n <= |place|
  {
    if n == 0 then 0 else Ranks(place, n - 1) + Rank(place[n - 1])
  }

  function AliveCount(alive: seq<bool>, n: nat): nat
    requires n <= |alive|
  {
    if n == 0 then 0 else AliveCount(alive, n - 1) + (if alive[n - 1] then 1 else 0)
  }

  /** How many steps are left at most. */
  function Measure(s: State): nat {
    Ranks(s.place, |s.place|) + AliveCount(s.alive, |s.alive|) + (if s.open then 1 else 0)
    + (if s.writer.Running? then 1 else 0)
  }

  lemma {:induction false} RanksMove(place: seq<Place>, n: nat, j: nat, p: Place)
    requires n <= |place| && j < |place|
    ensures Ranks(place[j := p], n) == Ranks(place, n) + (if j < n then Rank(p) - Rank(place[j]) else 0)
  {
    if n > 0 {
      RanksMove(place, n - 1, j, p);
    }
  }

  lemma {:induction false} AliveGone(alive: seq<bool>, n: nat, w: nat)
    requires n <= |alive| && w < |alive| && alive[w]
    ensures AliveCount(alive[w := false], n) == AliveCount(alive, n) - (if w < n then 1 else 0)
  {
    if n > 0 {
      AliveGone(alive, n - 1, w);
    }
  }

  lemma RankFalls(c: Config, s: State, step: Step, j: nat)
    requires Shape(c, s) && Accounted(c, s) && Enabled(c, s, step) && Moved(s, step) == Some(j) && j < |s.place|
    requires After(c, s, step).place == s.place[j := After(c, s, step).place[j]]
    ensures Rank(After(c, s, step).place[j]) < Rank(s.place[j])
  {
    hide LiveBytes, EncodeJob, JobsAt, AnyAlive, AnyAt, Idle, Admits, Accounted;
  }

  lemma CrewFalls(c: Config, s: State, step: Step)
    requires Shape(c, s) && Manned(s.place, s.alive) && Enabled(c, s, step)
    ensures var t := After(c, s, step);
      && (t.alive == s.alive || ((step.WorkerStops? || step.WorkerExits?) && step.w < |s.alive| && s.alive[step.w] && t.alive == s.alive[step.w := false]))
      && (t.open ==> s.open) && (t.writer.Running? ==> s.writer.Running?)
      && (Moved(s, step) == None ==> t.alive != s.alive || t.open != s.open || t.writer != s.writer)
  {
    if step.WorkerStops? {
      assert WorkerOf(s.place[step.j]) == Some(step.w);
    }
    hide EncodeJob, JobsAt, AnyAlive, AnyAt, Admits, Manned, Shape;
  }

  lemma MeasureFalls(c: Config, s: State, step: Step)
    requires Inv(c, s) && Enabled(c, s, step)
    ensures Measure(After(c, s, step)) < Measure(s)
  {
    PlaceAfter(c, s, step);
    CrewFalls(c, s, step);
    var t := After(c, s, step);
    if Moved(s, step).Some? {
      var j := Moved(s, step).value;
      RankFalls(c, s, step, j);
      RanksMove(s.place, |s.place|, j, t.place[j]);
    }
    if t.alive != s.alive {
      AliveGone(s.alive, |s.alive|, step.w);
    }
    hide After, Enabled, Inv;
    assert Moved(s, step) == None && t.alive == s.alive && t.open == s.open ==> t.writer != s.writer;
  }

  lemma {:induction false} StepsBounded(c: Config, states: seq<State>, steps: seq<Step>, i: nat)
    requires c.workers > 0 && IsRun(c, states, steps) && i < |states|
    ensures i + Measure(states[i]) <= Measure(states[0])
  {
    hide Inv, Enabled, After, Init, Measure;
    if i > 0 {
      StepsBounded(c, states, steps, i - 1);
      RunInv(c, states, steps, i - 1);
      assert RunStep(c, states, steps, i - 1);
      MeasureFalls(c, states[i - 1], steps[i - 1]);
    }
  }

  lemma {:induction false} InitialMeasure(c: Config, place: seq<Place>, alive: seq<bool>, n: nat, m: nat)
    requires n <= |place| && m <= |alive| && (forall j :: 0 <= j < n ==> place[j] == Todo) && (forall w :: 0 <= w < m ==> alive[w])
    ensures Ranks(place, n) == 9 * n && AliveCount(alive, m) == m
    decreases n + m
  {
    if n > 0 {
      InitialMeasure(c, place, alive, n - 1, m);
    } else if m > 0 {
      InitialMeasure(c, place, alive, n, m - 1);
    }
  }

  /** Every run is finite, whatever the schedule and whatever fails; a run that cannot be extended has come to
      rest, with every permit returned and nothing left of the budget in use. A run that ends without a failure
      has written every submitted job, in order. */
  lemma RunsEndClean(c: Config, states: seq<State>, steps: seq<Step>)
    requires c.workers > 0 && IsRun(c, states, steps)
    ensures |steps| <= 9 * |c.jobs| + c.workers + 2
    ensures var s := states[|steps|]; !CanStep(c, s) ==> Final(s) && s.used == 0 && !s.writer.Running?
    ensures var s := states[|steps|]; s.writer.Finished? ==>
              && s.next == s.sent <= |c.jobs|
              && s.file == Log(c.codec, c.base, c.jobs, s.sent)
              && s.offsets == Offsets(c.codec, c.base, c.jobs, s.sent)
              && (forall j :: 0 <= j < s.sent ==> EncodeJob(c, j).Ok?)
    ensures var s := states[|steps|]; s.writer.Failed? ==>
              s.writer.cause == WriteError || exists j: nat :: Unencodable(c, s, j)
  {
    var s := states[|steps|];
    StepsBounded(c, states, steps, |steps|);
    InitialMeasure(c, states[0].place, states[0].alive, |c.jobs|, c.workers);
    RunInv(c, states, steps, |steps|);
    FinishedWroteAll(c, s);
    if !CanStep(c, s) {
      if !Final(s) {
        DeadlockFree(c, s);
      }
      NothingLive(c.jobs, s.place, |c.jobs|);
    }
  }

  lemma FinishedWroteAll(c: Config, s: State)
    requires Inv(c, s)
    ensures s.writer.Finished? ==>
              && s.next == s.sent <= |c.jobs|
              && s.file == Log(c.codec, c.base, c.jobs, s.sent)
              && s.offsets == Offsets(c.codec, c.base, c.jobs, s.sent)
              && (forall j :: 0 <= j < s.sent ==> EncodeJob(c, j).Ok?)
    ensures s.writer.Failed? ==> s.writer.cause == WriteError || exists j: nat :: Unencodable(c, s, j)
  {
    if s.writer.Finished? {
      assert s.file + [] == s.file;
      assert Log(c.codec, c.base, c.jobs, s.sent) + [] == Log(c.codec, c.base, c.jobs, s.sent);
      forall j | 0 <= j < s.sent
        ensures EncodeJob(c, j).Ok?
      {
        assert EncodedAt(c, s, j);
      }
    }
  }
}
