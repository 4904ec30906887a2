/** A parallel download as a state machine (download.py, models.py): the
    coordinator submits one writer per range, writers run and fail in any order,
    failed ranges are rewritten from their start, and the result is published. */
module TransferProtocol {
  import opened Collections
  import opened ChunkPlan

  /** Bytes straight into one preallocated file, or one file per range joined later. */
  datatype Mode = Streaming | Temporary

  datatype Status = Pending | Downloading | Completed | Failed

  /** A writer: not submitted, waiting for a thread, between attempts, inside an
      attempt that has written `got` bytes, or finished. */
  datatype Writer = Absent | Queued | Idle | Writing(got: nat) | Stopped

  datatype Phase = Submitting(next: nat) | Waiting | Retrying | Finishing | Over

  /** What the server holds and how it was divided. */
  datatype Plan = Plan(remote: seq<byte>, ranges: seq<Range>, mode: Mode)

  /** `file` is the staging or assembly file; it stays the same file when it is
      published, so later writes to it would show. `toHook` and `hooked` are the
      futures whose completion callback is still to be attached or to run. */
  datatype Job = Job(
    file: seq<byte>, temps: seq<seq<byte>>, status: seq<Status>, writers: seq<Writer>,
    phase: Phase, deferred: bool, toHook: set<nat>, hooked: set<nat>,
    joined: bool, released: bool, published: bool)

  datatype Event =
    | Submit
    | AllSubmitted
    | Start(i: nat)
    | OpenRange(i: nat)
    | Block(i: nat, data: seq<byte>)
    | Lose(i: nat)
    | Succeed(i: nat)
    | Fail(i: nat)
    | MarkFailed(i: nat)
    | ToRetry
    | Retry(i: nat)
    | ToFinish
    | Assemble(joined: seq<byte>)
    | Publish
    | GiveUp
    | Hook(i: nat)
    | Callback(i: nat)

  predicate PlanOk(p: Plan) {
    Tiles(p.ranges, |p.remote|)
  }

  lemma {:induction false} RangesInside(ranges: seq<Range>, fileSize: int, i: nat)
    requires Tiles(ranges, fileSize) && i < |ranges|
    ensures 0 <= ranges[i].start <= ranges[i].end < fileSize
  {
    if i > 0 { TilesOrdered(ranges, fileSize, 0, i); }
    if i < |ranges| - 1 { TilesOrdered(ranges, fileSize, i, |ranges| - 1); }
  }

  /** The first `got` bytes of a range of the remote file. */
  ghost function Part(p: Plan, i: nat, got: int): seq<byte>
    requires PlanOk(p) && i < |p.ranges| && 0 <= got <= Size(p.ranges[i])
  {
    RangesInside(p.ranges, |p.remote|, i);
    p.remote[p.ranges[i].start..p.ranges[i].start + got]
  }

  /** `seek` and `write`. */
  function Overwrite(file: seq<byte>, at: nat, data: seq<byte>): seq<byte>
    requires at + |data| <= |file|
  {
    file[..at] + data + file[at + |data|..]
  }

  predicate Shape(p: Plan, j: Job) {
    var n := |p.ranges|;
    && |j.temps| == n && |j.status| == n && |j.writers| == n
    && (p.mode.Streaming? ==> |j.file| == |p.remote|)
    && (j.phase.Submitting? ==> j.phase.next <= n)
    && (forall i | i in j.toHook :: i < n) && (forall i | i in j.hooked :: i < n)
  }

  /** Every future is done and the coordinator is not writing either. */
  predicate AllStopped(j: Job) {
    forall i | 0 <= i < |j.writers| :: j.writers[i].Stopped? || j.writers[i].Absent?
  }

  function Unfinished(j: Job): set<nat> {
    set i: nat | i < |j.writers| && !j.writers[i].Stopped? && !j.writers[i].Absent?
  }

  /** `cleanup_chunks`: at once when nothing is pending; otherwise deferred, once. */
  function Cleanup(j: Job): Job {
    if AllStopped(j) then j.(released := true)
    else if j.deferred then j
    else j.(deferred := true, toHook := Unfinished(j))
  }

  ghost predicate Enabled(p: Plan, j: Job, e: Event)
    requires PlanOk(p) && Shape(p, j)
  {
    var n := |p.ranges|;
    match e
    case Submit => j.phase.Submitting? && j.phase.next < n
    case AllSubmitted => j.phase.Submitting? && j.phase.next == n
    case Start(i) => i < n && j.writers[i].Queued?
    case OpenRange(i) => i < n && j.writers[i].Idle?
    case Block(i, data) =>
      // The body of a validated range response carries the representation's
      // bytes in order; a block past the end of the range is refused unwritten.
      && i < n && j.writers[i].Writing? && j.writers[i].got + |data| <= Size(p.ranges[i])
      && Part(p, i, j.writers[i].got) + data == Part(p, i, j.writers[i].got + |data|)
    case Lose(i) => i < n && j.writers[i].Writing?
    case Succeed(i) => i < n && j.writers[i].Writing? && j.writers[i].got == Size(p.ranges[i])
    case Fail(i) => i < n && (j.writers[i].Idle? || j.writers[i].Writing? || j.writers[i].Queued?)
    case MarkFailed(i) => i < n && j.phase.Waiting? && j.writers[i].Stopped?
    case ToRetry => j.phase.Waiting? && AllStopped(j)
    case Retry(i) => i < n && j.phase.Retrying? && AllStopped(j) && j.status[i].Failed?
    case ToFinish => (j.phase.Waiting? || j.phase.Retrying?) && AllStopped(j)
    case Assemble(joined) =>
      // Each temporary file must have its range's size; they are joined in order.
      && j.phase.Finishing? && p.mode.Temporary? && (forall i | 0 <= i < n :: j.status[i].Completed?)
      && (forall i | 0 <= i < n :: |j.temps[i]| == Size(p.ranges[i]))
      && |joined| == |p.remote| && (forall i | 0 <= i < n :: IsPlaced(p.ranges, joined, i, j.temps[i]))
    case Publish =>
      && j.phase.Finishing? && (forall i | 0 <= i < n :: j.status[i].Completed?) && |j.file| == |p.remote|
      && (p.mode.Temporary? ==> j.joined)
    case GiveUp => !j.phase.Over? && (j.phase.Retrying? ==> AllStopped(j))
    case Hook(i) => i in j.toHook
    case Callback(i) => i < n && i in j.hooked && j.writers[i].Stopped?
  }

  /** `joined` holds `data` where range `i` lies. */
  predicate IsPlaced(ranges: seq<Range>, joined: seq<byte>, i: nat, data: seq<byte>)
    requires i < |ranges|
  {
    var at := ranges[i].start;
    0 <= at && at + |data| <= |joined| && joined[at..at + |data|] == data
  }

  ghost function Apply(p: Plan, j: Job, e: Event): Job
    requires PlanOk(p) && Shape(p, j) && Enabled(p, j, e)
  {
    match e
    case Submit => j.(writers := j.writers[j.phase.next := Queued], phase := Submitting(j.phase.next + 1))
    case AllSubmitted => j.(phase := Waiting)
    case Start(i) => j.(writers := j.writers[i := Idle], status := j.status[i := Downloading])
    case OpenRange(i) =>
      j.(writers := j.writers[i := Writing(0)], temps := if p.mode.Temporary? then j.temps[i := []] else j.temps)
    case Block(i, data) =>
      var got := j.writers[i].got;
      RangesInside(p.ranges, |p.remote|, i);
      j.(writers := j.writers[i := Writing(got + |data|)],
         file := if p.mode.Streaming? then Overwrite(j.file, p.ranges[i].start + got, data) else j.file,
         temps := if p.mode.Temporary? then j.temps[i := j.temps[i] + data] else j.temps)
    case Lose(i) => j.(writers := j.writers[i := Idle])
    case Succeed(i) => j.(writers := j.writers[i := Stopped], status := j.status[i := Completed])
    case Fail(i) => j.(writers := j.writers[i := Stopped], status := j.status[i := Failed])
    case MarkFailed(i) => j.(status := j.status[i := Failed])
    case ToRetry => j.(phase := Retrying)
    case Retry(i) => j.(writers := j.writers[i := Idle], status := j.status[i := Pending])
    case ToFinish => j.(phase := Finishing)
    case Assemble(joined) => j.(file := joined, joined := true)
    case Publish => Cleanup(j.(published := true, phase := Over))
    case GiveUp => Cleanup(j.(phase := Over))
    case Hook(i) => j.(toHook := j.toHook - {i}, hooked := j.hooked + {i})
    case Callback(i) =>
      // `retire`: the callback cleans up only if every future is done by now.
      var j' := j.(hooked := j.hooked - {i});
      if AllStopped(j') then Cleanup(j') else j'
  }

  function Initial(p: Plan, zeros: seq<byte>): Job {
    var n := |p.ranges|;
    Job(zeros, seq(n, _ => []), seq(n, _ => Pending), seq(n, _ => Absent), Submitting(0), false, {}, {}, false, false,
        false)
  }

  // ---------------------------------------------------------------- invariant

  /** The bytes of range `i`, wherever this mode keeps them. */
  ghost predicate Holds(p: Plan, j: Job, i: nat, got: nat)
    requires PlanOk(p) && Shape(p, j) && i < |p.ranges| && got <= Size(p.ranges[i])
  {
    RangesInside(p.ranges, |p.remote|, i);
    if p.mode.Temporary? then j.temps[i] == Part(p, i, got)
    else j.file[p.ranges[i].start..p.ranges[i].start + got] == Part(p, i, got)
  }

  /** What a writer has written so far and what a completed range contains is remote data. */
  ghost predicate RangeOk(p: Plan, j: Job, i: nat)
    requires PlanOk(p) && Shape(p, j) && i < |p.ranges|
  {
    RangesInside(p.ranges, |p.remote|, i);
    && (j.writers[i].Writing? ==> j.writers[i].got <= Size(p.ranges[i]) && Holds(p, j, i, j.writers[i].got))
    && (j.status[i].Completed? ==> j.writers[i].Stopped? && Holds(p, j, i, Size(p.ranges[i])))
  }

  /** Nothing is published or released while a writer is unfinished; a deferred
      cleanup always has a callback left that will perform it. */
  predicate LifeOk(p: Plan, j: Job) {
    && (j.phase.Finishing? || j.published || j.released ==> AllStopped(j))
    && (j.published || j.released || j.deferred ==> j.phase.Over?)
    && (j.phase.Submitting? ==> forall i | j.phase.next <= i < |j.writers| :: j.writers[i].Absent?)
    && (j.toHook + j.hooked != {} ==> j.deferred)
    && (j.deferred ==> Unfinished(j) <= j.toHook + j.hooked)
    && (j.deferred && j.toHook + j.hooked == {} ==> j.released)
  }

  ghost predicate FileOk(p: Plan, j: Job) {
    && (j.joined ==> p.mode.Temporary? && j.file == p.remote)
    && (j.published ==> j.file == p.remote)
  }

  ghost predicate Inv(p: Plan, j: Job) {
    && PlanOk(p) && Shape(p, j) && LifeOk(p, j) && FileOk(p, j)
    && forall i | 0 <= i < |p.ranges| :: RangeOk(p, j, i)
  }

  // ------------------------------------------------------------- preservation

  lemma OverwriteParts(file: seq<byte>, at: nat, data: seq<byte>, lo: nat, hi: nat)
    requires at + |data| <= |file| && lo <= hi <= |file|
    ensures |Overwrite(file, at, data)| == |file|
    ensures hi <= at || at + |data| <= lo ==> Overwrite(file, at, data)[lo..hi] == file[lo..hi]
    ensures lo <= at && hi == at + |data| ==> Overwrite(file, at, data)[lo..hi] == file[lo..at] + data
  {}

  /** A block extends its own range by remote bytes. */
  lemma BlockExtends(p: Plan, j: Job, i: nat, data: seq<byte>)
    requires PlanOk(p) && Shape(p, j) && Enabled(p, j, Block(i, data)) && RangeOk(p, j, i)
    ensures Shape(p, Apply(p, j, Block(i, data))) && RangeOk(p, Apply(p, j, Block(i, data)), i)
  {
    hide Part, Overwrite;
    RangesInside(p.ranges, |p.remote|, i);
    var got, start := j.writers[i].got, p.ranges[i].start;
    if p.mode.Streaming? {
      OverwriteParts(j.file, start + got, data, start, start + got + |data|);
    }
  }

  /** Bytes written inside range `i` lie outside every other range. */
  lemma OtherRangeUntouched(p: Plan, file: seq<byte>, i: nat, got: nat, data: seq<byte>, k: nat, upTo: nat)
    requires PlanOk(p) && |file| == |p.remote| && i < |p.ranges| && k < |p.ranges| && k != i
    requires got + |data| <= Size(p.ranges[i]) && upTo <= Size(p.ranges[k])
    ensures 0 <= p.ranges[i].start && p.ranges[i].start + got + |data| <= |file|
    ensures 0 <= p.ranges[k].start && p.ranges[k].start + upTo <= |file|
    ensures var at, lo := p.ranges[i].start + got, p.ranges[k].start;
            Overwrite(file, at, data)[lo..lo + upTo] == file[lo..lo + upTo]
  {
    RangesInside(p.ranges, |p.remote|, i);
    RangesInside(p.ranges, |p.remote|, k);
    if k < i { TilesOrdered(p.ranges, |p.remote|, k, i); } else { TilesOrdered(p.ranges, |p.remote|, i, k); }
    OverwriteParts(file, p.ranges[i].start + got, data, p.ranges[k].start, p.ranges[k].start + upTo);
  }

  /** A block touches no other range. */
  lemma BlockSpares(p: Plan, j: Job, i: nat, data: seq<byte>, k: nat)
    requires PlanOk(p) && Shape(p, j) && Enabled(p, j, Block(i, data))
    requires k < |p.ranges| && k != i && RangeOk(p, j, k)
    ensures Shape(p, Apply(p, j, Block(i, data))) && RangeOk(p, Apply(p, j, Block(i, data)), k)
  {
    hide Tiles, Overwrite;
    RangesInside(p.ranges, |p.remote|, i);
    RangesInside(p.ranges, |p.remote|, k);
    if p.mode.Streaming? {
      var got := j.writers[i].got;
      OverwriteParts(j.file, p.ranges[i].start + got, data, 0, 0);
      if j.writers[k].Writing? {
        OtherRangeUntouched(p, j.file, i, got, data, k, j.writers[k].got);
      }
      OtherRangeUntouched(p, j.file, i, got, data, k, Size(p.ranges[k]));
    }
  }

  lemma StepShape(p: Plan, j: Job, e: Event)
    requires PlanOk(p) && Shape(p, j) && Enabled(p, j, e)
    ensures Shape(p, Apply(p, j, e))
  {
    hide Tiles, Part, IsPlaced, AllStopped, Overwrite;
    if e.Block? {
      RangesInside(p.ranges, |p.remote|, e.i);
      OverwriteParts(j.file, 0, [], 0, 0);
      if p.mode.Streaming? {
        OverwriteParts(j.file, p.ranges[e.i].start + j.writers[e.i].got, e.data, 0, 0);
      }
    }
  }

  lemma ShapeMeans(p: Plan, j: Job)
    requires Shape(p, j)
    ensures |j.temps| == |j.status| == |j.writers| == |p.ranges| && (j.phase.Submitting? ==> j.phase.next <= |p.ranges|)
  {}

  /** A range stays good while its bytes are left alone. */
  lemma SameBytes(p: Plan, j: Job, j': Job, k: nat)
    requires PlanOk(p) && Shape(p, j) && Shape(p, j') && k < |p.ranges| && RangeOk(p, j, k)
    requires j'.temps[k] == j.temps[k] && (p.mode.Streaming? ==> j'.file == j.file)
    requires j'.writers[k].Writing? ==> j'.writers[k] == j.writers[k]
    requires j'.status[k].Completed? ==>
               j'.writers[k].Stopped? && (j.status[k].Completed? || j.writers[k] == Writing(Size(p.ranges[k])))
    ensures RangeOk(p, j', k)
  {}

  /** A new attempt starts the range over. */
  lemma OpenKeepsRange(p: Plan, j: Job, i: nat, k: nat)
    requires PlanOk(p) && Shape(p, j) && Enabled(p, j, OpenRange(i)) && k < |p.ranges| && RangeOk(p, j, k)
    ensures Shape(p, Apply(p, j, OpenRange(i))) && RangeOk(p, Apply(p, j, OpenRange(i)), k)
  {
    hide Tiles;
    RangesInside(p.ranges, |p.remote|, k);
    if i != k {
      SameBytes(p, j, Apply(p, j, OpenRange(i)), k);
    }
  }

  /** Ranges stay good in every step, whoever takes it. */
  lemma StepKeepsRange(p: Plan, j: Job, e: Event, k: nat)
    requires PlanOk(p) && Shape(p, j) && Enabled(p, j, e) && k < |p.ranges| && RangeOk(p, j, k)
    requires e.Submit? ==> j.writers[j.phase.next].Absent?
    requires e.Assemble? ==> AllStopped(j)
    ensures Shape(p, Apply(p, j, e)) && RangeOk(p, Apply(p, j, e), k)
  {
    hide Tiles, Overwrite, Holds, Part, AllStopped, Unfinished, IsPlaced, Shape;
    StepShape(p, j, e);
    ShapeMeans(p, j);
    match e
    case Block(i, data) =>
      if i == k { BlockExtends(p, j, i, data); } else { BlockSpares(p, j, i, data, k); }
    case OpenRange(i) => OpenKeepsRange(p, j, i, k);
    case _ => SameBytes(p, j, Apply(p, j, e), k);
  }

  lemma CleanupKeepsLife(p: Plan, j: Job)
    requires Shape(p, j) && j.phase.Over? && (j.published ==> AllStopped(j))
    requires j.released ==> AllStopped(j)
    requires j.toHook + j.hooked != {} ==> j.deferred
    requires j.deferred ==> Unfinished(j) <= j.toHook + j.hooked
    ensures LifeOk(p, Cleanup(j)) && Shape(p, Cleanup(j))
    requires !AllStopped(j) && j.deferred ==> j.toHook + j.hooked != {}
  {
    if !AllStopped(j) {
      var i :| 0 <= i < |j.writers| && !j.writers[i].Stopped? && !j.writers[i].Absent?;
      assert i in Unfinished(j);
    }
  }

  predicate IsUnfinished(w: Writer) {
    !w.Stopped? && !w.Absent?
  }

  /** Only a retry makes a writer unfinished, and before it absent ones stay absent. */
  lemma MoveKeepsLife(p: Plan, j: Job, j': Job, i: nat)
    requires LifeOk(p, j) && i < |j.writers| == |j'.writers| && j'.writers == j.writers[i := j'.writers[i]]
    requires j'.phase == j.phase && j'.deferred == j.deferred && j'.toHook == j.toHook && j'.hooked == j.hooked
    requires j'.released == j.released && j'.published == j.published
    requires IsUnfinished(j'.writers[i]) ==> IsUnfinished(j.writers[i]) || j.phase.Retrying?
    requires j.phase.Submitting? && j.writers[i].Absent? ==> j'.writers[i].Absent?
    ensures LifeOk(p, j')
  {
    if !j.phase.Retrying? {
      forall k | k in Unfinished(j') ensures k in Unfinished(j) {
        assert IsUnfinished(j'.writers[k]);
      }
    }
  }

  lemma CallbackKeepsLife(p: Plan, j: Job, i: nat)
    requires PlanOk(p) && Shape(p, j) && LifeOk(p, j) && Enabled(p, j, Callback(i))
    ensures LifeOk(p, Apply(p, j, Callback(i)))
  {
    var j' := j.(hooked := j.hooked - {i});
    assert i !in Unfinished(j);
    if AllStopped(j') {
      CleanupKeepsLife(p, j');
    } else {
      var k :| 0 <= k < |j.writers| && !j.writers[k].Stopped? && !j.writers[k].Absent?;
      assert k in Unfinished(j');
    }
  }

  lemma StepKeepsLife(p: Plan, j: Job, e: Event)
    requires PlanOk(p) && Shape(p, j) && LifeOk(p, j) && Enabled(p, j, e)
    ensures Shape(p, Apply(p, j, e)) && LifeOk(p, Apply(p, j, e))
  {
    StepShape(p, j, e);
    hide Tiles, Overwrite, Part, IsPlaced, Shape;
    ShapeMeans(p, j);
    match e
    case Publish =>
      ShapeAfter(p, j, true);
      CleanupKeepsLife(p, j.(published := true, phase := Over));
    case GiveUp =>
      ShapeAfter(p, j, j.published);
      CleanupKeepsLife(p, j.(phase := Over));
    case Callback(i) => CallbackKeepsLife(p, j, i);
    case Hook(i) =>
      assert (j.toHook - {i}) + (j.hooked + {i}) == j.toHook + j.hooked;
    case Submit =>
    case AllSubmitted =>
    case ToRetry =>
    case ToFinish =>
    case Assemble(_) =>
    case _ => WriterKeepsLife(p, j, e);
  }

  /** Steps of a writer. */
  lemma WriterKeepsLife(p: Plan, j: Job, e: Event)
    requires PlanOk(p) && Shape(p, j) && LifeOk(p, j) && Enabled(p, j, e)
    requires e.Start? || e.OpenRange? || e.Block? || e.Lose? || e.Succeed? || e.Fail? || e.MarkFailed? || e.Retry?
    ensures LifeOk(p, Apply(p, j, e))
  {
    hide Tiles, Overwrite, Part, IsPlaced, LifeOk, AllStopped, Unfinished, Shape;
    ShapeMeans(p, j);
    MoveKeepsLife(p, j, Apply(p, j, e), e.i);
  }

  lemma ShapeAfter(p: Plan, j: Job, published: bool)
    requires Shape(p, j)
    ensures Shape(p, j.(published := published, phase := Over))
  {}

  lemma {:induction false} AgreeBelow(p: Plan, file: seq<byte>, n: nat)
    requires PlanOk(p) && |file| == |p.remote| && 1 <= n <= |p.ranges|
    requires forall i | 0 <= i < n :: PartAt(p, file, i)
    ensures 0 <= p.ranges[n - 1].end < |p.remote|
    ensures file[..p.ranges[n - 1].end + 1] == p.remote[..p.ranges[n - 1].end + 1]
    decreases n
  {
    RangesInside(p.ranges, |p.remote|, n - 1);
    var r := p.ranges[n - 1];
    assert PartAt(p, file, n - 1);
    assert file[..r.end + 1] == file[..r.start] + file[r.start..r.end + 1];
    assert p.remote[..r.end + 1] == p.remote[..r.start] + p.remote[r.start..r.end + 1];
    if n > 1 {
      AgreeBelow(p, file, n - 1);
    }
  }

  ghost predicate PartAt(p: Plan, file: seq<byte>, i: nat)
    requires PlanOk(p) && |file| == |p.remote| && i < |p.ranges|
  {
    RangesInside(p.ranges, |p.remote|, i);
    file[p.ranges[i].start..p.ranges[i].end + 1] == p.remote[p.ranges[i].start..p.ranges[i].end + 1]
  }

  /** A file of the right length that agrees with the remote file on every range is the remote file. */
  lemma RangesMakeFile(p: Plan, file: seq<byte>)
    requires PlanOk(p) && |file| == |p.remote| && forall i | 0 <= i < |p.ranges| :: PartAt(p, file, i)
    ensures file == p.remote
  {
    AgreeBelow(p, file, |p.ranges|);
    assert file[..|file|] == file && p.remote[..|p.remote|] == p.remote;
  }

  /** Publishing and joining happen only on complete remote data, and no writer is
      left that could touch the published file. */
  lemma StepKeepsFile(p: Plan, j: Job, e: Event)
    requires Inv(p, j) && Enabled(p, j, e)
    ensures FileOk(p, Apply(p, j, e))
  {
    hide Tiles, Overwrite, Unfinished;
    match e
    case Block(i, data) =>
      assert !j.published;
    case Assemble(joined) =>
      forall i | 0 <= i < |p.ranges| ensures PartAt(p, joined, i) {
        assert RangeOk(p, j, i) && IsPlaced(p.ranges, joined, i, j.temps[i]);
      }
      RangesMakeFile(p, joined);
    case Publish =>
      if p.mode.Streaming? {
        forall i | 0 <= i < |p.ranges| ensures PartAt(p, j.file, i) {
          assert RangeOk(p, j, i);
        }
        RangesMakeFile(p, j.file);
      }
    case _ =>
  }

  lemma StepKeepsInv(p: Plan, j: Job, e: Event)
    requires Inv(p, j) && Enabled(p, j, e)
    ensures Shape(p, Apply(p, j, e)) && Inv(p, Apply(p, j, e))
  {
    StepKeepsLife(p, j, e);
    StepKeepsFile(p, j, e);
    forall k | 0 <= k < |p.ranges| ensures RangeOk(p, Apply(p, j, e), k) {
      assert RangeOk(p, j, k);
      StepKeepsRange(p, j, e, k);
    }
  }

  ghost predicate Runs(p: Plan, j: Job, es: seq<Event>)
    requires PlanOk(p) && Shape(p, j)
    decreases es
  {
    es == [] || (Enabled(p, j, es[0]) && Shape(p, Apply(p, j, es[0])) && Runs(p, Apply(p, j, es[0]), es[1..]))
  }

  ghost function After(p: Plan, j: Job, es: seq<Event>): Job
    requires PlanOk(p) && Shape(p, j) && Runs(p, j, es)
    decreases es
  {
    if es == [] then j else After(p, Apply(p, j, es[0]), es[1..])
  }

  lemma {:induction false} RunKeepsInv(p: Plan, j: Job, es: seq<Event>)
    requires Inv(p, j) && Runs(p, j, es)
    ensures Shape(p, After(p, j, es)) && Inv(p, After(p, j, es))
    decreases es
  {
    if es != [] {
      StepKeepsInv(p, j, es[0]);
      RunKeepsInv(p, Apply(p, j, es[0]), es[1..]);
    }
  }

  lemma InitialInv(p: Plan, zeros: seq<byte>)
    requires PlanOk(p) && (p.mode.Streaming? ==> |zeros| == |p.remote|)
    ensures Shape(p, Initial(p, zeros)) && Inv(p, Initial(p, zeros))
  {
    forall i | 0 <= i < |p.ranges| ensures RangeOk(p, Initial(p, zeros), i) {
      RangesInside(p.ranges, |p.remote|, i);
    }
  }

  // ----------------------------------------------------------------- theorems

  ghost predicate Reachable(p: Plan, zeros: seq<byte>, es: seq<Event>) {
    && PlanOk(p) && (p.mode.Streaming? ==> |zeros| == |p.remote|)
    && Shape(p, Initial(p, zeros)) && Runs(p, Initial(p, zeros), es)
  }

  /** Whenever a file is published - and at every moment after that - its bytes
      are the remote file's, in either mode and under every interleaving. */
  lemma PublishedIsRemote(p: Plan, zeros: seq<byte>, es: seq<Event>)
    requires Reachable(p, zeros, es) && After(p, Initial(p, zeros), es).published
    ensures After(p, Initial(p, zeros), es).file == p.remote
    ensures AllStopped(After(p, Initial(p, zeros), es))
  {
    InitialInv(p, zeros);
    RunKeepsInv(p, Initial(p, zeros), es);
  }

  /** Streaming into one file and joining temporary files publish the same bytes. */
  lemma ModesAgree(remote: seq<byte>, ranges: seq<Range>, ranges': seq<Range>, zeros: seq<byte>, zeros': seq<byte>,
                   es: seq<Event>, es': seq<Event>)
    requires Reachable(Plan(remote, ranges, Streaming), zeros, es)
    requires Reachable(Plan(remote, ranges', Temporary), zeros', es')
    requires var p := Plan(remote, ranges, Streaming); After(p, Initial(p, zeros), es).published
    requires var p' := Plan(remote, ranges', Temporary); After(p', Initial(p', zeros'), es').published
    ensures var p, p' := Plan(remote, ranges, Streaming), Plan(remote, ranges', Temporary);
            After(p, Initial(p, zeros), es).file == After(p', Initial(p', zeros'), es').file
  {
    PublishedIsRemote(Plan(remote, ranges, Streaming), zeros, es);
    PublishedIsRemote(Plan(remote, ranges', Temporary), zeros', es');
  }

  /** No workspace is released while a writer is unfinished; once every callback of
      a deferred cleanup has run, the release has happened. */
  lemma ReleaseWaitsForWriters(p: Plan, zeros: seq<byte>, es: seq<Event>)
    requires Reachable(p, zeros, es)
    ensures var j := After(p, Initial(p, zeros), es);
            && (j.released ==> AllStopped(j))
            && (j.deferred && j.toHook == {} && j.hooked == {} ==> j.released)
            && (j.deferred && !j.released ==> j.toHook + j.hooked != {} && Unfinished(j) <= j.toHook + j.hooked)
  {
    InitialInv(p, zeros);
    RunKeepsInv(p, Initial(p, zeros), es);
  }

  /** The last writer to finish performs the deferred release: its callback, run
      when every other one has run, releases the workspace. */
  lemma LastWriterReleases(p: Plan, zeros: seq<byte>, es: seq<Event>, i: nat)
    requires Reachable(p, zeros, es)
    requires var j := After(p, Initial(p, zeros), es);
             Shape(p, j) && Enabled(p, j, Callback(i)) && j.toHook == {} && j.hooked == {i}
    ensures Apply(p, After(p, Initial(p, zeros), es), Callback(i)).released
  {
    InitialInv(p, zeros);
    RunKeepsInv(p, Initial(p, zeros), es);
    StepKeepsInv(p, After(p, Initial(p, zeros), es), Callback(i));
  }
}
