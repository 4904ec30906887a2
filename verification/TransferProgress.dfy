/** That a parallel download can still succeed (download.py): whatever the writers did
    so far, until the coordinator has given up or looked at the result. */
module TransferProgress {
  import opened Collections
  import opened ChunkPlan
  import opened TransferProtocol

  /** Some run from here publishes the file. */
  ghost predicate CanPublish(p: Plan, j: Job)
    requires PlanOk(p) && Shape(p, j)
  {
    exists es :: Runs(p, j, es) && After(p, j, es).published
  }

  ghost predicate AllCompleted(j: Job) {
    forall i | 0 <= i < |j.status| :: j.status[i].Completed?
  }

  /** The coordinator is still working on the ranges, or has them all, or is done. */
  ghost predicate Hopeful(j: Job) {
    j.published || j.phase.Submitting? || j.phase.Waiting? || j.phase.Retrying?
    || (j.phase.Finishing? && AllCompleted(j))
  }

  /** A submitted writer exists, and a stopped one has an outcome. */
  ghost predicate TrackedAt(j: Job, i: nat)
    requires i < |j.writers| && i < |j.status|
  {
    && (j.writers[i].Stopped? ==> j.status[i].Completed? || j.status[i].Failed?)
    && (j.writers[i].Absent? ==> j.phase.Over? || (j.phase.Submitting? && j.phase.next <= i))
  }

  ghost predicate Tracked(j: Job) {
    |j.writers| == |j.status| && forall i | 0 <= i < |j.writers| :: TrackedAt(j, i)
  }

  lemma StepKeepsTracked(p: Plan, j: Job, e: Event)
    requires PlanOk(p) && Shape(p, j) && Enabled(p, j, e) && Tracked(j)
    ensures Tracked(Apply(p, j, e))
  {
    var j' := Apply(p, j, e);
    StepShape(p, j, e);
    hide Enabled, Apply, PlanOk, TrackedAt;
    forall i | 0 <= i < |j'.writers| ensures TrackedAt(j', i) {
      assert TrackedAt(j, i);
      StepKeepsTrackedAt(p, j, e, i);
    }
  }

  lemma StepKeepsTrackedAt(p: Plan, j: Job, e: Event, i: nat)
    requires PlanOk(p) && Shape(p, j) && Enabled(p, j, e) && i < |p.ranges| && TrackedAt(j, i)
    ensures var j' := Apply(p, j, e);
            i < |j'.writers| && i < |j'.status| && TrackedAt(j', i)
  {
    hide Tiles, Overwrite, Part, IsPlaced, Unfinished, AllStopped;
  }

  lemma {:induction false} RunKeepsTracked(p: Plan, j: Job, es: seq<Event>)
    requires PlanOk(p) && Shape(p, j) && Tracked(j) && Runs(p, j, es)
    ensures Tracked(After(p, j, es))
    decreases es
  {
    hide Tracked, Enabled, Apply, Shape, PlanOk;
    if es != [] {
      StepKeepsTracked(p, j, es[0]);
      RunKeepsTracked(p, Apply(p, j, es[0]), es[1..]);
    }
  }

  lemma InvShape(p: Plan, j: Job)
    requires Inv(p, j)
    ensures PlanOk(p) && Shape(p, j)
  {}

  lemma Continue(p: Plan, j: Job, e: Event)
    requires PlanOk(p) && Shape(p, j) && Enabled(p, j, e) && Shape(p, Apply(p, j, e)) && CanPublish(p, Apply(p, j, e))
    ensures CanPublish(p, j)
  {
    hide Enabled, Apply, Shape, PlanOk;
    var es :| Runs(p, Apply(p, j, e), es) && After(p, Apply(p, j, e), es).published;
    assert ([e] + es)[0] == e && ([e] + es)[1..] == es;
    assert Runs(p, j, [e] + es);
  }

  // ------------------------------------------------------------------ what is left

  /** Steps that a range still needs. */
  function Rank(p: Plan, j: Job, i: nat): nat
    requires i < |p.ranges| && i < |j.writers| && i < |j.status|
  {
    match j.writers[i]
    case Stopped => if j.status[i].Completed? then 0 else 5
    case Writing(got) => if got == Size(p.ranges[i]) then 1 else 2
    case Idle => 3
    case Queued => 4
    case Absent => 5
  }

  function Left(p: Plan, j: Job, n: nat): nat
    requires n <= |p.ranges| && n <= |j.writers| && n <= |j.status|
  {
    if n == 0 then 0 else Left(p, j, n - 1) + Rank(p, j, n - 1)
  }

  lemma {:induction false} OneLess(p: Plan, j: Job, j': Job, i: nat, n: nat)
    requires n <= |p.ranges| && n <= |j.writers| == |j'.writers| && n <= |j.status| == |j'.status| && i < |p.ranges|
    requires forall k | 0 <= k < n && k != i :: Rank(p, j', k) == Rank(p, j, k)
    requires i < n ==> Rank(p, j', i) < Rank(p, j, i)
    ensures if i < n then Left(p, j', n) < Left(p, j, n) else Left(p, j', n) == Left(p, j, n)
    decreases n
  {
    hide Rank;
    if n > 0 {
      OneLess(p, j, j', i, n - 1);
    }
  }

  /** The next step for a range that is not done, when its writer may act. */
  ghost function NextStep(p: Plan, j: Job, i: nat): Event
    requires PlanOk(p) && Shape(p, j) && i < |p.ranges|
    requires RangeOk(p, j, i)
  {
    match j.writers[i]
    case Queued => Start(i)
    case Idle => OpenRange(i)
    case Writing(got) => if got == Size(p.ranges[i]) then Succeed(i) else Block(i, Rest(p, i, got))
    case _ => Retry(i)
  }

  /** The bytes of a range that are still missing. */
  ghost function Rest(p: Plan, i: nat, got: nat): (data: seq<byte>)
    requires PlanOk(p) && i < |p.ranges| && got <= Size(p.ranges[i])
    ensures got + |data| == Size(p.ranges[i]) && Part(p, i, got) + data == Part(p, i, got + |data|)
  {
    RangesInside(p.ranges, |p.remote|, i);
    p.remote[p.ranges[i].start + got..p.ranges[i].end + 1]
  }

  lemma NextStepHelps(p: Plan, j: Job, i: nat)
    requires Inv(p, j) && i < |p.ranges| && !j.writers[i].Absent? && Rank(p, j, i) > 0
    requires j.phase.Waiting? || j.phase.Retrying?
    requires j.writers[i].Stopped? ==> j.phase.Retrying? && AllStopped(j) && j.status[i].Failed?
    ensures RangeOk(p, j, i) && Enabled(p, j, NextStep(p, j, i))
    ensures var j' := Apply(p, j, NextStep(p, j, i));
            && j'.phase == j.phase && |j'.writers| == |j.writers| && |j'.status| == |j.status|
            && Left(p, j', |p.ranges|) < Left(p, j, |p.ranges|)
  {
    assert RangeOk(p, j, i);
    hide Tiles, Overwrite, Part, AllStopped, LifeOk, FileOk;
    var j' := Apply(p, j, NextStep(p, j, i));
    assert Rank(p, j', i) < Rank(p, j, i);
    OneLess(p, j, j', i, |p.ranges|);
  }

  lemma {:induction false} NothingLeft(p: Plan, j: Job, n: nat)
    requires n <= |p.ranges| && n <= |j.writers| && n <= |j.status| && Left(p, j, n) == 0
    ensures forall i | 0 <= i < n :: j.writers[i].Stopped? && j.status[i].Completed?
  {
    if n > 0 {
      NothingLeft(p, j, n - 1);
    }
  }

  lemma {:induction false} SomethingLeft(p: Plan, j: Job, n: nat) returns (i: nat)
    requires n <= |p.ranges| && n <= |j.writers| && n <= |j.status| && Left(p, j, n) > 0
    ensures i < n && Rank(p, j, i) > 0
  {
    if Rank(p, j, n - 1) > 0 {
      i := n - 1;
    } else {
      i := SomethingLeft(p, j, n - 1);
    }
  }

  // ------------------------------------------------------------------ the ways there

  lemma PublishNow(p: Plan, j: Job)
    requires Inv(p, j) && j.phase.Finishing? && AllCompleted(j) && |j.file| == |p.remote|
    requires p.mode.Temporary? ==> j.joined
    ensures CanPublish(p, j)
  {
    StepKeepsInv(p, j, Publish);
    var j' := Apply(p, j, Publish);
    assert Runs(p, j', []) && After(p, j', []) == j';
    Continue(p, j, Publish);
  }

  lemma FinishingPublishes(p: Plan, j: Job)
    requires Inv(p, j) && j.phase.Finishing? && AllCompleted(j)
    ensures CanPublish(p, j)
  {
    if p.mode.Temporary? && !j.joined {
      CompletedIsPlaced(p, j);
      StepKeepsInv(p, j, Assemble(p.remote));
      PublishNow(p, Apply(p, j, Assemble(p.remote)));
      Continue(p, j, Assemble(p.remote));
    } else {
      PublishNow(p, j);
    }
  }

  lemma CompletedIsPlaced(p: Plan, j: Job)
    requires Inv(p, j) && j.phase.Finishing? && AllCompleted(j) && p.mode.Temporary?
    ensures Enabled(p, j, Assemble(p.remote))
  {
    forall i | 0 <= i < |p.ranges|
      ensures |j.temps[i]| == Size(p.ranges[i]) && IsPlaced(p.ranges, p.remote, i, j.temps[i])
    {
      RangesInside(p.ranges, |p.remote|, i);
      assert RangeOk(p, j, i);
    }
  }

  /** From a coordinator that waits or retries, one range after the other is completed. */
  lemma {:induction false} WorkingPublishes(p: Plan, j: Job)
    requires Inv(p, j) && Tracked(j) && (j.phase.Waiting? || j.phase.Retrying?)
    ensures CanPublish(p, j)
    decreases Left(p, j, |p.ranges|), if j.phase.Waiting? then 1 else 0
  {
    InvShape(p, j);
    hide CanPublish, Tracked, Inv;
    var e := Progress(p, j);
    StepKeepsInv(p, j, e);
    StepKeepsTracked(p, j, e);
    var j' := Apply(p, j, e);
    if e.ToFinish? {
      FinishingPublishes(p, j');
    } else {
      WorkingPublishes(p, j');
    }
    Continue(p, j, e);
  }

  /** Some step completes a range further, begins the retries or ends them. */
  lemma Progress(p: Plan, j: Job) returns (e: Event)
    requires Inv(p, j) && Tracked(j) && (j.phase.Waiting? || j.phase.Retrying?)
    ensures Enabled(p, j, e)
    ensures var j', n := Apply(p, j, e), |p.ranges|;
            && |j'.writers| == |j.writers| == n == |j'.status| == |j.status|
            && (e.ToFinish? ==> j'.phase.Finishing? && AllCompleted(j'))
            && (!e.ToFinish? ==>
                  && (j'.phase.Waiting? || j'.phase.Retrying?) && Left(p, j', n) <= Left(p, j, n)
                  && (Left(p, j', n) < Left(p, j, n) || (j.phase.Waiting? && !j'.phase.Waiting?)))
  {
    var n := |p.ranges|;
    if !AllStopped(j) {
      var i: nat :| i < n && !j.writers[i].Stopped?;
      assert TrackedAt(j, i);
      NextStepHelps(p, j, i);
      e := NextStep(p, j, i);
    } else if Left(p, j, n) == 0 {
      NothingLeft(p, j, n);
      e := ToFinish;
    } else if j.phase.Waiting? {
      e := ToRetry;
      SameLeft(p, j, Apply(p, j, ToRetry), n);
    } else {
      var i := SomethingLeft(p, j, n);
      assert TrackedAt(j, i);
      NextStepHelps(p, j, i);
      e := NextStep(p, j, i);
    }
  }

  lemma {:induction false} SameLeft(p: Plan, j: Job, j': Job, n: nat)
    requires n <= |p.ranges| && n <= |j.writers| && n <= |j.status| && j'.writers == j.writers && j'.status == j.status
    ensures Left(p, j', n) == Left(p, j, n)
  {
    if n > 0 {
      SameLeft(p, j, j', n - 1);
    }
  }

  lemma {:induction false} SubmittingPublishes(p: Plan, j: Job)
    requires Inv(p, j) && Tracked(j) && j.phase.Submitting?
    ensures CanPublish(p, j)
    decreases |p.ranges| - j.phase.next
  {
    hide CanPublish, Tracked;
    var e := if j.phase.next < |p.ranges| then Submit else AllSubmitted;
    StepKeepsInv(p, j, e);
    StepKeepsTracked(p, j, e);
    if e.Submit? {
      SubmittingPublishes(p, Apply(p, j, e));
    } else {
      WorkingPublishes(p, Apply(p, j, e));
    }
    Continue(p, j, e);
  }

  // ------------------------------------------------------------------- and no other

  lemma HopelessStays(p: Plan, j: Job, e: Event)
    requires Inv(p, j) && Enabled(p, j, e) && !Hopeful(j)
    ensures !Hopeful(Apply(p, j, e))
  {
    hide Tiles, Overwrite, Part, IsPlaced, Unfinished, FileOk, RangeOk;
  }

  lemma {:induction false} HopelessNeverPublishes(p: Plan, j: Job, es: seq<Event>)
    requires Inv(p, j) && !Hopeful(j) && Runs(p, j, es)
    ensures !After(p, j, es).published
    decreases es
  {
    if es != [] {
      hide Inv, Enabled, Apply;
      StepKeepsInv(p, j, es[0]);
      HopelessStays(p, j, es[0]);
      HopelessNeverPublishes(p, Apply(p, j, es[0]), es[1..]);
    }
  }

  /** In every reachable state - whatever was lost, failed or retried so far - the file
      can still be published if and only if the coordinator has not given up and, once
      it has stopped retrying, every range was completed. */
  lemma PublicationPossibleExactlyWhen(p: Plan, zeros: seq<byte>, es: seq<Event>)
    requires Reachable(p, zeros, es)
    ensures var j := After(p, Initial(p, zeros), es);
            Shape(p, j) && (CanPublish(p, j) <==> Hopeful(j))
  {
    InitialInv(p, zeros);
    RunKeepsInv(p, Initial(p, zeros), es);
    RunKeepsTracked(p, Initial(p, zeros), es);
    PossibleExactlyWhen(p, After(p, Initial(p, zeros), es));
  }

  lemma PossibleExactlyWhen(p: Plan, j: Job)
    requires Inv(p, j) && Tracked(j)
    ensures CanPublish(p, j) <==> Hopeful(j)
  {
    InvShape(p, j);
    hide Inv, Tracked, Shape, PlanOk;
    if Hopeful(j) {
      if j.published {
        assert Runs(p, j, []) && After(p, j, []) == j;
      } else if j.phase.Submitting? {
        SubmittingPublishes(p, j);
      } else if j.phase.Finishing? {
        FinishingPublishes(p, j);
      } else {
        WorkingPublishes(p, j);
      }
    } else {
      forall es | Runs(p, j, es) ensures !After(p, j, es).published {
        HopelessNeverPublishes(p, j, es);
      }
    }
  }
}
