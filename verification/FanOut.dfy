/** Bounded fan-out (`coverage.Check`): one goroutine per name, a semaphore of six, a wait
    group and one result slot per name, as interleaved atomic steps. What a scan of a name
    returns is fixed; in which order the goroutines run is not. */
module FanOut {
  import opened Wrappers

  const PERMITS := 6

  datatype Outcome = Served(subject: string, sha: string) | Unreachable(error: string)

  datatype Covered = Covered(name: string, status: string, detail: string, subject: string, sha: string)

  /** The certificate checked and the network it is checked against. */
  datatype Job = Job(names: seq<string>, sha: string, scan: string -> Outcome)

  predicate IsWildcard(name: string) { "*." <= name }

  function Expected(job: Job, name: string): Covered {
    if IsWildcard(name) then Covered(name, "wildcard", "not a hostname — nothing to connect to", "", "")
    else match job.scan(name)
      case Unreachable(error) => Covered(name, "unreachable", error, "", "")
      case Served(subject, sha) => Covered(name, if sha == job.sha then "match" else "different", "", subject, sha)
  }

  /** What a finished check says of a name: nothing is connected to for a wildcard; a name is
      matched exactly when the certificate served there is the one checked, different when
      another is, unreachable when none is; and what was served is reported with it. */
  predicate Tells(job: Job, name: string, c: Covered) {
    && c.name == name
    && (c.status == "wildcard" <==> "*." <= name)
    && (c.status == "match" <==> !("*." <= name) && job.scan(name).Served? && job.scan(name).sha == job.sha)
    && (c.status == "different" <==> !("*." <= name) && job.scan(name).Served? && job.scan(name).sha != job.sha)
    && (c.status == "unreachable" <==> !("*." <= name) && job.scan(name).Unreachable?)
    && c.detail == (if c.status == "wildcard" then "not a hostname — nothing to connect to"
                    else if c.status == "unreachable" then job.scan(name).error else "")
    && (if c.status == "match" || c.status == "different"
        then job.scan(name) == Served(c.subject, c.sha)
        else c.subject == "" && c.sha == "")
  }

  lemma {:induction false} ExpectedTells(job: Job, name: string)
    ensures Tells(job, name, Expected(job, name))
  {
    assert "wildcard"[0] == 'w' && "match"[0] == 'm' && "different"[0] == 'd' && "unreachable"[0] == 'u';
  }

  /** Where the work on one name stands. */
  datatype Stage = Waiting | Skipped | Spawned | Scanning | Written | Released | Finished

  datatype State = State(next: nat, stages: seq<Stage>, slots: seq<Option<Covered>>, writes: seq<nat>, permits: int,
      group: int, returned: bool)

  datatype Action = LoopOn | Return | Acquire(i: nat) | Write(i: nat) | Release(i: nat) | Done(i: nat)

  function Begin(job: Job): State {
    var n := |job.names|;
    State(0, seq(n, _ => Waiting), seq(n, _ => None), seq(n, _ => 0), 0, 0, false)
  }

  predicate Enabled(job: Job, s: State, a: Action) {
    match a
    case LoopOn => s.next < |job.names|
    case Return => s.next == |job.names| && s.group == 0 && !s.returned
    case Acquire(i) => i < |s.stages| && s.stages[i] == Spawned && s.permits < PERMITS
    case Write(i) => i < |s.stages| && s.stages[i] == Scanning
    case Release(i) => i < |s.stages| && s.stages[i] == Written
    case Done(i) => i < |s.stages| && s.stages[i] == Released
  }

  predicate Shaped(job: Job, s: State) { |s.stages| == |s.slots| == |s.writes| == |job.names| }

  function Stored(job: Job, s: State, i: nat): State
    requires Shaped(job, s) && i < |job.names|
  {
    s.(slots := s.slots[i := Some(Expected(job, job.names[i]))], writes := s.writes[i := s.writes[i] + 1])
  }

  function At(s: State, i: nat, stage: Stage): State
    requires i < |s.stages|
  {
    s.(stages := s.stages[i := stage])
  }

  function Step(job: Job, s: State, a: Action): State
    requires Shaped(job, s) && Enabled(job, s, a)
  {
    match a
    case LoopOn =>
      if IsWildcard(job.names[s.next]) then At(Stored(job, s, s.next), s.next, Skipped).(next := s.next + 1)
      else At(s, s.next, Spawned).(group := s.group + 1, next := s.next + 1)
    case Return => s.(returned := true)
    case Acquire(i) => At(s, i, Scanning).(permits := s.permits + 1)
    case Write(i) => At(Stored(job, s, i), i, Written)
    case Release(i) => At(s, i, Released).(permits := s.permits - 1)
    case Done(i) => At(s, i, Finished).(group := s.group - 1)
  }

  // ----- counting -----

  function Holds(stage: Stage): nat { if stage == Scanning || stage == Written then 1 else 0 }

  function Running(stage: Stage): nat {
    if stage == Spawned || stage == Scanning || stage == Written || stage == Released then 1 else 0
  }

  function InFlight(stage: Stage): nat { if stage == Scanning then 1 else 0 }

  /** Steps still ahead of one name. */
  function Ahead(stage: Stage): nat {
    match stage
    case Waiting => 5
    case Spawned => 4
    case Scanning => 3
    case Written => 2
    case Released => 1
    case _ => 0
  }

  function Total(stages: seq<Stage>, weight: Stage -> nat): nat {
    if stages == [] then 0 else Total(stages[..|stages| - 1], weight) + weight(stages[|stages| - 1])
  }

  lemma {:induction false} TotalUpdate(stages: seq<Stage>, weight: Stage -> nat, i: nat, stage: Stage)
    requires i < |stages|
    ensures Total(stages[i := stage], weight) == Total(stages, weight) - weight(stages[i]) + weight(stage)
  {
    var n := |stages| - 1;
    if i == n {
      assert stages[i := stage][..n] == stages[..n];
    } else {
      TotalUpdate(stages[..n], weight, i, stage);
      assert stages[i := stage][..n] == stages[..n][i := stage];
    }
  }

  lemma {:induction false} TotalAtLeast(stages: seq<Stage>, weight: Stage -> nat, i: nat)
    requires i < |stages|
    ensures weight(stages[i]) <= Total(stages, weight)
  {
    if i >= |stages| - 1 {
    } else {
      TotalAtLeast(stages[..|stages| - 1], weight, i);
    }
  }

  lemma {:induction false} TotalOrdered(stages: seq<Stage>, light: Stage -> nat, heavy: Stage -> nat)
    requires forall stage :: light(stage) <= heavy(stage)
    ensures Total(stages, light) <= Total(stages, heavy)
  {
    if stages == [] {
    } else {
      TotalOrdered(stages[..|stages| - 1], light, heavy);
    }
  }

  lemma {:induction false} TotalConstant(n: nat, stage: Stage, weight: Stage -> nat)
    ensures Total(seq(n, _ => stage), weight) == n * weight(stage)
  {
    if n == 0 {
    } else {
      TotalConstant(n - 1, stage, weight);
      assert seq(n, _ => stage)[..n - 1] == seq(n - 1, _ => stage);
    }
  }

  // ----- what every interleaving keeps -----

  predicate SlotOk(job: Job, s: State, i: nat)
    requires Shaped(job, s) && i < |job.names|
  {
    && (i >= s.next <==> s.stages[i] == Waiting)
    && (s.stages[i] == Skipped <==> i < s.next && IsWildcard(job.names[i]))
    && (if s.stages[i] == Waiting || s.stages[i] == Spawned || s.stages[i] == Scanning
        then s.slots[i] == None && s.writes[i] == 0
        else s.slots[i] == Some(Expected(job, job.names[i])) && s.writes[i] == 1)
  }

  predicate Inv(job: Job, s: State) {
    && Shaped(job, s) && s.next <= |job.names|
    && s.permits == Total(s.stages, Holds) <= PERMITS
    && s.group == Total(s.stages, Running)
    && (s.returned ==> s.next == |job.names| && s.group == 0)
    && forall i :: 0 <= i < |job.names| ==> SlotOk(job, s, i)
  }

  lemma {:induction false} BeginOk(job: Job)
    ensures Inv(job, Begin(job))
  {
    TotalConstant(|job.names|, Waiting, Holds);
    TotalConstant(|job.names|, Waiting, Running);
  }

  function Index(s: State, a: Action): nat { if a == LoopOn then s.next else if a == Return then 0 else a.i }

  /** A step leaves the slots of all other names alone. */
  lemma {:induction false} OtherSlotKept(job: Job, s: State, a: Action, k: nat)
    requires Shaped(job, s) && Enabled(job, s, a) && k < |job.names| && SlotOk(job, s, k)
    requires a == Return || k != Index(s, a)
    ensures SlotOk(job, Step(job, s, a), k)
  {
  }

  lemma {:induction false} OwnSlotMoves(job: Job, s: State, a: Action)
    requires Shaped(job, s) && Enabled(job, s, a) && a != Return && SlotOk(job, s, Index(s, a))
    ensures SlotOk(job, Step(job, s, a), Index(s, a))
  {
    var stage := s.stages[Index(s, a)];
    assert stage == match a
      case LoopOn => Waiting
      case Acquire(_) => Spawned
      case Write(_) => Scanning
      case Release(_) => Written
      case _ => Released;
  }

  /** The permits taken move with the one stage that changes, */
  lemma {:induction false} StepPermits(job: Job, s: State, a: Action)
    requires Shaped(job, s) && Enabled(job, s, a) && a != Return && SlotOk(job, s, Index(s, a))
    requires s.permits == Total(s.stages, Holds) <= PERMITS
    ensures Step(job, s, a).permits == Total(Step(job, s, a).stages, Holds) <= PERMITS
  {
    TotalUpdate(s.stages, Holds, Index(s, a), Step(job, s, a).stages[Index(s, a)]);
  }

  /** and so does the wait group. */
  lemma {:induction false} StepGroup(job: Job, s: State, a: Action)
    requires Shaped(job, s) && Enabled(job, s, a) && a != Return && SlotOk(job, s, Index(s, a))
    requires s.group == Total(s.stages, Running)
    ensures Step(job, s, a).group == Total(Step(job, s, a).stages, Running)
  {
    TotalUpdate(s.stages, Running, Index(s, a), Step(job, s, a).stages[Index(s, a)]);
  }

  lemma {:induction false} StepOk(job: Job, s: State, a: Action)
    requires Inv(job, s) && Enabled(job, s, a)
    ensures Inv(job, Step(job, s, a))
  {
    if a == Return {
      forall k: nat | k < |job.names| ensures SlotOk(job, Step(job, s, a), k) { OtherSlotKept(job, s, a, k); }
    } else {
      var i := Index(s, a);
      assert SlotOk(job, s, i);
      StepPermits(job, s, a);
      StepGroup(job, s, a);
      TotalAtLeast(s.stages, Running, i);
      forall k: nat | k < |job.names| ensures SlotOk(job, Step(job, s, a), k) {
        if k == i { OwnSlotMoves(job, s, a); } else { OtherSlotKept(job, s, a, k); }
      }
    }
  }

  /** Until `Check` returns some step can be taken, whatever the interleaving so far. */
  lemma {:induction false} NeverStuck(job: Job, s: State)
    requires Inv(job, s) && !s.returned
    ensures exists a :: Enabled(job, s, a)
  {
    if s.next < |job.names| {
      assert Enabled(job, s, LoopOn);
    } else if s.group == 0 {
      assert Enabled(job, s, Return);
    } else {
      var i := SomeWith(s.stages, Running);
      if s.stages[i] == Spawned && s.permits == PERMITS {
        var j := SomeWith(s.stages, Holds);
        assert Enabled(job, s, if s.stages[j] == Scanning then Write(j) else Release(j));
      } else {
        var next := match s.stages[i]
          case Spawned => Acquire(i)
          case Scanning => Write(i)
          case Written => Release(i)
          case _ => Done(i);
        assert Enabled(job, s, next);
      }
    }
  }

  lemma {:induction false} SomeWith(stages: seq<Stage>, weight: Stage -> nat) returns (i: nat)
    requires Total(stages, weight) > 0
    ensures i < |stages| && weight(stages[i]) > 0
  {
    var n := |stages| - 1;
    if weight(stages[n]) > 0 { i := n; } else { i := SomeWith(stages[..n], weight); }
  }

  /** How many steps a state can still take. */
  function Remaining(s: State): nat { Total(s.stages, Ahead) + if s.returned then 0 else 1 }

  lemma {:induction false} StepShortens(job: Job, s: State, a: Action)
    requires Inv(job, s) && Enabled(job, s, a)
    ensures Remaining(Step(job, s, a)) < Remaining(s)
  {
    if a != Return {
      var i := Index(s, a);
      assert SlotOk(job, s, i);
      TotalUpdate(s.stages, Ahead, i, Step(job, s, a).stages[i]);
    }
  }

  /** A schedule: any sequence of steps each enabled when taken. */
  predicate Schedule(job: Job, s: State, acts: seq<Action>)
    requires Shaped(job, s)
    decreases |acts|
  {
    acts == [] || (Enabled(job, s, acts[0]) && Schedule(job, Step(job, s, acts[0]), acts[1..]))
  }

  function Run(job: Job, s: State, acts: seq<Action>): State
    requires Shaped(job, s) && Schedule(job, s, acts)
    decreases |acts|
  {
    if acts == [] then s else Run(job, Step(job, s, acts[0]), acts[1..])
  }

  lemma {:induction false} RunOk(job: Job, s: State, acts: seq<Action>)
    requires Inv(job, s) && Schedule(job, s, acts)
    ensures Inv(job, Run(job, s, acts)) && Remaining(Run(job, s, acts)) + |acts| <= Remaining(s)
    decreases |acts|
  {
    if acts == [] {
    } else {
      StepOk(job, s, acts[0]);
      StepShortens(job, s, acts[0]);
      RunOk(job, Step(job, s, acts[0]), acts[1..]);
    }
  }

  /** In every interleaving at most six scans are in flight, no more than five steps are
      taken per name and one to return, and some step is enabled until `Check` returns. */
  lemma {:induction false} BoundedAndLive(job: Job, acts: seq<Action>)
    requires Schedule(job, Begin(job), acts)
    ensures var s := Run(job, Begin(job), acts);
            && Total(s.stages, InFlight) <= PERMITS
            && |acts| <= 5 * |job.names| + 1
            && (s.returned || exists a :: Enabled(job, s, a))
  {
    var s := Run(job, Begin(job), acts);
    BeginOk(job);
    RunOk(job, Begin(job), acts);
    TotalConstant(|job.names|, Waiting, Ahead);
    TotalOrdered(s.stages, InFlight, Holds);
    if !s.returned { NeverStuck(job, s); }
  }

  /** On return every slot has been written exactly once, for its own name, with a result
      that the schedule had no part in. */
  lemma {:induction false} ReturnsExpected(job: Job, acts: seq<Action>, i: nat)
    requires Schedule(job, Begin(job), acts) && Run(job, Begin(job), acts).returned && i < |job.names|
    ensures var s := Run(job, Begin(job), acts);
            |s.slots| == |s.writes| == |job.names| && s.writes[i] == 1
                && s.slots[i] == Some(Expected(job, job.names[i]))
  {
    var s := Run(job, Begin(job), acts);
    BeginOk(job);
    RunOk(job, Begin(job), acts);
    assert SlotOk(job, s, i);
    TotalAtLeast(s.stages, Running, i);
  }

  /** The check under an arbitrary scheduler: it ends, and its answer is the expected one. */
  method Check(job: Job, scheduler: State -> Action) returns (out: seq<Option<Covered>>)
    requires forall s :: Inv(job, s) && !s.returned ==> Enabled(job, s, scheduler(s))
    ensures |out| == |job.names| && forall i :: 0 <= i < |out| ==> out[i] == Some(Expected(job, job.names[i]))
    ensures forall i :: 0 <= i < |out| ==> out[i].Some? && Tells(job, job.names[i], out[i].value)
  {
    var s := Begin(job);
    BeginOk(job);
    while !s.returned
      invariant Inv(job, s)
      decreases Remaining(s)
    {
      StepOk(job, s, scheduler(s));
      StepShortens(job, s, scheduler(s));
      s := Step(job, s, scheduler(s));
    }
    forall i | 0 <= i < |job.names| ensures s.slots[i] == Some(Expected(job, job.names[i])) {
      assert SlotOk(job, s, i);
      TotalAtLeast(s.stages, Running, i);
    }
    out := s.slots;
    forall i | 0 <= i < |out| ensures Tells(job, job.names[i], out[i].value) { ExpectedTells(job, job.names[i]); }
  }
}
