/**
 Library initialisation as a state machine: any number of threads run it, one atomic step of one thread at a time.
 The shared state goes from 0 (untouched) to 1 (being initialised) to 2 (initialised).
 */
module InitProtocol {
  import opened MachineInts

  /** Where a thread is: before its first load, before its compare-and-swap, in the three steps of the winner, or spinning. */
  datatype Thread = Enter | Swap | Detect | Publish(found: uint32) | Finish | Spin | Returned

  /** The two shared variables, the threads, and the results of all detections run so far. */
  datatype Config = Config(state: int, features: uint32, threads: seq<Thread>, detected: seq<uint32>)

  predicate Initial(c: Config) {
    c.state == 0 && c.features == 0 && c.detected == [] && forall i :: 0 <= i < |c.threads| ==> c.threads[i] == Enter
  }

  /** Thread i makes one step; value is what detection finds if that is the step. */
  function Next(c: Config, i: nat, value: uint32): Config
    requires i < |c.threads|
  {
    match c.threads[i]
    case Enter => c.(threads := c.threads[i := if c.state == 2 then Returned else Swap])
    case Swap =>
      if c.state == 0 then c.(state := 1, threads := c.threads[i := Detect])
      else c.(threads := c.threads[i := Spin])
    case Detect => c.(threads := c.threads[i := Publish(value)], detected := c.detected + [value])
    case Publish(found) => c.(features := found, threads := c.threads[i := Finish])
    case Finish => c.(state := 2, threads := c.threads[i := Returned])
    case Spin => if c.state == 2 then c.(threads := c.threads[i := Returned]) else c
    case Returned => c
  }

  ghost predicate Step(c: Config, d: Config) {
    exists i: nat, value: uint32 :: i < |c.threads| && d == Next(c, i, value)
  }

  /** Any interleaving, of any length. */
  ghost predicate Run(run: seq<Config>) {
    |run| > 0 && Initial(run[0]) && forall k :: 0 <= k < |run| - 1 ==> Step(run[k], run[k + 1])
  }

  // ---------- What every step keeps ----------

  predicate InSection(t: Thread) {
    t.Detect? || t.Publish? || t.Finish?
  }

  ghost predicate AtMostOne(c: Config) {
    forall i, j :: 0 <= i < |c.threads| && 0 <= j < |c.threads| && InSection(c.threads[i]) && InSection(c.threads[j]) ==> i == j
  }

  /** Which threads can be where in each of the three states. */
  ghost predicate Consistent(c: Config) {
    && 0 <= c.state <= 2
    && (c.state == 0 ==> c.detected == [] && forall i :: 0 <= i < |c.threads| ==> c.threads[i].Enter? || c.threads[i].Swap?)
    && (c.state == 1 ==>
          && (exists i :: 0 <= i < |c.threads| && InSection(c.threads[i]))
          && forall i :: 0 <= i < |c.threads| ==> !c.threads[i].Returned? && Progress(c, c.threads[i]))
    && (c.state == 2 ==> c.detected == [c.features] && forall i :: 0 <= i < |c.threads| ==> !InSection(c.threads[i]))
  }

  /** How far the winner has come. */
  predicate Progress(c: Config, t: Thread) {
    match t
    case Detect => c.detected == []
    case Publish(found) => c.detected == [found]
    case Finish => c.detected == [c.features]
    case _ => true
  }

  lemma InvariantInitial(c: Config)
    requires Initial(c)
    ensures AtMostOne(c) && Consistent(c)
  {}

  lemma InvariantNext(c: Config, i: nat, value: uint32)
    requires AtMostOne(c) && Consistent(c) && i < |c.threads|
    ensures AtMostOne(Next(c, i, value)) && Consistent(Next(c, i, value))
  {
    if InSection(c.threads[i]) {
      SectionNext(c, i, value);
    } else {
      OutsideNext(c, i, value);
    }
  }

  /** A step of the thread that initialises; the state is 1. */
  lemma SectionNext(c: Config, i: nat, value: uint32)
    requires AtMostOne(c) && Consistent(c) && i < |c.threads| && InSection(c.threads[i])
    ensures AtMostOne(Next(c, i, value)) && Consistent(Next(c, i, value))
  {
    assert c.state == 1;
    var d := Next(c, i, value);
    assert InSection(d.threads[i]) || d.state == 2;
    assert forall j :: 0 <= j < |c.threads| && j != i ==> d.threads[j] == c.threads[j] && !InSection(c.threads[j]);
  }

  /** A step of any other thread. */
  lemma OutsideNext(c: Config, i: nat, value: uint32)
    requires AtMostOne(c) && Consistent(c) && i < |c.threads| && !InSection(c.threads[i])
    ensures AtMostOne(Next(c, i, value)) && Consistent(Next(c, i, value))
  {
    var d := Next(c, i, value);
    assert forall j :: 0 <= j < |c.threads| && j != i ==> d.threads[j] == c.threads[j];
    if c.state == 1 {
      var w :| 0 <= w < |c.threads| && InSection(c.threads[w]);
      assert InSection(d.threads[w]);
    } else if d.state == 1 {
      assert InSection(d.threads[i]);
    }
  }

  lemma {:induction false} InvariantHolds(run: seq<Config>, k: nat)
    requires Run(run) && k < |run|
    ensures AtMostOne(run[k]) && Consistent(run[k])
  {
    hide AtMostOne, Consistent, Next, Initial;
    if k == 0 {
      InvariantInitial(run[0]);
    } else {
      InvariantHolds(run, k - 1);
      assert Step(run[k - 1], run[k]);
      var i: nat, value: uint32 :| i < |run[k - 1].threads| && run[k] == Next(run[k - 1], i, value);
      InvariantNext(run[k - 1], i, value);
    }
  }

  // ---------- Safety over whole runs ----------

  /** Detection runs at most once, and at most one thread is between winning and publishing the state. */
  lemma DetectionAtMostOnce(run: seq<Config>, k: nat)
    requires Run(run) && k < |run|
    ensures |run[k].detected| <= 1
    ensures AtMostOne(run[k])
  {
    InvariantHolds(run, k);
  }

  /** Once the state is 2, neither variable changes again. */
  predicate Later(c: Config, d: Config) {
    && |d.threads| == |c.threads| && c.state <= d.state
    && (c.state == 2 ==> d.state == 2 && d.features == c.features && d.detected == c.detected)
    && (forall i :: 0 <= i < |c.threads| && c.threads[i].Returned? ==> d.threads[i].Returned?)
  }

  lemma LaterNext(c: Config, i: nat, value: uint32)
    requires AtMostOne(c) && Consistent(c) && i < |c.threads|
    ensures Later(c, Next(c, i, value)) && Next(c, i, value).state <= c.state + 1
  {}

  lemma {:induction false} LaterHolds(run: seq<Config>, j: nat, k: nat)
    requires Run(run) && j <= k < |run|
    ensures Later(run[j], run[k])
    decreases k
  {
    hide AtMostOne, Consistent, Next, Initial;
    if j < k {
      LaterHolds(run, j, k - 1);
      InvariantHolds(run, k - 1);
      assert Step(run[k - 1], run[k]);
      var i: nat, value: uint32 :| i < |run[k - 1].threads| && run[k] == Next(run[k - 1], i, value);
      LaterNext(run[k - 1], i, value);
    }
  }

  /** The state moves one at a time and never back. */
  lemma StateMoves(run: seq<Config>, k: nat)
    requires Run(run) && k + 1 < |run|
    ensures 0 <= run[k].state <= run[k + 1].state <= run[k].state + 1 <= 3 && run[k + 1].state <= 2
  {
    hide AtMostOne, Next, Initial;
    InvariantHolds(run, k);
    InvariantHolds(run, k + 1);
    assert Step(run[k], run[k + 1]);
    var i: nat, value: uint32 :| i < |run[k].threads| && run[k + 1] == Next(run[k], i, value);
    LaterNext(run[k], i, value);
  }

  /**
   What a thread can rely on after its call returned: initialisation is complete, and whatever it reads then or later is
   the result of the one detection.
   */
  lemma ReturnedSeesFeatures(run: seq<Config>, j: nat, k: nat, i: nat)
    requires Run(run) && j <= k < |run| && i < |run[j].threads| && run[j].threads[i].Returned?
    ensures run[j].state == 2 && run[k].state == 2
    ensures run[k].features == run[j].features && run[k].detected == [run[j].features]
  {
    InvariantHolds(run, j);
    InvariantHolds(run, k);
    LaterHolds(run, j, k);
  }

  /** A result of detection stays. */
  lemma {:induction false} DetectedStays(run: seq<Config>, j: nat, k: nat)
    requires Run(run) && j <= k < |run| && run[j].detected != []
    ensures run[k].detected == run[j].detected
    decreases k
  {
    hide AtMostOne, Consistent, Initial;
    if j < k {
      DetectedStays(run, j, k - 1);
      DetectionAtMostOnce(run, k);
      assert Step(run[k - 1], run[k]);
      var i: nat, value: uint32 :| i < |run[k - 1].threads| && run[k] == Next(run[k - 1], i, value);
      hide Step, Run;
      assert run[k].detected == run[k - 1].detected || run[k].detected == run[k - 1].detected + [value];
    }
  }

  /** What the one detection found is what every configuration with state 2 has as features. */
  lemma DetectedIsPublished(run: seq<Config>, j: nat, k: nat, i: nat, value: uint32)
    requires Run(run) && j < k < |run| && i < |run[j].threads| && run[j].threads[i].Detect? && run[j + 1] == Next(run[j], i, value)
    requires run[k].state == 2
    ensures run[k].features == value && run[k].detected == [value]
  {
    hide AtMostOne, Initial;
    InvariantHolds(run, j);
    InvariantHolds(run, k);
    assert InSection(run[j].threads[i]) && run[j].detected == [];
    assert run[j + 1].detected == [value];
    DetectedStays(run, j + 1, k);
    assert run[k].detected == [run[k].features];
  }

  // ---------- Progress ----------

  /** Once the state is 2 every spinning thread leaves at its next load, and every entering one too. */
  lemma SpinnersLeave(run: seq<Config>, j: nat, k: nat, i: nat, value: uint32)
    requires Run(run) && j <= k < |run| && run[j].state == 2 && i < |run[k].threads|
    requires run[k].threads[i].Spin? || run[k].threads[i].Enter?
    ensures Next(run[k], i, value).threads[i].Returned?
  {
    InvariantHolds(run, k);
    LaterHolds(run, j, k);
  }

  /** The steps a thread has left, not counting loads that find initialisation still running. */
  function Left(t: Thread): nat {
    match t
    case Enter => 5
    case Swap => 4
    case Detect => 3
    case Publish(_) => 2
    case Finish => 1
    case Spin => 1
    case Returned => 0
  }

  function Measure(threads: seq<Thread>): nat {
    if threads == [] then 0 else Left(threads[0]) + Measure(threads[1..])
  }

  lemma {:induction false} MeasureUpdate(threads: seq<Thread>, i: nat, t: Thread)
    requires i < |threads|
    ensures Measure(threads[i := t]) == Measure(threads) - Left(threads[i]) + Left(t)
  {
    if i == 0 {
      assert threads[0 := t][1..] == threads[1..];
    } else {
      assert threads[i := t][1..] == threads[1..][i - 1 := t];
      MeasureUpdate(threads[1..], i - 1, t);
    }
  }

  /** A thread that is waiting: it loads a state other than 2 in the spin loop, or has nothing left to do. */
  predicate Waits(c: Config, i: nat)
    requires i < |c.threads|
  {
    c.threads[i].Returned? || (c.threads[i].Spin? && c.state != 2)
  }

  /** Every other step uses up the measure, so a run of n threads has at most 5 n of them. */
  lemma StepsAreBounded(c: Config, i: nat, value: uint32)
    requires i < |c.threads|
    ensures Waits(c, i) ==> Next(c, i, value) == c
    ensures !Waits(c, i) ==> Measure(Next(c, i, value).threads) < Measure(c.threads)
  {
    if !Waits(c, i) {
      MeasureUpdate(c.threads, i, Next(c, i, value).threads[i]);
      assert Next(c, i, value).threads == c.threads[i := Next(c, i, value).threads[i]];
    }
  }

  lemma {:induction false} MeasureInitial(threads: seq<Thread>)
    requires forall i :: 0 <= i < |threads| ==> threads[i] == Enter
    ensures Measure(threads) == 5 * |threads|
  {
    if threads != [] {
      MeasureInitial(threads[1..]);
    }
  }

  /** The number of configurations of a run that differ from the one before. */
  function Changes(run: seq<Config>): nat {
    if |run| <= 1 then 0 else Changes(run[..|run| - 1]) + if run[|run| - 1] == run[|run| - 2] then 0 else 1
  }

  lemma {:induction false} ChangesBounded(run: seq<Config>)
    requires Run(run)
    ensures |run[|run| - 1].threads| == |run[0].threads|
    ensures Changes(run) + Measure(run[|run| - 1].threads) <= 5 * |run[0].threads|
    decreases |run|
  {
    var n := |run| - 1;
    if n == 0 {
      MeasureInitial(run[0].threads);
    } else {
      var before := run[..n];
      forall k | 0 <= k < |before| - 1
        ensures Step(before[k], before[k + 1])
      {
        assert Step(run[k], run[k + 1]);
      }
      ChangesBounded(before);
      assert Step(run[n - 1], run[n]);
      var i: nat, value: uint32 :| i < |run[n - 1].threads| && run[n] == Next(run[n - 1], i, value);
      StepsAreBounded(run[n - 1], i, value);
    }
  }

  /** No deadlock: unless all calls have returned, some thread can make a step that is not waiting. */
  lemma NeverStuck(run: seq<Config>, k: nat)
    requires Run(run) && k < |run|
    ensures (forall i :: 0 <= i < |run[k].threads| ==> run[k].threads[i].Returned?)
         || (exists i :: 0 <= i < |run[k].threads| && !Waits(run[k], i))
  {
    InvariantHolds(run, k);
    var c := run[k];
    if c.state == 1 {
      var w :| 0 <= w < |c.threads| && InSection(c.threads[w]);
      assert !Waits(c, w);
    } else if i :| 0 <= i < |c.threads| && !c.threads[i].Returned? {
      assert !Waits(c, i);
    }
  }
}
