/** The watcher's work is bounded by its events and never stuck. */
module ReloadProgress {
  import opened Values
  import opened Reloads

  // ----- bounded work -----

  function Rank(d: Drain): nat {
    match d
    case Scheduled => 1
    case Returned => 1
    case InHook => 2
    case Opened(_) => 3
    case Opening => 4
    case Waiting => 5
  }

  /** The drain steps still owed for what has happened so far. */
  function Owed(s: System): nat {
    (if s.reader.pending then 5 else 0) + if s.drains == [] then 0 else Rank(s.drains[0])
  }

  function DrainSteps(run: seq<Action>): nat {
    if run == [] then 0 else (if IsDrainAction(run[0]) then 1 else 0) + DrainSteps(run[1..])
  }

  function Events(run: seq<Action>): nat {
    if run == [] then 0 else (if run[0].Event? then 1 else 0) + Events(run[1..])
  }

  lemma OpenResumedRank(s: System)
    requires Enabled(s, OpenResumed)
    ensures Step(s, OpenResumed).drains != [] && Rank(Step(s, OpenResumed).drains[0]) <= 2
  {
  }

  lemma OwedStep(s: System, a: Action)
    requires FlagsAgree(s) && Enabled(s, a)
    ensures IsDrainAction(a) ==> Owed(Step(s, a)) < Owed(s)
    ensures a.Event? ==> Owed(Step(s, a)) <= Owed(s) + 6
    ensures !IsDrainAction(a) && !a.Event? ==> Owed(Step(s, a)) <= Owed(s)
  {
    if !IsDrainAction(a) {
      OuterActions(s, a);
    } else if !a.DrainTurn? && !a.WaitRejected? {
      AttemptActions(s, a);
      if a.OpenResumed? {
        OpenResumedRank(s);
      }
    }
  }

  lemma {:induction false} OwedBoundsSteps(s: System, run: seq<Action>)
    requires FlagsAgree(s) && Possible(s, run)
    ensures DrainSteps(run) + Owed(After(s, run)) <= Owed(s) + 6 * Events(run)
    decreases |run|
  {
    if run != [] {
      OwedStep(s, run[0]);
      FlagsStep(s, run[0]);
      OwedBoundsSteps(Step(s, run[0]), run[1..]);
    }
  }

  /** In every interleaving the watcher takes at most six steps per event, whatever else goes on: with
      finitely many events it stops. */
  lemma DrainWorkIsBounded(hook: bool, version: nat, run: seq<Action>)
    requires Possible(Start(hook, version), run)
    ensures DrainSteps(run) <= 6 * Events(run)
  {
    OwedBoundsSteps(Start(hook, version), run);
  }

  /** A step the drain can take, when one is active. */
  function NextDrainAction(s: System): (a: Action)
    requires s.drains != []
    ensures Enabled(s, a) && IsDrainAction(a)
  {
    match s.drains[0]
    case Scheduled => DrainTurn
    case Returned => DrainTurn
    case Waiting => WaitResumed(true)
    case Opening => WorkerRead(true)
    case Opened(_) => OpenResumed
    case InHook => HookDone(false)
  }

  /** An active drain can always go on, and left to itself becomes idle within the steps owed. */
  lemma {:induction false} ActiveDrainFinishes(s: System) returns (run: seq<Action>)
    requires FlagsAgree(s)
    ensures Possible(s, run) && DrainSteps(run) == |run| <= Owed(s)
    ensures FlagsAgree(After(s, run)) && !After(s, run).reader.active && !After(s, run).reader.pending
    decreases Owed(s)
  {
    if s.drains == [] {
      run := [];
    } else {
      var a := NextDrainAction(s);
      OwedStep(s, a);
      FlagsStep(s, a);
      var rest := ActiveDrainFinishes(Step(s, a));
      run := [a] + rest;
      assert run[1..] == rest;
    }
  }
}
