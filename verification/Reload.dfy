// Re-reading a data set on a worker thread: one screen thread, its workers, and the database.
module Reload {
  import opened Common

  datatype Config = Config(hasProbe: bool, fast: real, slow: real, after: real)

  // A finished read: the generation it was started for, whether the load succeeded, and what it saw:
  // the version of the database and the moment of the load.
  datatype Outcome = Outcome(generation: nat, ok: bool, version: nat, loadedAt: nat)

  // The fields of a BackgroundReload. A thread is named by the number of threads started before it.
  datatype Fields = Fields(
    forced: bool, seen: Option<nat>, rebase: bool, nextProbe: real,
    generation: nat, result: Option<Outcome>, done: bool, thread: Option<nat>)

  const NEW: Fields := Fields(true, None, false, 0.0, 0, None, false, None)

  function Later(a: real, b: real): real {
    if a < b then b else a
  }

  function ProbeInterval(c: Config, now: real, lastInput: Option<real>): real {
    if lastInput.Some? && now - lastInput.value >= c.after then c.slow else c.fast
  }

  // ----- What each locked region or method does to the fields -----

  function Requested(f: Fields): Fields {
    f.(forced := true)
  }

  function Invalidated(f: Fields): Fields {
    f.(generation := f.generation + 1, result := None, forced := true)
  }

  // Taking a finished read; `reading` is the probe's answer, used only to set a missing baseline.
  function Taken(c: Config, f: Fields, now: real, reading: Option<nat>): Fields
    requires f.result.Some?
  {
    var ok := f.result.value.ok;
    var rebased := f.rebase && c.hasProbe;
    f.(result := None,
       rebase := f.rebase && !rebased,
       nextProbe := if ok then f.nextProbe else Later(f.nextProbe, now + c.slow),
       seen := if !ok then None else if rebased then reading else f.seen)
  }

  predicate Probes(c: Config, f: Fields, now: real) {
    c.hasProbe && (f.forced || now >= f.nextProbe)
  }

  predicate Due(c: Config, f: Fields, now: real, reading: Option<nat>) {
    f.forced || (Probes(c, f, now) && (reading == None || reading != f.seen))
  }

  function NextProbe(c: Config, f: Fields, now: real, lastInput: Option<real>, reading: Option<nat>): real {
    if !Probes(c, f, now) then f.nextProbe
    else if reading == None then now + c.slow
    else now + ProbeInterval(c, now, lastInput)
  }

  // The rest of a poll that found no result and no read running. A due read starts thread `next`, and what
  // the probe said just before becomes the baseline for the next comparison.
  function Decided(c: Config, f: Fields, now: real, lastInput: Option<real>, reading: Option<nat>, next: nat): Fields {
    var polled := f.(nextProbe := NextProbe(c, f, now, lastInput, reading));
    var baseline := if Probes(c, f, now) then reading else None;
    if !Due(c, f, now, reading) then polled
    else polled.(forced := false, seen := baseline, rebase := c.hasProbe && baseline == None,
                 thread := Some(next), done := false)
  }

  function Published(f: Fields, outcome: Outcome): Fields {
    if outcome.generation == f.generation then f.(result := Some(outcome)) else f
  }

  class BackgroundReload {
    const config: Config
    var forced: bool
    var seen: Option<nat>
    var rebase: bool
    var nextProbe: real
    var generation: nat
    var result: Option<Outcome>
    var done: bool
    var thread: Option<nat>

    function View(): Fields
      reads this
    {
      Fields(forced, seen, rebase, nextProbe, generation, result, done, thread)
    }

    constructor (config: Config)
      ensures this.config == config && View() == NEW
    {
      this.config := config;
      forced, seen, rebase, nextProbe := true, None, false, 0.0;
      generation, result, done, thread := 0, None, false, None;
    }

    method Request()
      modifies this
      ensures View() == Requested(old(View())) == old(View()).(forced := true)
    {
      forced := true;
    }

    method Invalidate()
      modifies this
      ensures View() == Invalidated(old(View()))
      ensures View() == old(View()).(generation := old(generation) + 1, result := None, forced := true)
    {
      generation := generation + 1;
      result := None;
      forced := true;
    }

    // The first half of a poll: the exchange under the lock, and what a finished read changes.
    method Take(now: real, reading: Option<nat>) returns (finished: Option<Outcome>)
      modifies this
      ensures finished == old(result)
      ensures View() == if finished.Some? then Taken(config, old(View()), now, reading) else old(View())
      ensures result == None && (forced, generation, done, thread) == old((forced, generation, done, thread))
      ensures rebase <==> old(rebase) && (finished.Some? ==> !config.hasProbe)
      ensures nextProbe == if finished.None? || finished.value.ok || now + config.slow <= old(nextProbe) then old(nextProbe)
                           else now + config.slow
      ensures seen == if finished.Some? && !finished.value.ok then None
                      else if finished.Some? && old(rebase) && config.hasProbe then reading
                      else old(seen)
    {
      finished := result;
      result := None;
      if finished.Some? {
        if rebase && config.hasProbe {
          seen, rebase := reading, false;
        }
        if !finished.value.ok {
          nextProbe := Later(nextProbe, now + config.slow);
          seen := None;
        }
      }
    }

    method Running(alive: bool) returns (running: bool)
      ensures running <==> thread.Some? && alive && !done
    {
      running := thread.Some? && alive && !done;
    }

    // The second half of a poll.
    method Decide(now: real, lastInput: Option<real>, reading: Option<nat>, next: nat) returns (started: bool)
      modifies this
      ensures started <==> Due(config, old(View()), now, reading)
      ensures View() == Decided(config, old(View()), now, lastInput, reading, next)
      ensures started <==>
        old(forced) || (config.hasProbe && now >= old(nextProbe) && (reading == None || reading != old(seen)))
      ensures nextProbe ==
        if !config.hasProbe || (!old(forced) && now < old(nextProbe)) then old(nextProbe)
        else if reading == None || (lastInput.Some? && now - lastInput.value >= config.after) then now + config.slow
        else now + config.fast
      ensures !forced && result == old(result) && generation == old(generation)
      ensures started ==>
        && seen == (if config.hasProbe then reading else None) && (rebase <==> config.hasProbe && reading == None)
        && thread == Some(next) && !done
      ensures !started ==> (seen, rebase, thread, done) == old((seen, rebase, thread, done))
    {
      var due := forced;
      var baseline := None;
      if config.hasProbe && (due || now >= nextProbe) {
        baseline := reading;
        nextProbe := now + if baseline.Some? then ProbeInterval(config, now, lastInput) else config.slow;
        due := due || baseline == None || baseline != seen;
      }
      if !due {
        return false;
      }
      forced := false;
      seen, rebase := baseline, config.hasProbe && baseline == None;
      done := false;
      thread := Some(next);
      return true;
    }

    // The worker's exchange under the lock.
    method Publish(outcome: Outcome)
      modifies this
      ensures View() == Published(old(View()), outcome)
      ensures View() == if outcome.generation == old(generation) then old(View()).(result := Some(outcome)) else old(View())
    {
      if outcome.generation == generation {
        result := Some(outcome);
      }
    }

    method SetDone()
      modifies this
      ensures View() == old(View()).(done := true)
    {
      done := true;
    }

    // A poll that nothing interrupts. `alive` tells whether the last thread is running still; `atTake` and
    // `atDecide` are the probe's answers, should it be asked.
    method Poll(now: real, lastInput: Option<real>, hold: bool, alive: bool,
                atTake: Option<nat>, atDecide: Option<nat>, next: nat)
      returns (finished: Option<Outcome>, started: bool)
      modifies this
      ensures finished == if hold then None else old(result)
      ensures started <==> !hold && old(result) == None && !old(thread.Some? && alive && !done)
                           && Due(config, old(View()), now, atDecide)
      ensures View() ==
        if finished.Some? then Taken(config, old(View()), now, atTake)
        else if hold || old(thread.Some? && alive && !done) then old(View())
        else Decided(config, old(View()), now, lastInput, atDecide, next)
    {
      finished, started := None, false;
      if hold {
        return;
      }
      finished := Take(now, atTake);
      if finished == None {
        var running := Running(alive);
        if !running {
          started := Decide(now, lastInput, atDecide, next);
        }
      }
    }
  }

  // ----- Every interleaving -----

  // A worker between the start of its thread and `_done.set()`.
  datatype Worker = Loading(generation: nat) | Loaded(outcome: Outcome) | Finishing

  // The screen thread between polls, after it found no result, and after it found no read running.
  datatype Screen = AtRest | Took | Clear

  // The clock counts steps. `delivered` is the database version of the last good result the screen got;
  // `measured` says that `seen` was probed when the last read started.
  datatype State = State(
    f: Fields, screen: Screen, workers: map<nat, Worker>, started: nat, now: real, version: nat,
    clock: nat, invalidatedAt: nat, delivered: Option<nat>, measured: bool)

  datatype Action =
    | Request
    | Invalidate
    | Poll(now: real, reading: Option<nat>)
    | Check
    | Decide(lastInput: Option<real>, reading: Option<nat>)
    | Load(id: nat, ok: bool)
    | Publish(id: nat)
    | Finish(id: nat)
    | Commit

  const START: State := State(NEW, AtRest, map[], 0, 0.0, 0, 0, 0, None, true)

  // A probe fails or tells the current version.
  predicate Truthful(s: State, reading: Option<nat>) {
    reading == None || reading == Some(s.version)
  }

  predicate Enabled(s: State, a: Action) {
    match a
    case Request => s.screen == AtRest
    case Invalidate => s.screen == AtRest
    case Poll(now, reading) => s.screen == AtRest && now >= s.now && Truthful(s, reading)
    case Check => s.screen == Took
    case Decide(_, reading) => s.screen == Clear && Truthful(s, reading)
    case Load(id, _) => id in s.workers && s.workers[id].Loading?
    case Publish(id) => id in s.workers && s.workers[id].Loaded?
    case Finish(id) => id in s.workers && s.workers[id].Finishing?
    case Commit => true
  }

  predicate Running(s: State) {
    s.f.thread.Some? && s.f.thread.value in s.workers && !s.f.done
  }

  function Apply(c: Config, before: State, a: Action): State
    requires Enabled(before, a)
  {
    var s := before.(clock := before.clock + 1);
    match a
    case Request => s.(f := Requested(s.f))
    case Invalidate => s.(f := Invalidated(s.f), invalidatedAt := s.clock)
    case Poll(now, reading) =>
      if s.f.result == None then s.(screen := Took, now := now)
      else
        var o := s.f.result.value;
        s.(f := Taken(c, s.f, now, reading), now := now,
           delivered := if o.ok then Some(o.version) else s.delivered,
           measured := s.measured && !(s.f.rebase && c.hasProbe))
    case Check => s.(screen := if Running(s) then AtRest else Clear)
    case Decide(lastInput, reading) =>
      var next := s.(f := Decided(c, s.f, s.now, lastInput, reading, s.started), screen := AtRest);
      if !Due(c, s.f, s.now, reading) then next
      else next.(workers := s.workers[s.started := Loading(s.f.generation)], started := s.started + 1, measured := true)
    case Load(id, ok) =>
      s.(workers := s.workers[id := Loaded(Outcome(s.workers[id].generation, ok, s.version, s.clock))])
    case Publish(id) => s.(f := Published(s.f, s.workers[id].outcome), workers := s.workers[id := Finishing])
    case Finish(id) => s.(f := s.f.(done := true), workers := s.workers - {id})
    case Commit => s.(version := s.version + 1)
  }

  function RunFrom(c: Config, s: State, actions: seq<Action>): Option<State> {
    if actions == [] then Some(s)
    else
      var before, a := RunFrom(c, s, actions[..|actions| - 1]), actions[|actions| - 1];
      if before.Some? && Enabled(before.value, a) then Some(Apply(c, before.value, a)) else None
  }

  function Run(c: Config, actions: seq<Action>): Option<State> {
    RunFrom(c, START, actions)
  }

  // ----- What every step keeps -----

  // Only the last thread started is between its start and `_done.set()`.
  ghost predicate OneReader(s: State) {
    && (forall id :: id in s.workers ==> s.f.thread == Some(id) && !s.f.done)
    && (s.screen == Clear ==> forall id :: id !in s.workers)
  }

  predicate Current(s: State, o: Outcome) {
    && o.generation <= s.f.generation
    && o.version <= s.version
    && (o.generation == s.f.generation ==> o.loadedAt > s.invalidatedAt)
  }

  // Outcomes of the current generation were loaded after the last invalidation.
  ghost predicate NothingStale(s: State) {
    && s.invalidatedAt <= s.clock
    && (s.f.result.Some? ==> Current(s, s.f.result.value) && s.f.result.value.generation == s.f.generation)
    && (s.delivered.Some? ==> s.delivered.value <= s.version)
    && (forall id :: id in s.workers ==> CurrentWorker(s, s.workers[id]))
  }

  predicate CurrentWorker(s: State, worker: Worker) {
    && (worker.Loading? ==> worker.generation <= s.f.generation)
    && (worker.Loaded? ==> Current(s, worker.outcome))
  }

  // The last read started saw version `v` or a later one, or will, or another read is due.
  predicate Covered(s: State, v: nat) {
    || s.f.forced
    || (s.f.thread.Some? &&
        if s.f.thread.value in s.workers && s.workers[s.f.thread.value].Loading? then
          s.workers[s.f.thread.value].generation == s.f.generation
        else if s.f.thread.value in s.workers && s.workers[s.f.thread.value].Loaded? then
          var o := s.workers[s.f.thread.value].outcome;
          o.generation == s.f.generation && (o.ok ==> o.version >= v)
        else if s.f.result.Some? then s.f.result.value.ok ==> s.f.result.value.version >= v
        else s.delivered.Some? && s.delivered.value >= v)
  }

  predicate BaselineCovered(s: State) {
    s.measured && s.f.seen.Some? ==> s.f.seen.value <= s.version && Covered(s, s.f.seen.value)
  }

  lemma StepKeepsOneReader(c: Config, s: State, a: Action)
    requires Enabled(s, a) && OneReader(s)
    ensures OneReader(Apply(c, s, a))
  {
  }

  lemma ResultStaysCurrent(c: Config, s: State, a: Action)
    requires Enabled(s, a) && NothingStale(s)
    ensures var next := Apply(c, s, a);
      && next.invalidatedAt <= next.clock
      && (next.f.result.Some? ==>
            Current(next, next.f.result.value) && next.f.result.value.generation == next.f.generation)
      && (next.delivered.Some? ==> next.delivered.value <= next.version)
  {
    if a.Publish? {
      assert CurrentWorker(s, s.workers[a.id]);
    }
    hide Decided, NextProbe, Due, Probes;
    if a.Decide? {
      DecidedKeeps(c, s.f, s.now, a.lastInput, a.reading, s.started);
    }
  }

  lemma DecidedKeeps(c: Config, f: Fields, now: real, lastInput: Option<real>, reading: Option<nat>, next: nat)
    ensures var f' := Decided(c, f, now, lastInput, reading, next);
      f'.result == f.result && f'.generation == f.generation
  {
  }

  lemma TakenKeeps(c: Config, f: Fields, now: real, reading: Option<nat>)
    requires f.result.Some?
    ensures Taken(c, f, now, reading).generation == f.generation
  {
  }

  lemma WorkerStaysCurrent(c: Config, s: State, a: Action, id: nat)
    requires Enabled(s, a) && NothingStale(s) && id in Apply(c, s, a).workers
    ensures CurrentWorker(Apply(c, s, a), Apply(c, s, a).workers[id])
  {
    assert id in s.workers ==> CurrentWorker(s, s.workers[id]);
    assert s.invalidatedAt <= s.clock;
    hide NextProbe, Due, Probes, NothingStale, Decided, Taken;
    if a.Decide? {
      DecidedKeeps(c, s.f, s.now, a.lastInput, a.reading, s.started);
    }
    if a.Poll? && s.f.result.Some? {
      TakenKeeps(c, s.f, a.now, a.reading);
    }
  }

  lemma StepKeepsNothingStale(c: Config, s: State, a: Action)
    requires Enabled(s, a) && NothingStale(s)
    ensures NothingStale(Apply(c, s, a))
  {
    hide Apply, Enabled, Current, CurrentWorker;
    var next := Apply(c, s, a);
    ResultStaysCurrent(c, s, a);
    forall id | id in next.workers
      ensures CurrentWorker(next, next.workers[id])
    {
      WorkerStaysCurrent(c, s, a, id);
    }
  }

  lemma ScreenKeepsBaseline(c: Config, s: State, a: Action)
    requires Enabled(s, a) && OneReader(s) && NothingStale(s) && BaselineCovered(s)
    requires a.Request? || a.Invalidate? || a.Poll? || a.Check? || a.Decide?
    ensures BaselineCovered(Apply(c, s, a))
  {
    hide NextProbe, CurrentWorker;
  }

  lemma WorkerKeepsBaseline(c: Config, s: State, a: Action)
    requires Enabled(s, a) && OneReader(s) && NothingStale(s) && BaselineCovered(s)
    requires a.Load? || a.Publish? || a.Finish? || a.Commit?
    ensures BaselineCovered(Apply(c, s, a))
  {
    hide NextProbe, Decided, Taken;
  }

  lemma StepKeepsBaseline(c: Config, s: State, a: Action)
    requires Enabled(s, a) && OneReader(s) && NothingStale(s) && BaselineCovered(s)
    ensures BaselineCovered(Apply(c, s, a))
  {
    hide Enabled, Apply, OneReader, NothingStale, BaselineCovered;
    if a.Load? || a.Publish? || a.Finish? || a.Commit? {
      WorkerKeepsBaseline(c, s, a);
    } else {
      ScreenKeepsBaseline(c, s, a);
    }
  }

  lemma {:induction false} RunsKeep(c: Config, actions: seq<Action>, s: State)
    requires Run(c, actions) == Some(s)
    ensures OneReader(s) && NothingStale(s) && BaselineCovered(s)
  {
    hide OneReader, NothingStale, BaselineCovered, Apply, Enabled;
    if actions == [] {
      StartIsGood();
    } else {
      var before, a := Run(c, actions[..|actions| - 1]).value, actions[|actions| - 1];
      RunsKeep(c, actions[..|actions| - 1], before);
      StepKeepsOneReader(c, before, a);
      StepKeepsNothingStale(c, before, a);
      StepKeepsBaseline(c, before, a);
    }
  }

  lemma StartIsGood()
    ensures OneReader(START) && NothingStale(START) && BaselineCovered(START)
  {
  }

  // ----- What the screen can rely on -----

  // `running` tells exactly whether some load is between its start and its `_done.set()`.
  lemma RunningMeansReading(c: Config, actions: seq<Action>, s: State)
    requires Run(c, actions) == Some(s)
    ensures Running(s) <==> exists id :: id in s.workers
  {
    RunsKeep(c, actions, s);
  }

  // At most one load runs between a start and its `_done.set()`.
  lemma AtMostOneReader(c: Config, actions: seq<Action>, s: State, a: nat, b: nat)
    requires Run(c, actions) == Some(s) && a in s.workers && b in s.workers
    ensures a == b
  {
    RunsKeep(c, actions, s);
  }

  // Whatever a poll delivers was loaded after the last invalidation.
  lemma DeliveredIsFresh(c: Config, actions: seq<Action>, s: State)
    requires Run(c, actions) == Some(s) && s.f.result.Some?
    ensures s.f.result.value.loadedAt > s.invalidatedAt
  {
    RunsKeep(c, actions, s);
  }

  // When a decision past the probe interval, with a probe that succeeds, starts nothing while no result waits, the
  // screen holds the current version, provided the baseline was probed when the last read started.
  lemma QuietMeansCurrent(c: Config, actions: seq<Action>, s: State, lastInput: Option<real>)
    requires Run(c, actions) == Some(s) && s.screen == Clear && s.measured
    requires c.hasProbe && s.now >= s.f.nextProbe && s.f.result == None
    requires Apply(c, s, Decide(lastInput, Some(s.version))).started == s.started
    ensures s.delivered == Some(s.version)
  {
    RunsKeep(c, actions, s);
  }

  // ----- Exactly when a quiet screen can be stale -----

  // A decision with a due, successful probe would start nothing, no result waits, and the screen does not hold the
  // current version.
  predicate QuietAndStale(c: Config, s: State) {
    && s.screen == Clear && c.hasProbe && s.now >= s.f.nextProbe
    && Apply(c, s, Decide(None, Some(s.version))).started == s.started
    && s.f.result == None && s.delivered != Some(s.version)
  }

  // Without another read, these actions lead from `s` to a quiet and stale screen.
  ghost predicate GoesStale(c: Config, s: State, more: seq<Action>) {
    var end := RunFrom(c, s, more);
    end.Some? && end.value.started == s.started && QuietAndStale(c, end.value)
  }

  lemma {:induction false} RunGoesOn(c: Config, actions: seq<Action>, s: State, more: seq<Action>)
    requires Run(c, actions) == Some(s)
    ensures Run(c, actions + more) == RunFrom(c, s, more)
  {
    if more == [] {
      assert actions + more == actions;
    } else {
      assert (actions + more)[..|actions + more| - 1] == actions + more[..|more| - 1];
      RunGoesOn(c, actions, s, more[..|more| - 1]);
    }
  }

  // Once the baseline was measured at the start of a read, it stays so until another read.
  predicate Measured(c: Config, s: State) {
    s.measured && !(s.f.rebase && c.hasProbe)
  }

  lemma {:induction false} MeasuredStays(c: Config, s: State, more: seq<Action>, end: State)
    requires RunFrom(c, s, more) == Some(end) && Measured(c, s)
    ensures s.started <= end.started && (s.started == end.started ==> Measured(c, end))
  {
    if more != [] {
      var before, a := RunFrom(c, s, more[..|more| - 1]).value, more[|more| - 1];
      MeasuredStays(c, s, more[..|more| - 1], before);
      MeasuredStep(c, before, a);
    }
  }

  lemma MeasuredStep(c: Config, s: State, a: Action)
    requires Enabled(s, a)
    ensures s.started <= Apply(c, s, a).started
    ensures Measured(c, s) && Apply(c, s, a).started == s.started ==> Measured(c, Apply(c, s, a))
  {
  }

  // The read just started goes through, the database changes after its load, and the baseline taken with its
  // result hides the change.
  function MissTheChange(id: nat, now: real, version: nat): seq<Action> {
    [Load(id, true), Commit, Publish(id), Finish(id), Poll(now, Some(version + 1)), Poll(now, None), Check]
  }

  // Whenever a read is due on a screen with a probe, starting it can lead to a quiet and stale screen without
  // another read if and only if the probe of that start fails.
  lemma StaleIffStartProbeFails(c: Config, actions: seq<Action>, s: State, lastInput: Option<real>, reading: Option<nat>)
    requires Run(c, actions) == Some(s) && Enabled(s, Decide(lastInput, reading)) && c.hasProbe
    requires Apply(c, s, Decide(lastInput, reading)).started > s.started
    ensures (exists more :: GoesStale(c, Apply(c, s, Decide(lastInput, reading)), more)) <==> reading == None
  {
    var start := Decide(lastInput, reading);
    var s' := Apply(c, s, start);
    if reading == None {
      RunsKeep(c, actions, s);
      CanMiss(c, s, lastInput);
      assert GoesStale(c, s', MissTheChange(s.started, Later(s.now, s'.f.nextProbe), s.version));
    } else {
      assert (actions + [start])[..|actions|] == actions;
      assert Run(c, actions + [start]) == Some(s');
      forall more
        ensures !GoesStale(c, s', more)
      {
        if GoesStale(c, s', more) {
          var end := RunFrom(c, s', more).value;
          MeasuredStays(c, s', more, end);
          RunGoesOn(c, actions + [start], s', more);
          QuietMeansCurrent(c, actions + [start] + more, end, None);
        }
      }
    }
  }

  lemma CanMiss(c: Config, s: State, lastInput: Option<real>)
    requires s.screen == Clear && c.hasProbe && OneReader(s) && Due(c, s.f, s.now, None)
    ensures var s' := Apply(c, s, Decide(lastInput, None));
      GoesStale(c, s', MissTheChange(s.started, Later(s.now, s'.f.nextProbe), s.version))
  {
    StartsBlind(c, s, lastInput);
    var s' := Apply(c, s, Decide(lastInput, None));
    hide *;
    var now := Later(s.now, s'.f.nextProbe);
    var more := MissTheChange(s.started, now, s.version);
    MissedActions(s.started, now, s.version);
    LoadThenCommit(c, s', s.started, more);
    PublishAndFinish(c, s', s.started, more);
    TakeAndCheck(c, s', more);
  }

  lemma MissedActions(id: nat, now: real, version: nat)
    ensures var more := MissTheChange(id, now, version);
      && |more| == 7 && more[..7] == more
      && more[0] == Load(id, true) && more[1] == Commit && more[2] == Publish(id) && more[3] == Finish(id)
      && more[4] == Poll(now, Some(version + 1)) && more[5] == Poll(now, None) && more[6] == Check
  {
  }

  // A read started after a failed probe: no baseline, and one to be set with the result.
  lemma StartsBlind(c: Config, s: State, lastInput: Option<real>)
    requires s.screen == Clear && c.hasProbe && OneReader(s) && Due(c, s.f, s.now, None)
    ensures var s' := Apply(c, s, Decide(lastInput, None));
      && s'.workers == map[s.started := Loading(s'.f.generation)]
      && s'.f.rebase && !s'.f.forced && s'.screen == AtRest && s'.version == s.version && s'.now == s.now
  {
    assert s.workers == map[];
  }

  lemma TakeAndCheck(c: Config, s: State, more: seq<Action>)
    requires c.hasProbe && s.f.rebase && !s.f.forced && s.screen == AtRest
    requires var now := Later(s.now, s.f.nextProbe);
      |more| == 7 && more[4] == Poll(now, Some(s.version + 1)) && more[5] == Poll(now, None) && more[6] == Check
    requires RunFrom(c, s, more[..4])
          == Some(s.(f := s.f.(result := Some(Old(s)), done := true), workers := map[], version := s.version + 1,
                     clock := s.clock + 4))
    ensures GoesStale(c, s, more)
  {
    hide RunFrom;
    FromNext(c, s, more, 4);
    FromNext(c, s, more, 5);
    FromNext(c, s, more, 6);
    assert more[..7] == more;
  }

  // What the read of version `version` publishes.
  function Old(s: State): Outcome {
    Outcome(s.f.generation, true, s.version, s.clock + 1)
  }

  lemma LoadThenCommit(c: Config, s: State, id: nat, more: seq<Action>)
    requires s.workers == map[id := Loading(s.f.generation)]
    requires |more| == 7 && more[0] == Load(id, true) && more[1] == Commit
    ensures RunFrom(c, s, more[..2])
         == Some(s.(workers := map[id := Loaded(Old(s))], version := s.version + 1, clock := s.clock + 2))
  {
    hide RunFrom;
    FromNothing(c, s);
    FromNext(c, s, more, 0);
    FromNext(c, s, more, 1);
    assert more[..0] == [];
    assert s.workers[id := Loaded(Old(s))] == map[id := Loaded(Old(s))];
  }

  lemma PublishAndFinish(c: Config, s: State, id: nat, more: seq<Action>)
    requires |more| == 7 && more[2] == Publish(id) && more[3] == Finish(id)
    requires RunFrom(c, s, more[..2])
          == Some(s.(workers := map[id := Loaded(Old(s))], version := s.version + 1, clock := s.clock + 2))
    ensures RunFrom(c, s, more[..4])
         == Some(s.(f := s.f.(result := Some(Old(s)), done := true), workers := map[], version := s.version + 1,
                    clock := s.clock + 4))
  {
    hide RunFrom;
    FromNext(c, s, more, 2);
    FromNext(c, s, more, 3);
  }

  lemma FromNothing(c: Config, s: State)
    ensures RunFrom(c, s, []) == Some(s)
  {
  }

  lemma FromNext(c: Config, s: State, actions: seq<Action>, n: nat)
    requires n < |actions|
    ensures RunFrom(c, s, actions[..n + 1]) ==
      if RunFrom(c, s, actions[..n]).Some? && Enabled(RunFrom(c, s, actions[..n]).value, actions[n])
      then Some(Apply(c, RunFrom(c, s, actions[..n]).value, actions[n])) else None
  {
    assert actions[..n + 1][..n] == actions[..n];
  }

  // ----- A failed read is read again -----

  // No baseline, and none about to be set: any probe will find a difference.
  predicate Owed(c: Config, s: State) {
    s.f.seen == None && !(s.f.rebase && c.hasProbe)
  }

  function Longest(c: Config): real {
    Later(c.fast, c.slow)
  }

  predicate ProbeIsNear(c: Config, s: State) {
    s.f.nextProbe <= s.now + Longest(c)
  }

  lemma {:induction false} NextProbeIsNear(c: Config, actions: seq<Action>, s: State)
    requires Run(c, actions) == Some(s) && c.fast >= 0.0
    ensures ProbeIsNear(c, s)
  {
    if actions != [] {
      var before, a := Run(c, actions[..|actions| - 1]).value, actions[|actions| - 1];
      NextProbeIsNear(c, actions[..|actions| - 1], before);
      StepKeepsProbeNear(c, before, a);
    }
  }

  lemma StepKeepsProbeNear(c: Config, s: State, a: Action)
    requires Enabled(s, a) && ProbeIsNear(c, s) && c.fast >= 0.0
    ensures ProbeIsNear(c, Apply(c, s, a))
  {
  }

  predicate Fails(s: State, a: Action) {
    Enabled(s, a) && a.Poll? && s.f.result.Some? && !s.f.result.value.ok
  }

  ghost predicate StartsWhateverTheProbe(c: Config, s: State) {
    s.screen == Clear && c.hasProbe && s.now >= s.f.nextProbe ==>
      && (forall lastInput :: Apply(c, s, Decide(lastInput, None)).started == s.started + 1)
      && (forall lastInput :: Apply(c, s, Decide(lastInput, Some(s.version))).started == s.started + 1)
  }

  // From the poll that delivers a failure until another read starts, a read is owed: with a probe, the first
  // poll that reaches its decision once the probe interval is over starts one, whatever the probe says; and
  // that is never further than the longest interval from the last poll.
  lemma {:induction false} FailureIsRetried(c: Config, actions: seq<Action>, failed: nat, s: State)
    requires Run(c, actions) == Some(s) && failed < |actions| && c.fast >= 0.0
    requires Run(c, actions[..failed]).Some? && Fails(Run(c, actions[..failed]).value, actions[failed])
    requires s.started == Run(c, actions[..failed]).value.started
    ensures Owed(c, s)
    ensures StartsWhateverTheProbe(c, s)
    ensures s.f.nextProbe <= s.now + Longest(c)
    decreases |actions|
  {
    NextProbeIsNear(c, actions, s);
    var n := |actions| - 1;
    var before := Run(c, actions[..n]).value;
    OwedIsDue(c, s);
    hide Apply, Enabled, Fails, Owed, Due, Probes, StartsWhateverTheProbe;
    if failed < n {
      assert actions[..n][..failed] == actions[..failed];
      StartsGrow(c, actions[..n], failed, before);
      MeasuredStep(c, before, actions[n]);
      FailureIsRetried(c, actions[..n], failed, before);
      OwedUntilStart(c, before, actions[n]);
    } else {
      FailureOwes(c, before, actions[n]);
    }
  }

  lemma OwedIsDue(c: Config, s: State)
    ensures Owed(c, s) ==> StartsWhateverTheProbe(c, s)
  {
  }

  lemma FailureOwes(c: Config, s: State, a: Action)
    requires Fails(s, a)
    ensures Enabled(s, a) && Owed(c, Apply(c, s, a))
  {
  }

  lemma OwedUntilStart(c: Config, s: State, a: Action)
    requires Enabled(s, a) && Owed(c, s) && Apply(c, s, a).started == s.started
    ensures Owed(c, Apply(c, s, a))
  {
  }

  lemma {:induction false} StartsGrow(c: Config, actions: seq<Action>, n: nat, s: State)
    requires Run(c, actions) == Some(s) && n <= |actions|
    ensures Run(c, actions[..n]).Some? && Run(c, actions[..n]).value.started <= s.started
  {
    if n == |actions| {
      assert actions[..n] == actions;
    } else {
      assert actions[..|actions| - 1][..n] == actions[..n];
      StartsGrow(c, actions[..|actions| - 1], n, Run(c, actions[..|actions| - 1]).value);
    }
  }

  // Without a probe nothing retries: once no read is requested, none starts until one is.
  lemma {:induction false} NoProbeNoRetry(c: Config, actions: seq<Action>, from: nat, s: State)
    requires Run(c, actions) == Some(s) && from <= |actions| && !c.hasProbe
    requires Run(c, actions[..from]).Some? && !Run(c, actions[..from]).value.f.forced
    requires forall i :: from <= i < |actions| ==> !actions[i].Request? && !actions[i].Invalidate?
    ensures s.started == Run(c, actions[..from]).value.started && !s.f.forced
  {
    if from == |actions| {
      assert actions[..from] == actions;
    } else {
      var before, a := Run(c, actions[..|actions| - 1]).value, actions[|actions| - 1];
      assert actions[..|actions| - 1][..from] == actions[..from];
      hide Apply, Enabled;
      NoProbeNoRetry(c, actions[..|actions| - 1], from, before);
      NoProbeStep(c, before, a);
    }
  }

  lemma NoProbeStep(c: Config, s: State, a: Action)
    requires Enabled(s, a) && !c.hasProbe && !s.f.forced && !a.Request? && !a.Invalidate?
    ensures Apply(c, s, a).started == s.started && !Apply(c, s, a).f.forced
  {
  }

  // ----- One request, one read -----

  // What may make another read due: a request, an invalidation, a new version, a probe that fails, a failed read.
  predicate Causes(c: Config, s: State, a: Action) {
    match a
    case Request => true
    case Invalidate => true
    case Commit => true
    case Decide(_, reading) => c.hasProbe && reading == None && (s.f.forced || s.now >= s.f.nextProbe)
    case Poll(_, _) => s.f.result.Some? && !s.f.result.value.ok
    case _ => false
  }

  predicate CauseAt(c: Config, s: State, actions: seq<Action>, n: nat)
    requires n < |actions|
  {
    var before := RunFrom(c, s, actions[..n]);
    before.Some? && Causes(c, before.value, actions[n])
  }

  // No read was requested, and any probe will find the baseline.
  predicate Satisfied(c: Config, s: State) {
    !s.f.forced && (c.hasProbe ==> s.f.seen == Some(s.version) && !s.f.rebase)
  }

  lemma SatisfiedStays(c: Config, s: State, a: Action)
    requires Enabled(s, a) && Satisfied(c, s) && !Causes(c, s, a)
    ensures Satisfied(c, Apply(c, s, a)) && Apply(c, s, a).started == s.started
  {
    hide NextProbe;
  }

  lemma StartSatisfies(c: Config, s: State, lastInput: Option<real>, reading: Option<nat>)
    requires Enabled(s, Decide(lastInput, reading)) && (c.hasProbe ==> reading.Some?)
    requires Apply(c, s, Decide(lastInput, reading)).started > s.started
    ensures Satisfied(c, Apply(c, s, Decide(lastInput, reading)))
  {
    hide NextProbe;
  }

  lemma {:induction false} SatisfiedRun(c: Config, s: State, more: seq<Action>, end: State)
    requires RunFrom(c, s, more) == Some(end) && Satisfied(c, s)
    requires forall n :: 0 <= n < |more| ==> !CauseAt(c, s, more, n)
    ensures end.started == s.started && Satisfied(c, end)
  {
    if more != [] {
      var n := |more| - 1;
      var before := RunFrom(c, s, more[..n]).value;
      forall m | 0 <= m < n
        ensures !CauseAt(c, s, more[..n], m)
      {
        assert more[..n][..m] == more[..m];
        assert !CauseAt(c, s, more, m);
      }
      SatisfiedRun(c, s, more[..n], before);
      assert !CauseAt(c, s, more, n);
      SatisfiedStays(c, before, more[n]);
    }
  }

  // A read that starts with a successful probe uses up whatever asked for it: as long as nothing of the kind happens
  // again, no continuation starts another.
  lemma StartIsEnough(c: Config, s: State, lastInput: Option<real>, reading: Option<nat>, more: seq<Action>, end: State)
    requires Enabled(s, Decide(lastInput, reading)) && (c.hasProbe ==> reading.Some?)
    requires Apply(c, s, Decide(lastInput, reading)).started > s.started
    requires RunFrom(c, Apply(c, s, Decide(lastInput, reading)), more) == Some(end)
    requires forall n :: 0 <= n < |more| ==> !CauseAt(c, Apply(c, s, Decide(lastInput, reading)), more, n)
    ensures end.started == s.started + 1
  {
    StartSatisfies(c, s, lastInput, reading);
    SatisfiedRun(c, Apply(c, s, Decide(lastInput, reading)), more, end);
  }

  predicate StartsAt(c: Config, actions: seq<Action>, n: nat)
    requires n < |actions|
  {
    var before, after := Run(c, actions[..n]), Run(c, actions[..n + 1]);
    before.Some? && after.Some? && after.value.started > before.value.started
  }

  // Of two starts in a run, one of them saw its probe fail or something between them asked for the second.
  lemma StartsHaveCauses(c: Config, actions: seq<Action>, i: nat, j: nat)
    requires i < j < |actions| && StartsAt(c, actions, i) && StartsAt(c, actions, j)
    ensures exists n :: i <= n <= j && CauseAt(c, START, actions, n)
  {
    hide Apply, Enabled, Satisfied, Causes;
    FromNext(c, START, actions, i);
    var first, start := Run(c, actions[..i]).value, actions[i];
    OnlyDecisionsStart(c, first, start);
    if !CauseAt(c, START, actions, i) {
      var after, more := Apply(c, first, start), actions[i + 1..j + 1];
      StartSatisfies(c, first, start.lastInput, start.reading);
      assert actions[..j + 1] == actions[..i + 1] + more;
      RunGoesOn(c, actions[..i + 1], after, more);
      var end := RunFrom(c, after, more).value;
      if forall n :: 0 <= n < |more| ==> !CauseAt(c, after, more, n) {
        SatisfiedRun(c, after, more, end);
        StartedGrows(c, actions, i + 1, j);
        assert false;
      }
      var n :| 0 <= n < |more| && CauseAt(c, after, more, n);
      assert actions[..i + 1 + n] == actions[..i + 1] + more[..n];
      RunGoesOn(c, actions[..i + 1], after, more[..n]);
      assert CauseAt(c, START, actions, i + 1 + n);
    }
  }

  lemma StartedGrows(c: Config, actions: seq<Action>, i: nat, j: nat)
    requires i <= j < |actions| && Run(c, actions[..j]).Some?
    ensures Run(c, actions[..i]).Some? && Run(c, actions[..i]).value.started <= Run(c, actions[..j]).value.started
  {
    assert actions[..j][..i] == actions[..i];
    StartsGrow(c, actions[..j], i, Run(c, actions[..j]).value);
  }

  lemma OnlyDecisionsStart(c: Config, s: State, a: Action)
    requires Enabled(s, a) && Apply(c, s, a).started > s.started
    ensures a.Decide? && (!Causes(c, s, a) ==> c.hasProbe ==> a.reading.Some?)
  {
  }

  // A new object, and one that was asked for a read or invalidated, starts one at its next decision.
  lemma {:induction false} RequestIsServed(c: Config, actions: seq<Action>, from: nat, s: State)
    requires Run(c, actions) == Some(s) && from <= |actions|
    requires from > 0 ==> actions[from - 1].Request? || actions[from - 1].Invalidate?
    requires Run(c, actions[..from]).Some? && s.started == Run(c, actions[..from]).value.started
    ensures s.f.forced
    ensures forall lastInput, reading :: Enabled(s, Decide(lastInput, reading)) ==>
      Apply(c, s, Decide(lastInput, reading)).started == s.started + 1
    decreases |actions|
  {
    if from == |actions| {
      assert actions[..from] == actions;
      if from > 0 {
        FromNext(c, START, actions, from - 1);
      }
    } else {
      var n := |actions| - 1;
      var before := Run(c, actions[..n]).value;
      assert actions[..n][..from] == actions[..from];
      StartsGrow(c, actions[..n], from, before);
      MeasuredStep(c, before, actions[n]);
      RequestIsServed(c, actions[..n], from, before);
      ForcedUntilStart(c, before, actions[n]);
    }
  }

  lemma ForcedUntilStart(c: Config, s: State, a: Action)
    requires Enabled(s, a) && s.f.forced && Apply(c, s, a).started == s.started
    ensures Apply(c, s, a).f.forced
  {
  }
}
