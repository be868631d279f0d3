// One writer per mission: the registry, one session's use of it, and any number of sessions interleaved.
module Writer {
  import opened Common

  type Mission = string
  type SessionId = string

  // ----- The registry -----

  function Holder(writers: map<Mission, SessionId>, mission: Mission): Option<SessionId> {
    if mission in writers then Some(writers[mission]) else None
  }

  predicate MayAcquire(writers: map<Mission, SessionId>, mission: Mission, id: SessionId) {
    Holder(writers, mission) == None || Holder(writers, mission) == Some(id)
  }

  function Acquired(writers: map<Mission, SessionId>, mission: Mission, id: SessionId): map<Mission, SessionId> {
    if MayAcquire(writers, mission, id) then writers[mission := id] else writers
  }

  function Released(writers: map<Mission, SessionId>, mission: Mission, id: SessionId): map<Mission, SessionId> {
    if Holder(writers, mission) == Some(id) then writers - {mission} else writers
  }

  class WriterRegistry {
    var writers: map<Mission, SessionId>

    constructor ()
      ensures writers == map[]
    {
      writers := map[];
    }

    method Acquire(mission: Mission, id: SessionId) returns (granted: bool)
      modifies this
      ensures granted <==> mission !in old(writers) || old(writers)[mission] == id
      ensures writers == if granted then old(writers)[mission := id] else old(writers)
      ensures granted <==> MayAcquire(old(writers), mission, id)
      ensures granted <==> Holder(writers, mission) == Some(id)
      ensures writers == Acquired(old(writers), mission, id)
    {
      if mission !in writers || writers[mission] == id {
        writers := writers[mission := id];
        return true;
      }
      return false;
    }

    method Release(mission: Mission, id: SessionId)
      modifies this
      ensures writers ==
        if mission in old(writers) && old(writers)[mission] == id then old(writers) - {mission} else old(writers)
      ensures writers == Released(old(writers), mission, id)
      ensures Holder(writers, mission) != Some(id)
    {
      if mission in writers && writers[mission] == id {
        writers := writers - {mission};
      }
    }

    method CurrentHolder(mission: Mission) returns (holder: Option<SessionId>)
      ensures holder == Holder(writers, mission)
      ensures if mission in writers then holder == Some(writers[mission]) else holder == None
    {
      holder := if mission in writers then Some(writers[mission]) else None;
    }
  }

  // ----- One session -----

  datatype Mode = View | Write
  datatype Reason = Empty | ReadOnlyWorker | LocalTerminal | OtherSession
  datatype ScreenSize = ScreenSize(columns: int, rows: int)

  const UNKNOWN: ScreenSize := ScreenSize(0, 0)
  const MAX_INPUT: nat := 64 * 1024

  // A frame from the peer, after JSON and base64 decoding; anything else is Other.
  datatype ClientFrame = Input(data: seq<byte>) | Resize(columns: int, rows: int) | Other

  // The role report sent to the peer, and whether the screen was redrawn after it.
  datatype Report = Report(mode: Mode, reason: Reason, size: ScreenSize, redrawn: bool)

  // What a role refresh decides, given whether a local terminal is attached.
  function RoleMode(wantsWrite: bool, local: bool, granted: bool): Mode {
    if wantsWrite && !local && granted then Write else View
  }

  function RoleReason(wantsWrite: bool, local: bool, granted: bool, before: Reason): Reason {
    if !wantsWrite then before else if local then LocalTerminal else if granted then Empty else OtherSession
  }

  function RoleWriters(wantsWrite: bool, local: bool, writers: map<Mission, SessionId>, mission: Mission, id: SessionId)
      : map<Mission, SessionId> {
    if !wantsWrite then writers else if local then Released(writers, mission, id) else Acquired(writers, mission, id)
  }

  class TerminalSession {
    const id: SessionId
    const mission: Mission
    const wantsWrite: bool
    const registry: WriterRegistry
    var mode: Mode
    var reason: Reason
    var size: ScreenSize
    var inputBytes: nat
    var inputFrames: nat

    // In write mode the session holds its mission's role.
    predicate Valid()
      reads this, registry
    {
      && (mode == Write ==> Holder(registry.writers, mission) == Some(id))
      && (mode == Write ==> wantsWrite)
    }

    constructor (id: SessionId, mission: Mission, requestsWrite: bool, allowWrite: bool, registry: WriterRegistry)
      ensures Valid() && mode == View && size == UNKNOWN && inputBytes == inputFrames == 0
      ensures this.id == id && this.mission == mission && this.registry == registry
      ensures wantsWrite == (requestsWrite && allowWrite)
      ensures reason == if requestsWrite && !allowWrite then ReadOnlyWorker else Empty
    {
      this.id, this.mission, this.registry := id, mission, registry;
      wantsWrite := requestsWrite && allowWrite;
      mode, size := View, UNKNOWN;
      reason := if requestsWrite && !allowWrite then ReadOnlyWorker else Empty;
      inputBytes, inputFrames := 0, 0;
    }

    // Mode, reason, size and registry after a role refresh from an earlier mode, reason and registry.
    ghost predicate Refreshed(local: bool, newSize: ScreenSize, before: Reason, writers: map<Mission, SessionId>)
      reads this, registry
    {
      var granted := MayAcquire(writers, mission, id);
      && mode == RoleMode(wantsWrite, local, granted)
      && reason == RoleReason(wantsWrite, local, granted, before)
      && size == newSize
      && registry.writers == RoleWriters(wantsWrite, local, writers, mission, id)
    }

    // Grant or drop the role; report only what changed.
    method RefreshRole(local: bool, newSize: ScreenSize) returns (report: Option<Report>)
      requires Valid()
      modifies registry, this`mode, this`reason, this`size
      ensures Valid() && Refreshed(local, newSize, old(reason), old(registry.writers))
      ensures wantsWrite ==> (mode == Write <==> Holder(registry.writers, mission) == Some(id))
      ensures mode == Write <==>
        wantsWrite && !local && (mission !in old(registry.writers) || old(registry.writers)[mission] == id)
      ensures reason == if !wantsWrite then old(reason) else if local then LocalTerminal
                        else if mode == Write then Empty else OtherSession
      ensures size == newSize
      ensures registry.writers ==
        if mode == Write then old(registry.writers)[mission := id]
        else if wantsWrite && local && mission in old(registry.writers) && old(registry.writers)[mission] == id
        then old(registry.writers) - {mission}
        else old(registry.writers)
      ensures report == if (mode, reason, size) == old((mode, reason, size)) then None
                        else Some(Report(mode, reason, size, old(size) != UNKNOWN && newSize != old(size)))
    {
      var newMode, newReason := View, if !wantsWrite then reason else Empty;
      if wantsWrite {
        if local {
          registry.Release(mission, id);
          newReason := LocalTerminal;
        } else {
          var granted := registry.Acquire(mission, id);
          if granted {
            newMode := Write;
          } else {
            newReason := OtherSession;
          }
        }
      }
      report := None;
      if (newMode, newReason, newSize) != (mode, reason, size) {
        var redrawn := size != UNKNOWN && newSize != size;
        mode, reason, size := newMode, newReason, newSize;
        report := Some(Report(mode, reason, size, redrawn));
      }
    }

    // `local` answers the check made for this frame, `again` and `newSize` the role refresh that may follow.
    method HandleFrame(frame: ClientFrame, local: bool, again: bool, newSize: ScreenSize)
      returns (sent: Option<seq<byte>>, resized: bool, refreshed: bool)
      requires Valid()
      modifies registry, this
      ensures Valid()
      ensures sent == if frame.Input? && old(mode) == Write && 0 < |frame.data| <= MAX_INPUT && !local
                      then Some(frame.data) else None
      ensures resized <==> frame.Resize? && old(mode) == Write && !local
                           && 1 <= frame.columns <= 1000 && 1 <= frame.rows <= 1000
      ensures refreshed <==> resized || (frame.Input? && old(mode) == Write && 0 < |frame.data| <= MAX_INPUT && local)
      ensures sent.Some? || resized ==> old(Holder(registry.writers, mission)) == Some(id)
      ensures inputBytes == old(inputBytes) + if sent.Some? then |sent.value| else 0
      ensures inputFrames == old(inputFrames) + if sent.Some? then 1 else 0
      ensures !refreshed ==> registry.writers == old(registry.writers) && (mode, reason, size) == old((mode, reason, size))
      ensures refreshed ==>
        && old(mission in registry.writers && registry.writers[mission] == id)
        && size == newSize && mode == (if again then View else Write) && reason == (if again then LocalTerminal else Empty)
        && registry.writers == if again then old(registry.writers) - {mission} else old(registry.writers)
    {
      sent, resized, refreshed := None, false, false;
      if frame.Input? && mode == Write {
        if 0 < |frame.data| <= MAX_INPUT {
          if local {
            var _ := RefreshRole(again, newSize);
            refreshed := true;
            return;
          }
          sent := Some(frame.data);
          inputBytes := inputBytes + |frame.data|;
          inputFrames := inputFrames + 1;
        }
      } else if frame.Resize? && mode == Write {
        if 1 <= frame.columns <= 1000 && 1 <= frame.rows <= 1000 {
          if !local {
            resized := true;
            var _ := RefreshRole(again, newSize);
            refreshed := true;
          }
        }
      }
    }
  }

  // ----- Any number of sessions, statement by statement -----

  // Where a session stands. `Sizing` carries the mode just decided; `mode` itself changes only once the
  // size is known, so a session may still be in write mode after it gave the role up.
  datatype Phase =
    | Checking                 // in _refresh_role, about to ask for local clients
    | Releasing | Acquiring    // about to call the registry
    | Sizing(next: Mode)       // about to ask for the screen size
    | Reporting                // about to send what changed
    | Looping
    | CheckingInput | Typing | CheckingResize | Resizing
    | Ending                   // in the finally clause
    | Done

  datatype Session = Session(mission: Mission, wantsWrite: bool, mode: Mode, phase: Phase)

  datatype Step =
    | LocalClients(local: bool)
    | CallRelease | CallAcquire
    | LearnSize | SendReport
    | ReceiveInput | ReceiveResize | RoleDue
    | SendInput | ResizeScreen
    | Leave                    // an exception anywhere in the try block, or the end of the loop
    | FinalRelease

  datatype World = World(writers: map<Mission, SessionId>, sessions: map<SessionId, Session>)

  const EMPTY: World := World(map[], map[])

  // A session begins under a new id, or takes one statement.
  datatype Action = Begin(id: SessionId, mission: Mission, wantsWrite: bool) | Do(id: SessionId, step: Step)

  function Refreshing(wantsWrite: bool): Phase {
    if wantsWrite then Checking else Sizing(View)
  }

  predicate CanDo(session: Session, step: Step) {
    match step
    case LocalClients(_) => session.phase in {Checking, CheckingInput, CheckingResize}
    case CallRelease => session.phase == Releasing
    case CallAcquire => session.phase == Acquiring
    case LearnSize => session.phase.Sizing?
    case SendReport => session.phase == Reporting
    case ReceiveInput => session.phase == Looping && session.mode == Write
    case ReceiveResize => session.phase == Looping && session.mode == Write
    case RoleDue => session.phase == Looping
    case SendInput => session.phase == Typing
    case ResizeScreen => session.phase == Resizing
    case Leave => session.phase !in {Ending, Done}
    case FinalRelease => session.phase == Ending
  }

  predicate Enabled(w: World, a: Action) {
    match a
    case Begin(id, _, _) => id !in w.sessions
    case Do(id, step) => id in w.sessions && CanDo(w.sessions[id], step)
  }

  function After(session: Session, step: Step, granted: bool): Session
    requires CanDo(session, step)
  {
    match step
    case LocalClients(local) =>
      var next :=
        if session.phase == Checking then (if local then Releasing else Acquiring)
        else if session.phase == CheckingInput then (if local then Refreshing(session.wantsWrite) else Typing)
        else (if local then Looping else Resizing);
      session.(phase := next)
    case CallRelease => session.(phase := Sizing(View))
    case CallAcquire => session.(phase := Sizing(if granted then Write else View))
    case LearnSize => session.(mode := session.phase.next, phase := Reporting)
    case SendReport => session.(phase := Looping)
    case ReceiveInput => session.(phase := CheckingInput)
    case ReceiveResize => session.(phase := CheckingResize)
    case RoleDue => session.(phase := Refreshing(session.wantsWrite))
    case SendInput => session.(phase := Looping)
    case ResizeScreen => session.(phase := Refreshing(session.wantsWrite))
    case Leave => session.(phase := Ending)
    case FinalRelease => session.(phase := Done)
  }

  function Registry(w: World, id: SessionId, step: Step): map<Mission, SessionId>
    requires id in w.sessions
  {
    match step
    case CallAcquire => Acquired(w.writers, w.sessions[id].mission, id)
    case CallRelease => Released(w.writers, w.sessions[id].mission, id)
    case FinalRelease => Released(w.writers, w.sessions[id].mission, id)
    case _ => w.writers
  }

  function Apply(w: World, a: Action): World
    requires Enabled(w, a)
  {
    match a
    case Begin(id, mission, wantsWrite) =>
      w.(sessions := w.sessions[id := Session(mission, wantsWrite, View, Refreshing(wantsWrite))])
    case Do(id, step) =>
      var granted := MayAcquire(w.writers, w.sessions[id].mission, id);
      World(Registry(w, id, step), w.sessions[id := After(w.sessions[id], step, granted)])
  }

  function Run(actions: seq<Action>): Option<World> {
    if actions == [] then Some(EMPTY)
    else
      var before, a := Run(actions[..|actions| - 1]), actions[|actions| - 1];
      if before.Some? && Enabled(before.value, a) then Some(Apply(before.value, a)) else None
  }

  // ----- What every interleaving keeps -----

  predicate Holds(w: World, id: SessionId)
    requires id in w.sessions
  {
    Holder(w.writers, w.sessions[id].mission) == Some(id)
  }

  predicate RoleKept(w: World, id: SessionId)
    requires id in w.sessions
  {
    var session := w.sessions[id];
    match session.phase
    case Sizing(next) => next == Write ==> Holds(w, id)
    case Ending => true
    case Done => !Holds(w, id)
    case CheckingInput => Holds(w, id)
    case Typing => Holds(w, id)
    case CheckingResize => Holds(w, id)
    case Resizing => Holds(w, id)
    case _ => session.mode == Write ==> Holds(w, id)
  }

  ghost predicate Kept(w: World) {
    && (forall id :: id in w.sessions ==> RoleKept(w, id))
    && (forall m :: m in w.writers ==> w.writers[m] in w.sessions && w.sessions[w.writers[m]].mission == m)
  }

  // Nobody but the holder takes the role from the holder, and only by releasing it.
  lemma OnlyOwnRelease(w: World, a: Action, mission: Mission)
    requires Enabled(w, a) && Kept(w) && mission in w.writers
    ensures Holder(Apply(w, a).writers, mission) != Holder(w.writers, mission) ==>
      && a.Do? && a.id == w.writers[mission] && a.step in {CallRelease, FinalRelease}
      && Holder(Apply(w, a).writers, mission) == None
  {
  }

  lemma ActorKeepsRole(w: World, id: SessionId, step: Step)
    requires Enabled(w, Do(id, step)) && RoleKept(w, id)
    ensures RoleKept(Apply(w, Do(id, step)), id)
  {
  }

  // A session that did not act holds what it held.
  lemma OthersHold(w: World, a: Action, id: SessionId)
    requires Enabled(w, a) && id in w.sessions && a.id != id
    ensures id in Apply(w, a).sessions && Apply(w, a).sessions[id] == w.sessions[id]
    ensures Holds(Apply(w, a), id) <==> Holds(w, id)
  {
    hide After, CanDo;
  }

  lemma StepKeepsRole(w: World, a: Action, id: SessionId)
    requires Enabled(w, a) && Kept(w) && id in Apply(w, a).sessions
    ensures RoleKept(Apply(w, a), id)
  {
    assert id in w.sessions ==> RoleKept(w, id);
    hide Kept, After, CanDo, Registry;
    if a.id != id {
      OthersHold(w, a, id);
    } else if a.Do? {
      ActorKeepsRole(w, id, a.step);
    }
  }

  lemma StepKeepsHolders(w: World, a: Action, mission: Mission)
    requires Enabled(w, a) && Kept(w) && mission in Apply(w, a).writers
    ensures var next := Apply(w, a);
      next.writers[mission] in next.sessions && next.sessions[next.writers[mission]].mission == mission
  {
    hide RoleKept;
  }

  lemma StepKeeps(w: World, a: Action)
    requires Enabled(w, a) && Kept(w)
    ensures Kept(Apply(w, a))
  {
    hide Apply, Enabled, RoleKept;
    var next := Apply(w, a);
    forall id | id in next.sessions
      ensures RoleKept(next, id)
    {
      StepKeepsRole(w, a, id);
    }
    forall mission | mission in next.writers
      ensures next.writers[mission] in next.sessions && next.sessions[next.writers[mission]].mission == mission
    {
      StepKeepsHolders(w, a, mission);
    }
  }

  lemma {:induction false} RunsKeep(actions: seq<Action>, w: World)
    requires Run(actions) == Some(w)
    ensures Kept(w)
  {
    if actions != [] {
      var before, a := Run(actions[..|actions| - 1]).value, actions[|actions| - 1];
      RunsKeep(actions[..|actions| - 1], before);
      StepKeeps(before, a);
    }
  }

  // Whoever types or resizes holds the role of its mission, whatever the others do meanwhile.
  lemma WriterHoldsRole(actions: seq<Action>, w: World, id: SessionId, step: Step)
    requires Run(actions) == Some(w) && Enabled(w, Do(id, step)) && step in {SendInput, ResizeScreen}
    ensures Holder(w.writers, w.sessions[id].mission) == Some(id)
  {
    RunsKeep(actions, w);
    assert RoleKept(w, id);
  }

  // So two sessions of one mission are never about to write at the same time.
  lemma OneWriter(actions: seq<Action>, w: World, a: SessionId, b: SessionId, s: Step, t: Step)
    requires Run(actions) == Some(w) && Enabled(w, Do(a, s)) && Enabled(w, Do(b, t))
    requires s in {SendInput, ResizeScreen} && t in {SendInput, ResizeScreen}
    requires w.sessions[a].mission == w.sessions[b].mission
    ensures a == b
  {
    WriterHoldsRole(actions, w, a, s);
    WriterHoldsRole(actions, w, b, t);
  }

  // A session whose run ended, by any path, holds no role.
  lemma EndedHoldsNothing(actions: seq<Action>, w: World, id: SessionId, mission: Mission)
    requires Run(actions) == Some(w) && id in w.sessions && w.sessions[id].phase == Done
    ensures Holder(w.writers, mission) != Some(id)
  {
    RunsKeep(actions, w);
    assert RoleKept(w, id);
  }

  // ----- The methods of a session are these steps, run alone -----

  function Alone(w: World, id: SessionId, steps: seq<Step>): Option<World>
    decreases |steps|
  {
    if steps == [] then Some(w)
    else if !Enabled(w, Do(id, steps[0])) then None
    else Alone(Apply(w, Do(id, steps[0])), id, steps[1..])
  }

  lemma AloneNext(w: World, id: SessionId, step: Step, rest: seq<Step>)
    requires Enabled(w, Do(id, step))
    ensures Alone(w, id, [step] + rest) == Alone(Apply(w, Do(id, step)), id, rest)
  {
    assert ([step] + rest)[1..] == rest;
  }

  lemma Overwrite<K, V>(m: map<K, V>, k: K, a: V, b: V)
    ensures m[k := a][k := b] == m[k := b]
  {
  }

  function RefreshSteps(wantsWrite: bool, local: bool): seq<Step> {
    if wantsWrite then [LocalClients(local)] + ([if local then CallRelease else CallAcquire] + ([LearnSize] + ([SendReport] + [])))
    else [LearnSize] + ([SendReport] + [])
  }

  // A role refresh of the machine decides what the method decides, and does to the registry what it does: with no
  // local client a session that wants to write gets a role that is free or its own.
  lemma RefreshAlone(w: World, id: SessionId, local: bool)
    requires id in w.sessions && w.sessions[id].phase == Refreshing(w.sessions[id].wantsWrite)
    ensures var session := w.sessions[id];
      var mine := session.mission in w.writers && w.writers[session.mission] == id;
      var mode := if session.wantsWrite && !local && (mine || session.mission !in w.writers) then Write else View;
      Alone(w, id, RefreshSteps(session.wantsWrite, local)) ==
        Some(World(if mode == Write then w.writers[session.mission := id]
                   else if session.wantsWrite && local && mine then w.writers - {session.mission}
                   else w.writers,
                   w.sessions[id := session.(mode := mode, phase := Looping)]))
  {
    RefreshDecides(w, id, local);
    hide Alone, RefreshSteps;
  }

  lemma RefreshDecides(w: World, id: SessionId, local: bool)
    requires id in w.sessions && w.sessions[id].phase == Refreshing(w.sessions[id].wantsWrite)
    ensures var session := w.sessions[id];
      var granted := MayAcquire(w.writers, session.mission, id);
      Alone(w, id, RefreshSteps(session.wantsWrite, local)) ==
        Some(World(RoleWriters(session.wantsWrite, local, w.writers, session.mission, id),
                   w.sessions[id := session.(mode := RoleMode(session.wantsWrite, local, granted), phase := Looping)]))
  {
    hide Alone, Acquired, Released, MayAcquire;
    var session := w.sessions[id];
    if session.wantsWrite {
      var granted := MayAcquire(w.writers, session.mission, id);
      var call := if local then CallRelease else CallAcquire;
      var rest := [LearnSize] + ([SendReport] + []);
      AloneNext(w, id, LocalClients(local), [call] + rest);
      var checked := Apply(w, Do(id, LocalClients(local)));
      AloneNext(checked, id, call, rest);
      var called := Apply(checked, Do(id, call));
      Overwrite(w.sessions, id, checked.sessions[id], called.sessions[id]);
      SizeAndReport(called, id);
      Overwrite(w.sessions, id, called.sessions[id],
                session.(mode := RoleMode(session.wantsWrite, local, granted), phase := Looping));
    } else {
      SizeAndReport(w, id);
    }
  }

  lemma SizeAndReport(w: World, id: SessionId)
    requires id in w.sessions && w.sessions[id].phase.Sizing?
    ensures Alone(w, id, [LearnSize] + ([SendReport] + [])) ==
      Some(w.(sessions := w.sessions[id := w.sessions[id].(mode := w.sessions[id].phase.next, phase := Looping)]))
  {
    AloneNext(w, id, LearnSize, [SendReport] + []);
    var sized := Apply(w, Do(id, LearnSize));
    AloneNext(sized, id, SendReport, []);
    Overwrite(w.sessions, id, sized.sessions[id], Apply(sized, Do(id, SendReport)).sessions[id]);
  }

  // A session that ends: the steps that are left of its run.
  function EndSteps(phase: Phase): seq<Step> {
    if phase == Done then [] else if phase == Ending then [FinalRelease] + [] else [Leave] + ([FinalRelease] + [])
  }

  // Every session can end at any time, and then holds nothing; other roles stay as they are.
  lemma AnySessionCanEnd(w: World, id: SessionId)
    requires id in w.sessions && w.sessions[id].phase != Done
    ensures var mission := w.sessions[id].mission;
      Alone(w, id, EndSteps(w.sessions[id].phase)) ==
        Some(World(if mission in w.writers && w.writers[mission] == id then w.writers - {mission} else w.writers,
                   w.sessions[id := w.sessions[id].(phase := Done)]))
  {
    hide Alone;
    if w.sessions[id].phase == Ending {
      AloneNext(w, id, FinalRelease, []);
      NothingAlone(Apply(w, Do(id, FinalRelease)), id);
    } else {
      AloneNext(w, id, Leave, [FinalRelease] + []);
      var left := Apply(w, Do(id, Leave));
      AloneNext(left, id, FinalRelease, []);
      NothingAlone(Apply(left, Do(id, FinalRelease)), id);
      Overwrite(w.sessions, id, left.sessions[id], Apply(left, Do(id, FinalRelease)).sessions[id]);
    }
  }

  // A waiting session gets a free role at its next refresh with no local client, and may then receive input.
  lemma FreeRoleIsTaken(w: World, id: SessionId)
    requires id in w.sessions && w.sessions[id].wantsWrite && w.sessions[id].phase == Looping
    requires w.sessions[id].mission !in w.writers
    ensures var session := w.sessions[id].(mode := Write);
      var later := World(w.writers[session.mission := id], w.sessions[id := session]);
      Alone(w, id, [RoleDue] + RefreshSteps(true, false)) == Some(later) && Enabled(later, Do(id, ReceiveInput))
  {
    hide Alone, RefreshSteps;
    AloneNext(w, id, RoleDue, RefreshSteps(true, false));
    var due := Apply(w, Do(id, RoleDue));
    RefreshAlone(due, id, false);
    Overwrite(w.sessions, id, due.sessions[id], w.sessions[id].(mode := Write));
  }

  // When the holder of a role ends, any other session of the mission that wants to write gets the role at its next
  // refresh with no local client, and may then receive input.
  lemma RolePassesOn(w: World, holder: SessionId, next: SessionId)
    requires holder in w.sessions && w.sessions[holder].phase != Done
    requires w.sessions[holder].mission in w.writers && w.writers[w.sessions[holder].mission] == holder
    requires next in w.sessions && next != holder && w.sessions[next].mission == w.sessions[holder].mission
    requires w.sessions[next].wantsWrite && w.sessions[next].phase == Looping
    ensures var ended := Alone(w, holder, EndSteps(w.sessions[holder].phase));
      && ended.Some?
      && var later := Alone(ended.value, next, [RoleDue] + RefreshSteps(true, false));
      && later.Some? && next in later.value.sessions
      && later.value.writers == w.writers[w.sessions[next].mission := next]
      && later.value.sessions[next] == w.sessions[next].(mode := Write)
      && Enabled(later.value, Do(next, ReceiveInput))
  {
    hide *;
    AnySessionCanEnd(w, holder);
    var mission := w.sessions[next].mission;
    var ended := Alone(w, holder, EndSteps(w.sessions[holder].phase)).value;
    FreeRoleIsTaken(ended, next);
    assert (w.writers - {mission})[mission := next] == w.writers[mission := next];
  }

  function FrameSteps(frame: ClientFrame, local: bool): seq<Step> {
    match frame
    case Input(_) => [ReceiveInput] + ([LocalClients(local)] + if local then [] else [SendInput] + [])
    case Resize(_, _) => [ReceiveResize] + ([LocalClients(local)] + if local then [] else [ResizeScreen] + [])
    case Other => []
  }

  // A frame in bounds, received in write mode, leads the machine to type or resize when the method does, and to
  // a role refresh when the method refreshes.
  lemma FrameAlone(w: World, id: SessionId, frame: ClientFrame, local: bool)
    requires id in w.sessions && w.sessions[id].phase == Looping && w.sessions[id].mode == Write
    ensures var refreshed := (frame.Input? && local) || (frame.Resize? && !local);
      Alone(w, id, FrameSteps(frame, local)) ==
        Some(w.(sessions := w.sessions[id := w.sessions[id].(
               phase := if refreshed then Refreshing(w.sessions[id].wantsWrite) else Looping)]))
  {
    hide Alone;
    if frame.Input? {
      TwoOrThree(w, id, ReceiveInput, local, if local then [] else [SendInput] + []);
    } else if frame.Resize? {
      TwoOrThree(w, id, ReceiveResize, local, if local then [] else [ResizeScreen] + []);
    } else {
      NothingAlone(w, id);
      assert w.sessions[id := w.sessions[id]] == w.sessions;
    }
  }

  // Receive a frame, ask for local clients, and act unless there is one.
  lemma TwoOrThree(w: World, id: SessionId, receive: Step, local: bool, rest: seq<Step>)
    requires id in w.sessions && w.sessions[id].phase == Looping && w.sessions[id].mode == Write
    requires receive == ReceiveInput || receive == ReceiveResize
    requires rest == if local then [] else [if receive == ReceiveInput then SendInput else ResizeScreen] + []
    ensures Alone(w, id, [receive] + ([LocalClients(local)] + rest)) ==
      Some(w.(sessions := w.sessions[id := w.sessions[id].(
             phase := if (receive == ReceiveInput) == local then Refreshing(w.sessions[id].wantsWrite) else Looping)]))
  {
    hide Alone;
    AloneNext(w, id, receive, [LocalClients(local)] + rest);
    var received := Apply(w, Do(id, receive));
    AloneNext(received, id, LocalClients(local), rest);
    var checked := Apply(received, Do(id, LocalClients(local)));
    Overwrite(w.sessions, id, received.sessions[id], checked.sessions[id]);
    if local {
      NothingAlone(checked, id);
    } else {
      var act := if receive == ReceiveInput then SendInput else ResizeScreen;
      AloneNext(checked, id, act, []);
      var acted := Apply(checked, Do(id, act));
      Overwrite(w.sessions, id, checked.sessions[id], acted.sessions[id]);
      NothingAlone(acted, id);
    }
  }

  lemma NothingAlone(w: World, id: SessionId)
    ensures Alone(w, id, []) == Some(w)
  {
  }

  // ----- What holding a role means -----

  datatype Call = AcquireCall(mission: Mission, id: SessionId) | ReleaseCall(mission: Mission, id: SessionId)

  function AfterCalls(calls: seq<Call>): map<Mission, SessionId> {
    if calls == [] then map[]
    else
      var before := AfterCalls(calls[..|calls| - 1]);
      match calls[|calls| - 1]
      case AcquireCall(mission, id) => Acquired(before, mission, id)
      case ReleaseCall(mission, id) => Released(before, mission, id)
  }

  // Nobody else holds the role.
  predicate Free(writers: map<Mission, SessionId>, mission: Mission, id: SessionId) {
    mission in writers ==> writers[mission] == id
  }

  // Call `k` granted the role and the grantee did not release it since.
  ghost predicate GrantedAt(calls: seq<Call>, mission: Mission, id: SessionId, k: nat)
    requires k < |calls|
  {
    && calls[k] == AcquireCall(mission, id) && Free(AfterCalls(calls[..k]), mission, id)
    && forall l :: k < l < |calls| ==> calls[l] != ReleaseCall(mission, id)
  }

  ghost predicate Granted(calls: seq<Call>, mission: Mission, id: SessionId) {
    exists k :: 0 <= k < |calls| && GrantedAt(calls, mission, id, k)
  }

  // After any calls the holder of a role is the session it was granted to and that did not release it since.
  lemma {:induction false} HolderWasGranted(calls: seq<Call>, mission: Mission, id: SessionId)
    ensures Holder(AfterCalls(calls), mission) == Some(id) <==> Granted(calls, mission, id)
  {
    if calls != [] {
      var n := |calls| - 1;
      HolderWasGranted(calls[..n], mission, id);
      GrantedNext(calls, mission, id);
    }
  }

  lemma GrantedNext(calls: seq<Call>, mission: Mission, id: SessionId)
    requires calls != []
    ensures var n := |calls| - 1;
      Granted(calls, mission, id) <==>
        || (calls[n] == AcquireCall(mission, id) && Free(AfterCalls(calls[..n]), mission, id))
        || (calls[n] != ReleaseCall(mission, id) && Granted(calls[..n], mission, id))
  {
    hide AfterCalls, Free;
    var n := |calls| - 1;
    forall k | 0 <= k < n
      ensures GrantedAt(calls, mission, id, k) <==> calls[n] != ReleaseCall(mission, id) && GrantedAt(calls[..n], mission, id, k)
    {
      assert calls[..n][..k] == calls[..k];
      assert calls[n] != ReleaseCall(mission, id) && GrantedAt(calls[..n], mission, id, k) ==>
        forall l :: k < l < n ==> calls[..n][l] == calls[l];
    }
    assert GrantedAt(calls, mission, id, n) <==>
      calls[n] == AcquireCall(mission, id) && Free(AfterCalls(calls[..n]), mission, id);
  }
}
