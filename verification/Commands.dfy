// Operator commands that take effect once, however often they are delivered and wherever a delivery stops.
module Commands {
  import opened Common

  type CommandId = string
  type Data = seq<string> // what effects read and write: the mission's rows

  datatype Request = Request(mission: string, payload: string)
  datatype Status = Queued | Applied | Rejected
  datatype Command = Command(request: Request, status: Status, result: string)

  // What changed the data: the effect of a command, or anything else, such as a controller.
  datatype Change = ByCommand(id: CommandId) | ByOther(data: Data)

  // `history` holds the changes that are in `data`, in order.
  datatype Db = Db(missions: set<string>, commands: map<CommandId, Command>, data: Data, history: seq<Change>)

  // An effect changes the data, or refuses with the data untouched.
  datatype Verdict = Accept(data: Data, result: string) | Refuse(error: string)
  type Effect = (Request, Data) -> Verdict

  predicate IdChar(c: char) {
    'A' <= c <= 'Z' || 'a' <= c <= 'z' || '0' <= c <= '9' || c in "_.-"
  }

  predicate ValidId(id: CommandId) {
    id != "" && forall i :: 0 <= i < |id| ==> IdChar(id[i])
  }

  // ----- What single statements do to the database -----

  predicate Conflicts(db: Db, id: CommandId, request: Request) {
    id in db.commands && db.commands[id].request != request
  }

  predicate Enqueues(db: Db, id: CommandId, request: Request) {
    ValidId(id) && request.mission in db.missions && !Conflicts(db, id, request)
  }

  // Insert if absent.
  function Enqueued(db: Db, id: CommandId, request: Request): Db {
    if id in db.commands then db else db.(commands := db.commands[id := Command(request, Queued, "")])
  }

  // Nothing happens to a command that is finished already.
  function Finished(db: Db, id: CommandId, status: Status, result: string): Db
    requires id in db.commands
  {
    if db.commands[id].status != Queued then db
    else db.(commands := db.commands[id := Command(db.commands[id].request, status, result)])
  }

  function Changed(db: Db, id: CommandId, data: Data): Db {
    db.(data := data, history := db.history + [ByCommand(id)])
  }

  // ----- Deliveries, statement by statement -----

  // Where a delivery stands. It holds the write lock in the phases marked so.
  datatype Phase =
    | Arrived
    | Enqueueing                                   // lock
    | CommitEnqueue(prior: Option<Command>)        // lock
    | ReadingBack
    | Examining(seen: Command)
    | BeginApply
    | Rechecking | RunEffect | Finishing(result: string)   // lock
    | BeginReject(error: string)
    | Rejecting(error: string)                     // lock
    | CommitReturn(reply: Command)                 // lock
    | Returned(reply: Command)
    | Raised
    | Crashed

  datatype Delivery = Delivery(id: CommandId, request: Request, phase: Phase)

  // `draft` is what the transaction of the lock's owner would commit.
  datatype World = World(db: Db, owner: Option<nat>, draft: Db, deliveries: seq<Delivery>)

  // Deliver starts another delivery. Advance runs the next statement of delivery d; with `broken` the effect
  // fails some other way than by refusing. Crash stops a delivery for good.
  // Write is a transaction of anybody else.
  datatype Action =
    | Deliver(id: CommandId, request: Request)
    | Advance(d: nat, broken: bool)
    | Crash(d: nat)
    | Write(data: Data)

  predicate Locks(phase: Phase) {
    match phase
    case Enqueueing => true
    case CommitEnqueue(_) => true
    case Rechecking => true
    case RunEffect => true
    case Finishing(_) => true
    case Rejecting(_) => true
    case CommitReturn(_) => true
    case _ => false
  }

  predicate Begins(phase: Phase) {
    phase.Arrived? || phase.BeginApply? || phase.BeginReject?
  }

  predicate Over(phase: Phase) {
    phase.Returned? || phase.Raised? || phase.Crashed?
  }

  // The row this statement reads is there; NoDeliveryIsStuck shows that it always is.
  predicate CanRun(db: Db, draft: Db, delivery: Delivery) {
    match delivery.phase
    case ReadingBack => delivery.id in db.commands
    case Rechecking => delivery.id in draft.commands
    case Finishing(_) => delivery.id in draft.commands
    case Rejecting(_) => delivery.id in draft.commands
    case phase => !Over(phase)
  }

  predicate Enabled(w: World, a: Action) {
    match a
    case Deliver(_, _) => true
    case Write(_) => w.owner == None
    case Advance(d, _) =>
      && d < |w.deliveries|
      && CanRun(w.db, w.draft, w.deliveries[d])
      && (Begins(w.deliveries[d].phase) ==> w.owner == None)   // BEGIN IMMEDIATE waits for the lock
      && (Locks(w.deliveries[d].phase) ==> w.owner == Some(d))
    case Crash(d) => d < |w.deliveries| && !Over(w.deliveries[d].phase)
  }

  // What one statement makes of the database, of the draft of the open transaction, of the lock and of the phase.
  datatype Turn = Turn(db: Db, draft: Db, holds: bool, phase: Phase)

  function Begin(db: Db, phase: Phase): Turn {
    Turn(db, db, true, phase)
  }

  function Rollback(db: Db, phase: Phase): Turn {
    Turn(db, db, false, phase)
  }

  function Commit(draft: Db, phase: Phase): Turn {
    Turn(draft, draft, false, phase)
  }

  function Reply(db: Db, draft: Db, id: CommandId): Turn
    requires id in draft.commands
  {
    Turn(db, draft, true, CommitReturn(draft.commands[id]))
  }

  function Took(effect: Effect, db: Db, draft: Db, delivery: Delivery, broken: bool): Turn
    requires CanRun(db, draft, delivery)
  {
    var id, request := delivery.id, delivery.request;
    match delivery.phase
    case Arrived => Begin(db, Enqueueing)
    case Enqueueing =>
      if !Enqueues(draft, id, request) then Rollback(db, Raised)
      else
        var prior := if id in draft.commands then Some(draft.commands[id]) else None;
        Turn(db, Enqueued(draft, id, request), true, CommitEnqueue(prior))
    case CommitEnqueue(prior) => Commit(draft, if prior.Some? then Examining(prior.value) else ReadingBack)
    case ReadingBack => Turn(db, draft, false, Examining(db.commands[id]))
    case Examining(seen) => Turn(db, draft, false, if seen.status != Queued then Returned(seen) else BeginApply)
    case BeginApply => Begin(db, Rechecking)
    case Rechecking =>
      if draft.commands[id].status != Queued then Reply(db, draft, id) else Turn(db, draft, true, RunEffect)
    case RunEffect =>
      if broken then Rollback(db, Raised)
      else (match effect(request, draft.data)
            case Accept(data, result) => Turn(db, Changed(draft, id, data), true, Finishing(result))
            case Refuse(error) => Rollback(db, BeginReject(error)))
    case Finishing(result) => Reply(db, Finished(draft, id, Applied, result), id)
    case BeginReject(error) => Begin(db, Rejecting(error))
    case Rejecting(error) => Reply(db, Finished(draft, id, Rejected, error), id)
    case CommitReturn(reply) => Commit(draft, Returned(reply))
  }

  function Next(effect: Effect, w: World, d: nat, broken: bool): World
    requires Enabled(w, Advance(d, broken))
  {
    var turn := Took(effect, w.db, w.draft, w.deliveries[d], broken);
    World(turn.db,
          if turn.holds then Some(d) else if w.owner == Some(d) then None else w.owner,
          turn.draft,
          w.deliveries[d := w.deliveries[d].(phase := turn.phase)])
  }

  function Apply(effect: Effect, w: World, a: Action): World
    requires Enabled(w, a)
  {
    match a
    case Deliver(id, request) => w.(deliveries := w.deliveries + [Delivery(id, request, Arrived)])
    case Advance(d, broken) => Next(effect, w, d, broken)
    case Write(data) => w.(db := w.db.(data := data, history := w.db.history + [ByOther(data)]))
    case Crash(d) =>
      World(w.db, if w.owner == Some(d) then None else w.owner, if w.owner == Some(d) then w.db else w.draft,
            w.deliveries[d := w.deliveries[d].(phase := Crashed)])
  }

  function Begun(missions: set<string>, data: Data): World {
    var db := Db(missions, map[], data, []);
    World(db, None, db, [])
  }

  function Run(effect: Effect, start: World, actions: seq<Action>): Option<World> {
    if actions == [] then Some(start)
    else
      var before, a := Run(effect, start, actions[..|actions| - 1]), actions[|actions| - 1];
      if before.Some? && Enabled(before.value, a) then Some(Apply(effect, before.value, a)) else None
  }

  // ----- What the database always satisfies -----

  // The data after the changes of `history`, in order, where every effect accepted what it found.
  function Replay(effect: Effect, start: Data, db: Db, history: seq<Change>): Option<Data> {
    if history == [] then Some(start)
    else
      var before := Replay(effect, start, db, history[..|history| - 1]);
      if before == None then None
      else
        match history[|history| - 1]
        case ByOther(data) => Some(data)
        case ByCommand(id) =>
          if id !in db.commands then None
          else
            match effect(db.commands[id].request, before.value)
            case Accept(data, _) => Some(data)
            case Refuse(_) => None
  }

  ghost predicate OnceEach(history: seq<Change>) {
    forall i, j :: 0 <= i < j < |history| && history[i].ByCommand? ==> history[i] != history[j]
  }

  // Each command took effect at most once, exactly when it is marked applied, and the data is the replay of
  // these effects and the changes of others.
  ghost predicate Sound(effect: Effect, start: Data, db: Db) {
    && OnceEach(db.history)
    && (forall id :: ByCommand(id) in db.history <==> id in db.commands && db.commands[id].status == Applied)
    && Replay(effect, start, db, db.history) == Some(db.data)
  }

  // Requests never change, and a finished command never changes again.
  ghost predicate Grows(db: Db, later: Db) {
    forall id :: id in db.commands ==>
      && id in later.commands
      && later.commands[id].request == db.commands[id].request
      && (db.commands[id].status != Queued ==> later.commands[id] == db.commands[id])
  }

  ghost predicate AllKnown(db: Db, history: seq<Change>) {
    forall i :: 0 <= i < |history| && history[i].ByCommand? ==> history[i].id in db.commands
  }

  lemma {:induction false} ReplayGrows(effect: Effect, start: Data, db: Db, later: Db, history: seq<Change>)
    requires Grows(db, later) && AllKnown(db, history)
    ensures Replay(effect, start, later, history) == Replay(effect, start, db, history)
  {
    if history != [] {
      ReplayGrows(effect, start, db, later, history[..|history| - 1]);
    }
  }

  lemma AppliedAreKnown(effect: Effect, start: Data, db: Db)
    requires Sound(effect, start, db)
    ensures AllKnown(db, db.history)
  {
    forall i | 0 <= i < |db.history| && db.history[i].ByCommand?
      ensures db.history[i].id in db.commands
    {
      assert ByCommand(db.history[i].id) in db.history;
    }
  }

  lemma WriteIsSound(effect: Effect, start: Data, db: Db, data: Data)
    requires Sound(effect, start, db)
    ensures var later := db.(data := data, history := db.history + [ByOther(data)]);
      Sound(effect, start, later) && Grows(db, later)
  {
    var later := db.(data := data, history := db.history + [ByOther(data)]);
    AppliedAreKnown(effect, start, db);
    ReplayGrows(effect, start, db, later, db.history);
    assert later.history[..|later.history| - 1] == db.history;
  }

  lemma EnqueueIsSound(effect: Effect, start: Data, db: Db, id: CommandId, request: Request)
    requires Sound(effect, start, db)
    ensures Sound(effect, start, Enqueued(db, id, request)) && Grows(db, Enqueued(db, id, request))
  {
    AppliedAreKnown(effect, start, db);
    ReplayGrows(effect, start, db, Enqueued(db, id, request), db.history);
  }

  lemma RejectIsSound(effect: Effect, start: Data, db: Db, id: CommandId, error: string)
    requires Sound(effect, start, db) && id in db.commands
    ensures Sound(effect, start, Finished(db, id, Rejected, error)) && Grows(db, Finished(db, id, Rejected, error))
  {
    AppliedAreKnown(effect, start, db);
    ReplayGrows(effect, start, db, Finished(db, id, Rejected, error), db.history);
  }

  lemma ApplyIsSound(effect: Effect, start: Data, db: Db, id: CommandId, data: Data, result: string)
    requires Sound(effect, start, db) && id in db.commands && db.commands[id].status == Queued
    requires effect(db.commands[id].request, db.data) == Accept(data, result)
    ensures var later := Finished(Changed(db, id, data), id, Applied, result);
      Sound(effect, start, later) && Grows(db, later)
  {
    var later := Finished(Changed(db, id, data), id, Applied, result);
    assert ByCommand(id) !in db.history;
    AppliedAreKnown(effect, start, db);
    ReplayGrows(effect, start, db, later, db.history);
    ReplayAppend(effect, start, later, db.history, ByCommand(id));
    hide Replay, AllKnown;
    OneMore(db.history, ByCommand(id));
  }

  lemma ReplayAppend(effect: Effect, start: Data, db: Db, history: seq<Change>, change: Change)
    requires Replay(effect, start, db, history).Some?
    requires change.ByCommand? ==> change.id in db.commands
    ensures Replay(effect, start, db, history + [change]) ==
      match change
      case ByOther(data) => Some(data)
      case ByCommand(id) =>
        match effect(db.commands[id].request, Replay(effect, start, db, history).value)
        case Accept(data, _) => Some(data)
        case Refuse(_) => None
  {
    assert (history + [change])[..|history|] == history;
  }

  lemma OneMore(history: seq<Change>, change: Change)
    requires OnceEach(history) && change !in history
    ensures OnceEach(history + [change])
    ensures forall c :: c in history + [change] <==> c in history || c == change
  {
    forall i, j | 0 <= i < j < |history + [change]| && (history + [change])[i].ByCommand?
      ensures (history + [change])[i] != (history + [change])[j]
    {
      assert (history + [change])[i] in history;
    }
  }

  // ----- What every interleaving keeps -----

  predicate Known(db: Db, id: CommandId, request: Request) {
    id in db.commands && db.commands[id].request == request
  }

  // The stored outcome of a finished command.
  predicate Settled(db: Db, id: CommandId, reply: Command) {
    id in db.commands && db.commands[id] == reply && reply.status != Queued
  }

  predicate DeliveryKept(db: Db, draft: Db, delivery: Delivery) {
    var id, request := delivery.id, delivery.request;
    match delivery.phase
    case CommitEnqueue(prior) =>
      Known(draft, id, request) && (prior.Some? ==> prior.value == draft.commands[id])
    case ReadingBack => Known(db, id, request)
    case Examining(seen) => Known(db, id, request) && (seen.status != Queued ==> Settled(db, id, seen))
    case BeginApply => Known(db, id, request)
    case Rechecking => Known(draft, id, request)
    case RunEffect => Known(draft, id, request) && draft.commands[id].status == Queued
    case Finishing(_) => Known(draft, id, request) && draft.commands[id].status == Queued
    case BeginReject(_) => Known(db, id, request)
    case Rejecting(_) => Known(draft, id, request)
    case CommitReturn(reply) => Known(draft, id, request) && Settled(draft, id, reply)
    case Returned(reply) => Known(db, id, request) && Settled(db, id, reply)
    case _ => true
  }

  // What a delivery of `id` may commit: nothing, a refusal, or one effect together with its outcome.
  predicate Settles(effect: Effect, db: Db, later: Db, id: CommandId) {
    || later == db
    || (&& id in db.commands && db.commands[id].status == Queued
        && id in later.commands && later.commands[id].request == db.commands[id].request
        && later == later.(missions := db.missions, commands := db.commands[id := later.commands[id]])
        && match later.commands[id].status
           case Queued => false
           case Rejected => later.data == db.data && later.history == db.history
           case Applied =>
             && later.history == db.history + [ByCommand(id)]
             && effect(db.commands[id].request, db.data) == Accept(later.data, later.commands[id].result))
  }

  // The open transaction of `delivery`.
  ghost predicate DraftKept(effect: Effect, start: Data, db: Db, draft: Db, delivery: Delivery) {
    match delivery.phase
    case Finishing(result) =>
      && draft == Changed(db, delivery.id, draft.data)
      && effect(delivery.request, db.data) == Accept(draft.data, result)
    case CommitEnqueue(_) =>
      Sound(effect, start, draft) && Grows(db, draft) && draft == Enqueued(db, delivery.id, delivery.request)
    case CommitReturn(_) =>
      Sound(effect, start, draft) && Grows(db, draft) && Settles(effect, db, draft, delivery.id)
    case _ => draft == db
  }

  ghost predicate LocksKept(w: World) {
    && (w.owner.Some? ==> w.owner.value < |w.deliveries|)
    && (forall d :: 0 <= d < |w.deliveries| ==> (Locks(w.deliveries[d].phase) <==> w.owner == Some(d)))
  }

  ghost predicate Kept(effect: Effect, start: Data, w: World) {
    && Sound(effect, start, w.db)
    && LocksKept(w)
    && (forall d :: 0 <= d < |w.deliveries| ==> DeliveryKept(w.db, w.draft, w.deliveries[d]))
    && (w.owner.Some? ==> DraftKept(effect, start, w.db, w.draft, w.deliveries[w.owner.value]))
  }

  // A delivery whose own state and transaction did not change still fits a database that grew.
  lemma GrowthKeeps(db: Db, later: Db, draft: Db, draft': Db, delivery: Delivery)
    requires DeliveryKept(db, draft, delivery) && Grows(db, later)
    requires Locks(delivery.phase) ==> draft' == draft
    ensures DeliveryKept(later, draft', delivery)
  {
  }

  lemma GrowsSelf(db: Db)
    ensures Grows(db, db)
  {
  }

  // A delivery's turn: the lock, the database, what the delivery knows, and its transaction.
  lemma TurnHolds(effect: Effect, db: Db, draft: Db, delivery: Delivery, broken: bool)
    requires CanRun(db, draft, delivery)
    ensures var turn := Took(effect, db, draft, delivery, broken); turn.holds <==> Locks(turn.phase)
  {
    hide Enqueues, Enqueued, Changed, Finished;
  }

  lemma TurnGrows(effect: Effect, start: Data, db: Db, draft: Db, delivery: Delivery, broken: bool)
    requires CanRun(db, draft, delivery) && Sound(effect, start, db)
    requires Locks(delivery.phase) ==> DraftKept(effect, start, db, draft, delivery)
    ensures var later := Took(effect, db, draft, delivery, broken).db;
      Sound(effect, start, later) && Grows(db, later)
  {
    hide Sound, Grows, Enqueues, Enqueued, Changed, Finished;
    GrowsSelf(db);
  }

  lemma TurnKnows(effect: Effect, start: Data, db: Db, draft: Db, delivery: Delivery, broken: bool)
    requires CanRun(db, draft, delivery) && DeliveryKept(db, draft, delivery)
    requires Locks(delivery.phase) ==> DraftKept(effect, start, db, draft, delivery)
    ensures var turn := Took(effect, db, draft, delivery, broken);
      DeliveryKept(turn.db, turn.draft, delivery.(phase := turn.phase))
  {
    hide Sound, Grows;
  }

  lemma TurnDraft(effect: Effect, start: Data, db: Db, draft: Db, delivery: Delivery, broken: bool)
    requires CanRun(db, draft, delivery) && DeliveryKept(db, draft, delivery) && Sound(effect, start, db)
    requires Locks(delivery.phase) ==> DraftKept(effect, start, db, draft, delivery)
    ensures var turn := Took(effect, db, draft, delivery, broken);
      turn.holds ==> DraftKept(effect, start, turn.db, turn.draft, delivery.(phase := turn.phase))
  {
    hide Sound, Grows;
    GrowsSelf(db);
    var id, request := delivery.id, delivery.request;
    match delivery.phase {
      case Enqueueing => EnqueueIsSound(effect, start, draft, id, request);
      case Finishing(result) => ApplyIsSound(effect, start, db, id, draft.data, result);
      case Rejecting(error) => RejectIsSound(effect, start, draft, id, error);
      case _ =>
    }
  }

  // Every step only lets the database grow.
  lemma StepGrows(effect: Effect, start: Data, w: World, a: Action)
    requires Kept(effect, start, w) && Enabled(w, a)
    ensures Sound(effect, start, Apply(effect, w, a).db) && Grows(w.db, Apply(effect, w, a).db)
  {
    hide Sound, Grows, Took, DraftKept, DeliveryKept;
    GrowsSelf(w.db);
    match a {
      case Advance(d, broken) => TurnGrows(effect, start, w.db, w.draft, w.deliveries[d], broken);
      case Write(data) => WriteIsSound(effect, start, w.db, data);
      case _ =>
    }
  }

  lemma StepKeeps(effect: Effect, start: Data, w: World, a: Action)
    requires Kept(effect, start, w) && Enabled(w, a)
    ensures Kept(effect, start, Apply(effect, w, a))
  {
    match a {
      case Advance(d, broken) => AdvanceKeeps(effect, start, w, d, broken);
      case Crash(d) => CrashKeeps(effect, start, w, d);
      case Deliver(id, request) => DeliverKeeps(effect, start, w, id, request);
      case Write(data) => WriteKeeps(effect, start, w, data);
    }
  }

  lemma AdvanceKeeps(effect: Effect, start: Data, w: World, d: nat, broken: bool)
    requires Kept(effect, start, w) && Enabled(w, Advance(d, broken))
    ensures Kept(effect, start, Apply(effect, w, Advance(d, broken)))
  {
    var next, delivery := Next(effect, w, d, broken), w.deliveries[d];
    assert DeliveryKept(w.db, w.draft, delivery);
    StepGrows(effect, start, w, Advance(d, broken));
    TurnHolds(effect, w.db, w.draft, delivery, broken);
    LocksStayKept(effect, w, d, broken);
    assert Locks(delivery.phase) <==> w.owner == Some(d);
    if !Locks(delivery.phase) {
      TurnLeavesDraft(effect, w.db, w.draft, delivery, broken);
    }
    hide Sound, DeliveryKept, DraftKept, Grows, Took, Locks, LocksKept, CanRun, Begins;
    TurnKnows(effect, start, w.db, w.draft, delivery, broken);
    TurnDraft(effect, start, w.db, w.draft, delivery, broken);
    OthersKept(effect, start, w, next, d);
  }

  lemma LocksStayKept(effect: Effect, w: World, d: nat, broken: bool)
    requires LocksKept(w) && Enabled(w, Advance(d, broken))
    ensures LocksKept(Next(effect, w, d, broken))
  {
    var delivery := w.deliveries[d];
    TurnHolds(effect, w.db, w.draft, delivery, broken);
    assert Locks(delivery.phase) <==> w.owner == Some(d);
    if !Locks(delivery.phase) {
      TurnLeavesDraft(effect, w.db, w.draft, delivery, broken);
    }
    hide Took, Locks, CanRun, Begins;
  }

  // A delivery without the lock touches nobody's draft, unless it takes the lock while nobody has it.
  lemma TurnLeavesDraft(effect: Effect, db: Db, draft: Db, delivery: Delivery, broken: bool)
    requires CanRun(db, draft, delivery) && !Locks(delivery.phase)
    ensures var turn := Took(effect, db, draft, delivery, broken); turn.holds ==> Begins(delivery.phase)
    ensures var turn := Took(effect, db, draft, delivery, broken); !turn.holds ==> turn.draft == draft
  {
  }

  lemma CrashKeeps(effect: Effect, start: Data, w: World, d: nat)
    requires Kept(effect, start, w) && Enabled(w, Crash(d))
    ensures Kept(effect, start, Apply(effect, w, Crash(d)))
  {
    var next := Apply(effect, w, Crash(d));
    CrashedKnows(next.db, next.draft, next.deliveries[d]);
    GrowsSelf(w.db);
    hide Sound, DeliveryKept, DraftKept, Grows;
    OthersKept(effect, start, w, next, d);
  }

  lemma CrashedKnows(db: Db, draft: Db, delivery: Delivery)
    requires delivery.phase == Crashed || delivery.phase == Arrived
    ensures DeliveryKept(db, draft, delivery)
  {
  }

  lemma DeliverKeeps(effect: Effect, start: Data, w: World, id: CommandId, request: Request)
    requires Kept(effect, start, w)
    ensures Kept(effect, start, Apply(effect, w, Deliver(id, request)))
  {
    CrashedKnows(w.db, w.draft, Delivery(id, request, Arrived));
    hide Sound, DeliveryKept, DraftKept, Grows;
  }

  lemma WriteKeeps(effect: Effect, start: Data, w: World, data: Data)
    requires Kept(effect, start, w) && Enabled(w, Write(data))
    ensures Kept(effect, start, Apply(effect, w, Write(data)))
  {
    hide Sound, DeliveryKept, DraftKept, Grows;
    var next := Apply(effect, w, Write(data));
    WriteIsSound(effect, start, w.db, data);
    forall d | 0 <= d < |w.deliveries|
      ensures DeliveryKept(next.db, next.draft, next.deliveries[d])
    {
      GrowthKeeps(w.db, next.db, w.draft, next.draft, w.deliveries[d]);
    }
  }

  // The deliveries that did not act.
  lemma OthersKept(effect: Effect, start: Data, w: World, next: World, d: nat)
    requires Kept(effect, start, w) && Grows(w.db, next.db)
    requires d < |w.deliveries| == |next.deliveries|
    requires next.deliveries == w.deliveries[d := next.deliveries[d]]
    requires w.owner.Some? && w.owner.value != d ==> next.draft == w.draft
    ensures forall other :: 0 <= other < |w.deliveries| && other != d ==>
      DeliveryKept(next.db, next.draft, next.deliveries[other])
  {
    hide Sound, DeliveryKept, DraftKept, Grows;
    forall other | 0 <= other < |w.deliveries| && other != d
      ensures DeliveryKept(next.db, next.draft, next.deliveries[other])
    {
      GrowthKeeps(w.db, next.db, w.draft, next.draft, w.deliveries[other]);
    }
  }

  lemma {:induction false} RunsKeep(effect: Effect, missions: set<string>, start: Data, actions: seq<Action>, w: World)
    requires Run(effect, Begun(missions, start), actions) == Some(w)
    ensures Kept(effect, start, w)
  {
    hide Apply, Enabled;
    if actions != [] {
      var before := Run(effect, Begun(missions, start), actions[..|actions| - 1]).value;
      RunsKeep(effect, missions, start, actions[..|actions| - 1], before);
      StepKeeps(effect, start, before, actions[|actions| - 1]);
    }
  }

  // ----- What a caller can rely on, in every run -----

  // However many deliveries of however many commands run, wherever they crash and whatever others write between:
  // every command took effect at most once, exactly the applied ones did, and the data is what these effects and
  // the writes of others, in order, make of the start.
  lemma EffectsHappenOnce(effect: Effect, missions: set<string>, start: Data, actions: seq<Action>, w: World)
    requires Run(effect, Begun(missions, start), actions) == Some(w)
    ensures OnceEach(w.db.history)
    ensures forall id :: ByCommand(id) in w.db.history <==> id in w.db.commands && w.db.commands[id].status == Applied
    ensures Replay(effect, start, w.db, w.db.history) == Some(w.db.data)
  {
    RunsKeep(effect, missions, start, actions, w);
  }

  // The database changes only when others write it, when a new command is queued, or when a commit settles the actor's
  // queued command: a refusal leaves the data alone, and an effect lands in the commit that marks it applied.
  lemma OnlyCommitsChange(effect: Effect, missions: set<string>, start: Data, actions: seq<Action>, w: World, a: Action)
    requires Run(effect, Begun(missions, start), actions) == Some(w) && Enabled(w, a)
    ensures var later := Apply(effect, w, a).db;
      || later == w.db
      || (a.Write? && later == w.db.(data := a.data, history := w.db.history + [ByOther(a.data)]))
      || (a.Advance? && later == Enqueued(w.db, w.deliveries[a.d].id, w.deliveries[a.d].request))
      || (a.Advance? && Settles(effect, w.db, later, w.deliveries[a.d].id))
  {
    RunsKeep(effect, missions, start, actions, w);
  }

  // In particular no delivery of a finished command changes anything.
  lemma FinishedIsInert(effect: Effect, missions: set<string>, start: Data, actions: seq<Action>, w: World,
                        d: nat, broken: bool)
    requires Run(effect, Begun(missions, start), actions) == Some(w) && Enabled(w, Advance(d, broken))
    requires w.deliveries[d].id in w.db.commands && w.db.commands[w.deliveries[d].id].status != Queued
    ensures Apply(effect, w, Advance(d, broken)).db == w.db
  {
    OnlyCommitsChange(effect, missions, start, actions, w, Advance(d, broken));
  }

  // Whatever two deliveries of one command return is the same stored outcome, for the request both made.
  lemma RepliesAgree(effect: Effect, missions: set<string>, start: Data, actions: seq<Action>, w: World, a: nat, b: nat)
    requires Run(effect, Begun(missions, start), actions) == Some(w)
    requires a < |w.deliveries| && b < |w.deliveries| && w.deliveries[a].id == w.deliveries[b].id
    requires w.deliveries[a].phase.Returned? && w.deliveries[b].phase.Returned?
    ensures w.deliveries[a].id in w.db.commands
    ensures w.deliveries[a].phase.reply == w.deliveries[b].phase.reply == w.db.commands[w.deliveries[a].id]
    ensures w.deliveries[a].request == w.deliveries[b].request == w.deliveries[a].phase.reply.request
    ensures w.deliveries[a].phase.reply.status != Queued
  {
    RunsKeep(effect, missions, start, actions, w);
    assert DeliveryKept(w.db, w.draft, w.deliveries[a]) && DeliveryKept(w.db, w.draft, w.deliveries[b]);
  }

  // A stored outcome is final.
  lemma {:induction false} OutcomesAreFinal(effect: Effect, missions: set<string>, start: Data, actions: seq<Action>,
                                            n: nat, w: World, id: CommandId, reply: Command)
    requires Run(effect, Begun(missions, start), actions) == Some(w) && n <= |actions|
    requires Run(effect, Begun(missions, start), actions[..n]).Some?
    requires Settled(Run(effect, Begun(missions, start), actions[..n]).value.db, id, reply)
    ensures Settled(w.db, id, reply)
  {
    hide Apply, Enabled, Kept;
    if n == |actions| {
      assert actions[..n] == actions;
    } else {
      var shorter, a := actions[..|actions| - 1], actions[|actions| - 1];
      var before := Run(effect, Begun(missions, start), shorter).value;
      assert shorter[..n] == actions[..n];
      OutcomesAreFinal(effect, missions, start, shorter, n, before, id, reply);
      RunsKeep(effect, missions, start, shorter, before);
      StepGrows(effect, start, before, a);
    }
  }

  // No delivery gets stuck: one that is not over can go on as soon as it needs no lock another one holds.
  lemma NoDeliveryIsStuck(effect: Effect, missions: set<string>, start: Data, actions: seq<Action>, w: World, d: nat)
    requires Run(effect, Begun(missions, start), actions) == Some(w) && d < |w.deliveries|
    requires !Over(w.deliveries[d].phase) && (Begins(w.deliveries[d].phase) ==> w.owner == None)
    ensures Enabled(w, Advance(d, false)) && Enabled(w, Advance(d, true))
  {
    RunsKeep(effect, missions, start, actions, w);
    StuckNever(effect, start, w, d);
  }

  // ----- Every outcome was decided by the effect -----

  // A run up to some moment.
  datatype Past = Past(effect: Effect, missions: set<string>, start: Data, actions: seq<Action>)

  // Action n ran the effect on the request of a delivery of `id` and on the data of that moment, and the verdict was this.
  ghost predicate DecidedAt(p: Past, n: nat, id: CommandId, request: Request, status: Status, text: string)
    requires n < |p.actions|
  {
    var a, before := p.actions[n], Run(p.effect, Begun(p.missions, p.start), p.actions[..n]);
    && a.Advance? && !a.broken && before.Some? && a.d < |before.value.deliveries|
    && before.value.deliveries[a.d] == Delivery(id, request, RunEffect)
    && match p.effect(request, before.value.db.data)
       case Accept(_, result) => status == Applied && text == result
       case Refuse(error) => status == Rejected && text == error
  }

  ghost predicate Decided(p: Past, id: CommandId, request: Request, status: Status, text: string) {
    exists n :: 0 <= n < |p.actions| && DecidedAt(p, n, id, request, status, text)
  }

  lemma DecidedStays(p: Past, q: Past)
    requires q.actions != [] && p == q.(actions := q.actions[..|q.actions| - 1])
    ensures forall id, request, status, text :: Decided(p, id, request, status, text) ==> Decided(q, id, request, status, text)
  {
    forall id, request, status, text | Decided(p, id, request, status, text)
      ensures Decided(q, id, request, status, text)
    {
      var n :| 0 <= n < |p.actions| && DecidedAt(p, n, id, request, status, text);
      assert p.actions[..n] == q.actions[..n];
      assert DecidedAt(q, n, id, request, status, text);
    }
  }

  ghost predicate RowsDecided(p: Past, db: Db) {
    forall id :: id in db.commands && db.commands[id].status != Queued ==>
      Decided(p, id, db.commands[id].request, db.commands[id].status, db.commands[id].result)
  }

  ghost predicate DeliveryDecided(p: Past, delivery: Delivery) {
    match delivery.phase
    case Finishing(result) => Decided(p, delivery.id, delivery.request, Applied, result)
    case BeginReject(error) => Decided(p, delivery.id, delivery.request, Rejected, error)
    case Rejecting(error) => Decided(p, delivery.id, delivery.request, Rejected, error)
    case _ => true
  }

  ghost predicate AllDecided(p: Past, w: World) {
    && RowsDecided(p, w.db)
    && (w.owner.Some? ==> RowsDecided(p, w.draft))
    && (forall d :: 0 <= d < |w.deliveries| ==> DeliveryDecided(p, w.deliveries[d]))
  }

  // What running the effect now decides.
  ghost predicate VerdictKnown(p: Past, db: Db, delivery: Delivery) {
    match p.effect(delivery.request, db.data)
    case Accept(_, result) => Decided(p, delivery.id, delivery.request, Applied, result)
    case Refuse(error) => Decided(p, delivery.id, delivery.request, Rejected, error)
  }

  lemma TurnDecides(p: Past, db: Db, draft: Db, delivery: Delivery, broken: bool)
    requires CanRun(db, draft, delivery) && DeliveryKept(db, draft, delivery)
    requires Locks(delivery.phase) ==> DraftKept(p.effect, p.start, db, draft, delivery) && RowsDecided(p, draft)
    requires RowsDecided(p, db) && DeliveryDecided(p, delivery)
    requires delivery.phase == RunEffect && !broken ==> VerdictKnown(p, db, delivery)
    ensures var turn := Took(p.effect, db, draft, delivery, broken);
      && RowsDecided(p, turn.db)
      && (turn.holds ==> RowsDecided(p, turn.draft))
      && DeliveryDecided(p, delivery.(phase := turn.phase))
  {
    hide Sound, Grows, Decided, Enqueues;
  }

  lemma StepDecides(p: Past, q: Past, w: World, a: Action)
    requires q.actions != [] && p == q.(actions := q.actions[..|q.actions| - 1]) && a == q.actions[|q.actions| - 1]
    requires Run(p.effect, Begun(p.missions, p.start), p.actions) == Some(w) && Enabled(w, a)
    requires Kept(p.effect, p.start, w) && AllDecided(p, w)
    ensures AllDecided(q, Apply(p.effect, w, a))
  {
    DecidedStays(p, q);
    assert AllDecided(q, w) by {
      hide Decided, Kept, Run, Enabled;
    }
    if a.Advance? {
      var delivery := w.deliveries[a.d];
      assert DeliveryKept(w.db, w.draft, delivery) && DeliveryDecided(q, delivery);
      assert Locks(delivery.phase) ==> w.owner == Some(a.d);
      if delivery.phase == RunEffect && !a.broken {
        VerdictComesKnown(p, q, w, a);
      }
      TurnDecides(q, w.db, w.draft, delivery, a.broken);
      if !Locks(delivery.phase) {
        TurnLeavesDraft(q.effect, w.db, w.draft, delivery, a.broken);
      }
      hide Took, RowsDecided, DeliveryDecided, DeliveryKept, DraftKept, Locks, Kept, Run;
    } else {
      hide Decided, Kept, Run;
    }
  }

  lemma VerdictComesKnown(p: Past, q: Past, w: World, a: Action)
    requires q.actions != [] && p == q.(actions := q.actions[..|q.actions| - 1]) && a == q.actions[|q.actions| - 1]
    requires Run(p.effect, Begun(p.missions, p.start), p.actions) == Some(w)
    requires a.Advance? && a.d < |w.deliveries| && !a.broken && w.deliveries[a.d].phase == RunEffect
    ensures VerdictKnown(q, w.db, w.deliveries[a.d])
  {
    var n, delivery := |q.actions| - 1, w.deliveries[a.d];
    match q.effect(delivery.request, w.db.data) {
      case Accept(_, result) => assert DecidedAt(q, n, delivery.id, delivery.request, Applied, result);
      case Refuse(error) => assert DecidedAt(q, n, delivery.id, delivery.request, Rejected, error);
    }
  }

  lemma {:induction false} RunsDecide(p: Past, w: World)
    requires Run(p.effect, Begun(p.missions, p.start), p.actions) == Some(w)
    ensures AllDecided(p, w)
    decreases |p.actions|
  {
    if p.actions != [] {
      var shorter, a := p.(actions := p.actions[..|p.actions| - 1]), p.actions[|p.actions| - 1];
      var before := Run(p.effect, Begun(p.missions, p.start), shorter.actions).value;
      RunsDecide(shorter, before);
      RunsKeep(p.effect, p.missions, p.start, shorter.actions, before);
      StepDecides(shorter, p, before, a);
    }
  }

  // A command is stored as applied, or as rejected, only after some statement ran the effect on its request and on
  // the data of that moment and it accepted, or refused, with just the text that is stored.
  lemma OutcomesWereDecided(effect: Effect, missions: set<string>, start: Data, actions: seq<Action>, w: World, id: CommandId)
    requires Run(effect, Begun(missions, start), actions) == Some(w)
    requires id in w.db.commands && w.db.commands[id].status != Queued
    ensures exists n :: 0 <= n < |actions| && DecidedAt(Past(effect, missions, start, actions), n, id,
                          w.db.commands[id].request, w.db.commands[id].status, w.db.commands[id].result)
  {
    RunsDecide(Past(effect, missions, start, actions), w);
  }

  // ----- A redelivery completes -----

  // Delivery d runs k statements with nothing in between.
  function Solo(effect: Effect, w: World, d: nat, k: nat): Option<World>
    decreases k
  {
    if k == 0 then Some(w)
    else if !Enabled(w, Advance(d, false)) then None
    else Solo(effect, Next(effect, w, d, false), d, k - 1)
  }

  // Statements left, at most.
  function Left(phase: Phase): nat {
    match phase
    case Arrived => 11
    case Enqueueing => 10
    case CommitEnqueue(_) => 9
    case ReadingBack => 8
    case Examining(_) => 7
    case BeginApply => 6
    case Rechecking => 5
    case RunEffect => 4
    case BeginReject(_) => 3
    case Finishing(_) => 2
    case Rejecting(_) => 2
    case CommitReturn(_) => 1
    case _ => 0
  }

  lemma TurnEnds(effect: Effect, db: Db, draft: Db, delivery: Delivery, broken: bool)
    requires CanRun(db, draft, delivery)
    ensures Left(Took(effect, db, draft, delivery, broken).phase) < Left(delivery.phase)
  {
    hide Enqueues, Enqueued, Changed, Finished;
  }

  function Statements(actions: seq<Action>, d: nat): nat {
    if actions == [] then 0
    else
      var a := actions[|actions| - 1];
      Statements(actions[..|actions| - 1], d) + if a.Advance? && a.d == d then 1 else 0
  }

  // No delivery ever runs more than eleven statements, whatever runs between them.
  lemma {:induction false} DeliveriesEnd(effect: Effect, missions: set<string>, start: Data, actions: seq<Action>,
                                         w: World, d: nat)
    requires Run(effect, Begun(missions, start), actions) == Some(w)
    ensures Statements(actions, d) <= 11
    ensures if d < |w.deliveries| then Statements(actions, d) + Left(w.deliveries[d].phase) <= 11
            else Statements(actions, d) == 0
  {
    if actions != [] {
      var before, a := Run(effect, Begun(missions, start), actions[..|actions| - 1]).value, actions[|actions| - 1];
      DeliveriesEnd(effect, missions, start, actions[..|actions| - 1], before, d);
      if a.Advance? {
        TurnEnds(effect, before.db, before.draft, before.deliveries[a.d], a.broken);
      }
      hide Took, CanRun, Locks, Begins;
    }
  }

  lemma StuckNever(effect: Effect, start: Data, w: World, d: nat)
    requires Kept(effect, start, w) && d < |w.deliveries| && !Over(w.deliveries[d].phase)
    requires Begins(w.deliveries[d].phase) ==> w.owner == None
    ensures Enabled(w, Advance(d, false)) && Enabled(w, Advance(d, true))
  {
    assert DeliveryKept(w.db, w.draft, w.deliveries[d]);
    hide Sound, DraftKept;
  }

  // What one uninterrupted delivery should make of database `db`.
  function Outcome(effect: Effect, db: Db, id: CommandId, request: Request): Db {
    if id in db.commands && db.commands[id].status != Queued then db
    else
      match effect(request, db.data)
      case Accept(data, result) =>
        Db(db.missions, db.commands[id := Command(request, Applied, result)], data, db.history + [ByCommand(id)])
      case Refuse(error) => db.(commands := db.commands[id := Command(request, Rejected, error)])
  }

  function Queueing(db: Db, id: CommandId, request: Request): Db {
    if id in db.commands then db else db.(commands := db.commands[id := Command(request, Queued, "")])
  }

  predicate Open(db: Db, id: CommandId) {
    id in db.commands && db.commands[id].status == Queued
  }

  // A delivery that began in database `first`, for a request that can be queued there, and ran undisturbed
  // since is on its way to that outcome.
  predicate Heads(effect: Effect, first: Db, db: Db, draft: Db, delivery: Delivery) {
    var id, request := delivery.id, delivery.request;
    var queued, end := Queueing(first, id, request), Outcome(effect, first, id, request);
    && (id in first.commands ==> first.commands[id].request == request)
    && match delivery.phase
       case Arrived => db == first && Enqueues(first, id, request)
       case Enqueueing => db == first && draft == first && Enqueues(first, id, request)
       case CommitEnqueue(prior) =>
         draft == queued && prior == if id in first.commands then Some(first.commands[id]) else None
       case ReadingBack => db == queued && id in queued.commands
       case Examining(seen) => db == queued && id in queued.commands && seen == queued.commands[id]
       case BeginApply => db == queued && Open(queued, id)
       case Rechecking => db == queued && draft == queued && Open(queued, id)
       case RunEffect => db == queued && draft == queued && Open(queued, id)
       case Finishing(result) =>
         && Open(queued, id) && draft.commands == queued.commands && draft.missions == first.missions
         && draft.history == first.history + [ByCommand(id)]
         && effect(request, first.data) == Accept(draft.data, result)
       case BeginReject(error) => db == queued && Open(queued, id) && effect(request, first.data) == Refuse(error)
       case Rejecting(error) => draft == queued && Open(queued, id) && effect(request, first.data) == Refuse(error)
       case CommitReturn(reply) => draft == end && id in end.commands && reply == end.commands[id]
       case Returned(reply) => db == end && id in end.commands && reply == end.commands[id]
       case Raised => false
       case Crashed => false
  }

  lemma TurnHeads(effect: Effect, first: Db, db: Db, draft: Db, delivery: Delivery)
    requires CanRun(db, draft, delivery) && Heads(effect, first, db, draft, delivery)
    ensures var turn := Took(effect, db, draft, delivery, false);
      Heads(effect, first, turn.db, turn.draft, delivery.(phase := turn.phase))
  {
    hide Enqueues;
    var id, request := delivery.id, delivery.request;
    match delivery.phase {
      case Finishing(result) => FinishedIsOutcome(effect, first, draft, id, request, result);
      case Rejecting(error) => RejectedIsOutcome(effect, first, id, request, error);
      case _ =>
    }
  }

  lemma FinishedIsOutcome(effect: Effect, first: Db, draft: Db, id: CommandId, request: Request, result: string)
    requires Open(Queueing(first, id, request), id) && (id in first.commands ==> first.commands[id].request == request)
    requires draft.commands == Queueing(first, id, request).commands && draft.missions == first.missions
    requires draft.history == first.history + [ByCommand(id)] && effect(request, first.data) == Accept(draft.data, result)
    ensures Finished(draft, id, Applied, result) == Outcome(effect, first, id, request)
  {
    assert draft.commands[id := Command(request, Applied, result)] == first.commands[id := Command(request, Applied, result)];
  }

  lemma RejectedIsOutcome(effect: Effect, first: Db, id: CommandId, request: Request, error: string)
    requires Open(Queueing(first, id, request), id) && (id in first.commands ==> first.commands[id].request == request)
    requires effect(request, first.data) == Refuse(error)
    ensures Finished(Queueing(first, id, request), id, Rejected, error) == Outcome(effect, first, id, request)
  {
    assert Queueing(first, id, request).commands[id := Command(request, Rejected, error)]
        == first.commands[id := Command(request, Rejected, error)];
  }

  lemma SoloStep(effect: Effect, start: Data, first: Db, w: World, d: nat)
    requires Kept(effect, start, w) && d < |w.deliveries| && !Over(w.deliveries[d].phase)
    requires (w.owner == None || w.owner == Some(d)) && Heads(effect, first, w.db, w.draft, w.deliveries[d])
    ensures Enabled(w, Advance(d, false))
    ensures var next := Next(effect, w, d, false);
      && Kept(effect, start, next)
      && |next.deliveries| == |w.deliveries| && next.deliveries[d] == w.deliveries[d].(phase := next.deliveries[d].phase)
      && (next.owner == None || next.owner == Some(d))
      && Heads(effect, first, next.db, next.draft, next.deliveries[d])
      && Left(next.deliveries[d].phase) < Left(w.deliveries[d].phase)
  {
    LocksOfOthers(effect, start, w, d);
    StuckNever(effect, start, w, d);
    StepKeeps(effect, start, w, Advance(d, false));
    TurnEnds(effect, w.db, w.draft, w.deliveries[d], false);
    TurnHeads(effect, first, w.db, w.draft, w.deliveries[d]);
    hide Kept, Took, Left, CanRun, Heads;
  }

  lemma LocksOfOthers(effect: Effect, start: Data, w: World, d: nat)
    requires Kept(effect, start, w) && d < |w.deliveries| && (w.owner == None || w.owner == Some(d))
    ensures Begins(w.deliveries[d].phase) || Over(w.deliveries[d].phase) ==> w.owner == None
  {
    hide Sound, DeliveryKept, DraftKept;
    assert Locks(w.deliveries[d].phase) <==> w.owner == Some(d);
  }

  lemma {:induction false} SoloReturns(effect: Effect, start: Data, first: Db, w: World, d: nat) returns (k: nat)
    requires Kept(effect, start, w) && d < |w.deliveries|
    requires (w.owner == None || w.owner == Some(d)) && Heads(effect, first, w.db, w.draft, w.deliveries[d])
    ensures k <= Left(w.deliveries[d].phase) && Solo(effect, w, d, k).Some?
    ensures var end := Solo(effect, w, d, k).value;
      && d < |end.deliveries| && end.deliveries[d] == w.deliveries[d].(phase := end.deliveries[d].phase)
      && Over(end.deliveries[d].phase) && end.owner == None
      && Heads(effect, first, end.db, end.draft, end.deliveries[d])
    decreases Left(w.deliveries[d].phase)
  {
    SoloUnfolds(effect, w, d);
    if Over(w.deliveries[d].phase) {
      k := 0;
      LocksOfOthers(effect, start, w, d);
    } else {
      SoloStep(effect, start, first, w, d);
      hide *;
      var next := Next(effect, w, d, false);
      var rest := SoloReturns(effect, start, first, next, d);
      k := rest + 1;
    }
  }

  lemma SoloUnfolds(effect: Effect, w: World, d: nat)
    ensures Solo(effect, w, d, 0) == Some(w)
    ensures Enabled(w, Advance(d, false)) ==> forall k: nat ::
      Solo(effect, w, d, k + 1) == Solo(effect, Next(effect, w, d, false), d, k)
  {
    hide Enabled, Next;
  }

  // What the regular expression of a command id accepts.
  lemma IdIsValid(id: CommandId)
    ensures ValidId(id) <==>
      (id != "" && forall c :: c in id ==>
         'A' <= c <= 'Z' || 'a' <= c <= 'z' || '0' <= c <= '9' || c == '_' || c == '.' || c == '-')
  {
    assert forall c :: c in "_.-" <==> c == '_' || c == '.' || c == '-';
    if ValidId(id) {
      forall c | c in id
        ensures IdChar(c)
      {
        var i :| 0 <= i < |id| && id[i] == c;
      }
    } else if id != "" {
      var i :| 0 <= i < |id| && !IdChar(id[i]);
      assert id[i] in id;
    }
  }

  // Whatever crashed before, once nobody holds the lock a delivery that is let run returns within eleven statements,
  // and the database is then as it should be: a finished command's outcome is returned and nothing changes; else what
  // the effect makes of the present data is stored with the reply Applied, or its refusal with the data untouched.
  lemma RedeliveryCompletes(effect: Effect, missions: set<string>, start: Data, actions: seq<Action>, w: World,
                            id: CommandId, request: Request) returns (k: nat)
    requires Run(effect, Begun(missions, start), actions) == Some(w) && w.owner == None
    requires id != "" && forall c :: c in id ==>
      'A' <= c <= 'Z' || 'a' <= c <= 'z' || '0' <= c <= '9' || c == '_' || c == '.' || c == '-'
    requires request.mission in w.db.missions
    requires id in w.db.commands ==> w.db.commands[id].request == request
    ensures k <= 11 && Solo(effect, Apply(effect, w, Deliver(id, request)), |w.deliveries|, k).Some?
    ensures var end := Solo(effect, Apply(effect, w, Deliver(id, request)), |w.deliveries|, k).value;
      && |w.deliveries| < |end.deliveries| && end.deliveries[|w.deliveries|].phase.Returned? && end.owner == None
      && var reply := end.deliveries[|w.deliveries|].phase.reply;
         if id in w.db.commands && w.db.commands[id].status != Queued then reply == w.db.commands[id] && end.db == w.db
         else
           && end.db.missions == w.db.missions && end.db.commands == w.db.commands[id := reply]
           && match effect(request, w.db.data)
              case Accept(data, result) =>
                && reply == Command(request, Applied, result)
                && end.db.data == data && end.db.history == w.db.history + [ByCommand(id)]
              case Refuse(error) =>
                && reply == Command(request, Rejected, error)
                && end.db.data == w.db.data && end.db.history == w.db.history
  {
    IdIsValid(id);
    RunsKeep(effect, missions, start, actions, w);
    StepKeeps(effect, start, w, Deliver(id, request));
    var first := Apply(effect, w, Deliver(id, request));
    assert Heads(effect, w.db, first.db, first.draft, first.deliveries[|w.deliveries|]);
    assert first.owner == None && first.deliveries[|w.deliveries|] == Delivery(id, request, Arrived);
    assert Left(Arrived) == 11;
    hide *;
    k := SoloReturns(effect, start, w.db, first, |w.deliveries|);
    var end := Solo(effect, first, |w.deliveries|, k).value;
    OverIsOutcome(effect, w.db, end.db, end.draft, end.deliveries[|w.deliveries|]);
  }

  lemma OverIsOutcome(effect: Effect, first: Db, db: Db, draft: Db, delivery: Delivery)
    requires Heads(effect, first, db, draft, delivery) && Over(delivery.phase)
    ensures delivery.phase.Returned?
    ensures var id, request, reply := delivery.id, delivery.request, delivery.phase.reply;
      if id in first.commands && first.commands[id].status != Queued then reply == first.commands[id] && db == first
      else
        && db.missions == first.missions && db.commands == first.commands[id := reply]
        && match effect(request, first.data)
           case Accept(data, result) =>
             && reply == Command(request, Applied, result)
             && db.data == data && db.history == first.history + [ByCommand(id)]
           case Refuse(error) =>
             && reply == Command(request, Rejected, error)
             && db.data == first.data && db.history == first.history
  {
  }

  // A delivery with an unusable id, for an unknown mission, or for another request than the one stored under its id
  // raises at its second statement and changes nothing.
  lemma UnfitIsRaised(effect: Effect, w: World, id: CommandId, request: Request)
    requires w.owner == None
    requires || id == ""
             || (exists c :: c in id &&
                   !('A' <= c <= 'Z' || 'a' <= c <= 'z' || '0' <= c <= '9' || c == '_' || c == '.' || c == '-'))
             || request.mission !in w.db.missions
             || (id in w.db.commands && w.db.commands[id].request != request)
    ensures var end := Solo(effect, Apply(effect, w, Deliver(id, request)), |w.deliveries|, 2);
      && end.Some? && end.value.db == w.db && end.value.owner == None
      && end.value.deliveries == w.deliveries + [Delivery(id, request, Raised)]
  {
    IdIsValid(id);
    var first := Apply(effect, w, Deliver(id, request));
    var second := Next(effect, first, |w.deliveries|, false);
    SoloUnfolds(effect, first, |w.deliveries|);
    SoloUnfolds(effect, second, |w.deliveries|);
    var third := Next(effect, second, |w.deliveries|, false);
    SoloUnfolds(effect, third, |w.deliveries|);
    assert Solo(effect, first, |w.deliveries|, 1 + 1) == Solo(effect, second, |w.deliveries|, 0 + 1) == Some(third);
  }

  // ----- One delivery alone -----

  class BridgeStore {
    const effect: Effect
    var db: Db

    constructor (effect: Effect, missions: set<string>, data: Data)
      ensures this.effect == effect && db == Db(missions, map[], data, [])
    {
      this.effect := effect;
      db := Db(missions, map[], data, []);
    }

    // None is an exception that reaches the caller.
    method ApplyOperatorCommand(id: CommandId, request: Request, broken: bool) returns (reply: Option<Command>)
      modifies this
      ensures
        var unfit :=
          || id == ""
          || (exists c :: c in id &&
                !('A' <= c <= 'Z' || 'a' <= c <= 'z' || '0' <= c <= '9' || c == '_' || c == '.' || c == '-'))
          || request.mission !in old(db).missions
          || (id in old(db).commands && old(db).commands[id].request != request);
        && (reply == None <==> unfit || (broken && (id in old(db).commands ==> old(db).commands[id].status == Queued)))
        && (reply == None ==> db == if unfit || id in old(db).commands then old(db)
                                    else old(db).(commands := old(db).commands[id := Command(request, Queued, "")]))
      ensures reply.Some? && id in old(db).commands && old(db).commands[id].status != Queued ==>
        reply.value == old(db).commands[id] && db == old(db)
      ensures reply.Some? && (id in old(db).commands ==> old(db).commands[id].status == Queued) ==>
        match effect(request, old(db).data)
        case Accept(data, result) =>
          && reply.value == Command(request, Applied, result)
          && db == Db(old(db).missions, old(db).commands[id := reply.value], data, old(db).history + [ByCommand(id)])
        case Refuse(error) =>
          && reply.value == Command(request, Rejected, error)
          && db == old(db).(commands := old(db).commands[id := reply.value])
    {
      IdIsValid(id);
      if !Enqueues(db, id, request) {
        return None;
      }
      db := Enqueued(db, id, request);
      var command := db.commands[id];
      if command.status != Queued {
        return Some(command);
      }
      var saved := db;
      var current := db.commands[id];
      if current.status != Queued {
        return Some(current);
      }
      if broken {
        db := saved;
        return None;
      }
      match effect(request, db.data)
      case Accept(data, result) =>
        db := Changed(db, id, data);
        db := Finished(db, id, Applied, result);
        return Some(db.commands[id]);
      case Refuse(error) =>
        db := saved;
        db := Finished(db, id, Rejected, error);
        return Some(db.commands[id]);
    }
  }
}
