// The order of the agent list among siblings and among true roots.
module ForestOrder {
  import opened Common
  import opened Forest

  // A row of x comes before a row of y.
  ghost predicate Earlier(out: seq<Entry>, x: Agent, y: Agent) {
    exists i, j :: 0 <= i < j < |out| && out[i].0 == x && out[j].0 == y
  }

  lemma EarlierCons(head: Entry, rest: seq<Entry>, x: Agent, y: Agent)
    requires Earlier(rest, x, y)
    ensures Earlier([head] + rest, x, y)
  {
    var i, j :| 0 <= i < j < |rest| && rest[i].0 == x && rest[j].0 == y;
    var out := [head] + rest;
    assert out[i + 1] == rest[i] && out[j + 1] == rest[j];
  }

  lemma EarlierHead(head: Entry, rest: seq<Entry>, y: Agent, nodes: seq<Agent>)
    requires Distinct(nodes) && Listed(nodes, rest) && y in nodes && y.id in Ids(rest)
    ensures Earlier([head] + rest, head.0, y)
  {
    var e :| e in rest && e.0.id == y.id;
    var j :| 0 <= j < |rest| && rest[j] == e;
    OnlyOneHasId(nodes, e.0, y);
    var out := [head] + rest;
    assert out[0].0 == head.0 && out[j + 1].0 == y;
  }

  // `x` stands at `i` on the stack and `y` not above it; neither was visited, and `y` will be.
  ghost predicate Waits(nodes: seq<Agent>, todo: seq<Entry>, seen: set<string>, i: nat, x: Agent, y: Agent) {
    && Awaits(nodes, todo, seen, y) && ParentIn(nodes, y, seen)
    && i < |todo| && todo[i].0 == x && x.id !in seen && x != y
    && forall k :: 0 <= k < i ==> todo[k].0 != y
  }

  lemma StartsWaiting(nodes: seq<Agent>, todo: seq<Entry>, seen: set<string>, i: nat, x: Agent, y: Agent)
    requires Awaits(nodes, todo, seen, y) && ParentIn(nodes, y, seen)
    requires i < |todo| && todo[i].0 == x && x.id !in seen && x != y
    requires forall k :: 0 <= k < i ==> todo[k].0 != y
    ensures Waits(nodes, todo, seen, i, x, y)
  {
  }

  lemma DropTop(nodes: seq<Agent>, todo: seq<Entry>, seen: set<string>, i: nat, x: Agent, y: Agent)
    requires Waits(nodes, todo, seen, i, x, y) && todo[0].0.id in seen
    ensures i > 0 && Waits(nodes, todo[1..], seen, i - 1, x, y)
  {
    hide Walk, Ready, Listed;
    AwaitsStep(nodes, todo, seen, y);
    assert todo[1..][i - 1] == todo[i];
  }

  lemma PushKids(nodes: seq<Agent>, todo: seq<Entry>, seen: set<string>, i: nat, x: Agent, y: Agent)
    requires Waits(nodes, todo, seen, i, x, y) && todo[0].0.id !in seen && todo[0].0 != x
    ensures i > 0 && todo[0].0.id != y.id
    ensures Waits(nodes, Next(nodes, todo), seen + {todo[0].0.id}, |Kids(nodes, todo[0].0.id)| + i - 1, x, y)
  {
    var top, kids, next := todo[0].0, Kids(nodes, todo[0].0.id), Next(nodes, todo);
    BothNamed(nodes, todo, seen, i, x, y);
    AwaitsStep(nodes, todo, seen, y);
    NotAmongKids(nodes, top, seen, y);
    NextAt(nodes, todo);
    hide Kids, Walk, Next, Ready, Awaits;
    assert ParentIn(nodes, y, seen + {top.id});
    forall k | 0 <= k < |kids| + i - 1
      ensures next[k].0 != y
    {
      assert k < |kids| ==> next[k].0 == kids[k];
      assert k >= |kids| ==> next[k] == todo[k - |kids| + 1];
    }
  }

  lemma BothNamed(nodes: seq<Agent>, todo: seq<Entry>, seen: set<string>, i: nat, x: Agent, y: Agent)
    requires Waits(nodes, todo, seen, i, x, y) && todo[0].0 != x
    ensures i > 0 && todo[0].0 in nodes && Distinct(nodes) && todo[0].0.id != x.id && todo[0].0.id != y.id
  {
    hide Walk;
    assert todo[0] in todo && todo[i] in todo;
    if todo[0].0.id == x.id {
      OnlyOneHasId(nodes, todo[0].0, x);
    }
    if todo[0].0.id == y.id {
      OnlyOneHasId(nodes, todo[0].0, y);
    }
  }

  lemma NotAmongKids(nodes: seq<Agent>, top: Agent, seen: set<string>, y: Agent)
    requires Distinct(nodes) && top in nodes && top.id !in seen && ParentIn(nodes, y, seen)
    ensures forall k :: 0 <= k < |Kids(nodes, top.id)| ==> Kids(nodes, top.id)[k] != y
  {
    KidsMembers(nodes, top.id);
    var kids := Kids(nodes, top.id);
    hide Kids;
    forall k | 0 <= k < |kids|
      ensures kids[k] != y
    {
      assert kids[k] in kids;
      if kids[k] == y {
        ChildUp(nodes, top, y);
      }
    }
  }

  // The one nearer the top of the stack is shown first.
  lemma {:induction false} StackOrder(nodes: seq<Agent>, todo: seq<Entry>, seen: set<string>, i: nat, x: Agent, y: Agent)
    requires Waits(nodes, todo, seen, i, x, y)
    ensures Earlier(Walk(nodes, todo, seen), x, y)
    decreases Unseen(nodes, seen), |todo|
  {
    assert i < |todo| && Listed(nodes, todo);
    hide *;
    if todo[0].0.id in seen {
      SkipSeen(nodes, todo, seen, i, x, y);
      StackOrder(nodes, todo[1..], seen, i - 1, x, y);
    } else if todo[0].0 == x {
      ShowTop(nodes, todo, seen, i, x, y);
    } else {
      var next, more, at := ShowOther(nodes, todo, seen, i, x, y);
      StackOrder(nodes, next, more, at, x, y);
      EarlierCons(Shown(todo[0]), Walk(nodes, next, more), x, y);
    }
  }

  lemma SkipSeen(nodes: seq<Agent>, todo: seq<Entry>, seen: set<string>, i: nat, x: Agent, y: Agent)
    requires Waits(nodes, todo, seen, i, x, y) && todo[0].0.id in seen
    ensures i > 0 && Waits(nodes, todo[1..], seen, i - 1, x, y)
    ensures Listed(nodes, todo) && Listed(nodes, todo[1..]) && Walk(nodes, todo, seen) == Walk(nodes, todo[1..], seen)
  {
    WaitsFacts(nodes, todo, seen, i, x, y);
    hide Waits, Walk, Listed;
    DropTop(nodes, todo, seen, i, x, y);
  }

  lemma ShowTop(nodes: seq<Agent>, todo: seq<Entry>, seen: set<string>, i: nat, x: Agent, y: Agent)
    requires Waits(nodes, todo, seen, i, x, y) && todo[0].0.id !in seen && todo[0].0 == x
    ensures Listed(nodes, todo) && Earlier(Walk(nodes, todo, seen), x, y)
  {
    WaitsFacts(nodes, todo, seen, i, x, y);
    hide Waits, Walk, Listed, Earlier;
    TopFirst(nodes, todo, seen, y);
  }

  lemma ShowOther(nodes: seq<Agent>, todo: seq<Entry>, seen: set<string>, i: nat, x: Agent, y: Agent)
    returns (next: seq<Entry>, more: set<string>, at: nat)
    requires Waits(nodes, todo, seen, i, x, y) && todo[0].0.id !in seen && todo[0].0 != x
    ensures Waits(nodes, next, more, at, x, y) && Unseen(nodes, more) < Unseen(nodes, seen)
    ensures Listed(nodes, todo) && Listed(nodes, next)
    ensures Walk(nodes, todo, seen) == [Shown(todo[0])] + Walk(nodes, next, more)
  {
    WaitsFacts(nodes, todo, seen, i, x, y);
    hide Waits, Walk, Listed, Next, Kids, Unseen;
    PushKids(nodes, todo, seen, i, x, y);
    next, more, at := Next(nodes, todo), seen + {todo[0].0.id}, |Kids(nodes, todo[0].0.id)| + i - 1;
  }

  // What unfolding the walk by one entry gives.
  lemma WaitsFacts(nodes: seq<Agent>, todo: seq<Entry>, seen: set<string>, i: nat, x: Agent, y: Agent)
    requires Waits(nodes, todo, seen, i, x, y)
    ensures Awaits(nodes, todo, seen, y) && x != y && Listed(nodes, todo) && todo != []
    ensures Listed(nodes, todo[1..]) && Listed(nodes, Next(nodes, todo))
    ensures Walk(nodes, todo, seen) ==
      if todo[0].0.id in seen then Walk(nodes, todo[1..], seen)
      else [Shown(todo[0])] + Walk(nodes, Next(nodes, todo), seen + {todo[0].0.id})
    ensures todo[0].0.id !in seen ==> Unseen(nodes, seen + {todo[0].0.id}) < Unseen(nodes, seen)
    ensures todo[0].0 == x ==> todo[0].0.id != y.id
  {
    hide Walk, Next, Listed, Unseen;
    assert Listed(nodes, todo);
    WalkUnfolds(nodes, todo, seen);
    VisitListed(nodes, todo, seen);
    if todo[0].0 == x && todo[0].0.id == y.id {
      OnlyOneHasId(nodes, x, y);
    }
  }

  lemma TopFirst(nodes: seq<Agent>, todo: seq<Entry>, seen: set<string>, y: Agent)
    requires Awaits(nodes, todo, seen, y) && todo != [] && todo[0].0.id !in seen && todo[0].0.id != y.id
    ensures Earlier(Walk(nodes, todo, seen), todo[0].0, y)
  {
    AwaitsStep(nodes, todo, seen, y);
    var more := seen + {todo[0].0.id};
    WalkVisits(nodes, Next(nodes, todo), more);
    hide Walk, Next;
    EarlierHead(Shown(todo[0]), Walk(nodes, Next(nodes, todo), more), y, nodes);
    ShownSame(todo[0]);
  }

  // ----- Siblings -----

  lemma KidsAscend(nodes: seq<Agent>, id: string, i: nat, j: nat)
    requires i < j < |Kids(nodes, id)|
    ensures Kids(nodes, id)[i].childKey <= Kids(nodes, id)[j].childKey
  {
    var down := Descendants(nodes, id);
    SortByProps(ChildKeyDown(), Filter(ChildOf(id), nodes));
    hide SortBy, Filter;
    assert SortedBy(ChildKeyDown(), down);
    assert Kids(nodes, id)[i] == down[|down| - 1 - i] && Kids(nodes, id)[j] == down[|down| - 1 - j];
  }

  ghost predicate Siblings(nodes: seq<Agent>, p: Agent, a: Agent, b: Agent) {
    && p in nodes && a in nodes && b in nodes
    && a.parent == Some(p.id) && b.parent == Some(p.id) && a.childKey < b.childKey
  }

  lemma KidPlace(nodes: seq<Agent>, p: Agent, a: Agent, b: Agent) returns (i: nat)
    requires Siblings(nodes, p, a, b)
    ensures i < |Kids(nodes, p.id)| && Kids(nodes, p.id)[i] == a
    ensures forall k :: 0 <= k < i ==> Kids(nodes, p.id)[k] != b
  {
    KidsMembers(nodes, p.id);
    hide Kids;
    i :| 0 <= i < |Kids(nodes, p.id)| && Kids(nodes, p.id)[i] == a;
    forall k | 0 <= k < i
      ensures Kids(nodes, p.id)[k] != b
    {
      KidsAscend(nodes, p.id, k, i);
    }
  }

  // A child of an agent that was not visited was not visited either.
  lemma KidUnseen(nodes: seq<Agent>, todo: seq<Entry>, seen: set<string>, p: Agent, a: Agent)
    requires Ready(nodes, todo, seen) && todo != [] && todo[0].0 == p && p.id !in seen
    requires a in nodes && a.parent == Some(p.id)
    ensures a.id !in seen + {p.id} && ParentIn(nodes, a, seen + {p.id})
  {
    assert todo[0] in todo;
    ChildUp(nodes, p, a);
    if a.id == p.id {
      OnlyOneHasId(nodes, a, p);
    }
  }

  lemma KidAwaited(nodes: seq<Agent>, todo: seq<Entry>, seen: set<string>, p: Agent, a: Agent)
    requires Ready(nodes, todo, seen) && todo != [] && todo[0].0 == p && p.id !in seen
    requires a in nodes && a.parent == Some(p.id)
    ensures Awaits(nodes, Next(nodes, todo), seen + {p.id}, a)
  {
    KidUnseen(nodes, todo, seen, p, a);
    ReadyStep(nodes, todo, seen);
    KidsMembers(nodes, p.id);
    var kids, next := Kids(nodes, p.id), Next(nodes, todo);
    WalkVisits(nodes, next, seen + {p.id});
    hide Kids, Walk, Ready;
    var j :| 0 <= j < |kids| && kids[j] == a;
    assert next[j] in next && next[j].0 == a;
  }

  lemma NextAt(nodes: seq<Agent>, todo: seq<Entry>)
    requires todo != []
    ensures var kids, next := Kids(nodes, todo[0].0.id), Next(nodes, todo);
      && |next| == |kids| + |todo| - 1
      && (forall k :: 0 <= k < |kids| ==> next[k].0 == kids[k])
      && (forall k :: |kids| <= k < |next| ==> next[k] == todo[k - |kids| + 1])
  {
    hide Kids;
  }

  // When the parent is popped, both children are put on the stack in order.
  lemma ParentPopped(nodes: seq<Agent>, todo: seq<Entry>, seen: set<string>, p: Agent, a: Agent, b: Agent)
    requires Awaits(nodes, todo, seen, p) && todo != [] && todo[0].0 == p && Siblings(nodes, p, a, b)
    ensures Earlier(Walk(nodes, todo, seen), a, b)
  {
    var next, more := Next(nodes, todo), seen + {p.id};
    var i := KidPlace(nodes, p, a, b);
    KidUnseen(nodes, todo, seen, p, a);
    KidUnseen(nodes, todo, seen, p, b);
    KidAwaited(nodes, todo, seen, p, b);
    NextAt(nodes, todo);
    ReadyStep(nodes, todo, seen);
    AwaitsStep(nodes, todo, seen, p);
    assert a != b;
    hide *;
    var kids := Kids(nodes, p.id);
    forall k | 0 <= k < i
      ensures next[k].0 != b
    {
      assert next[k].0 == kids[k];
    }
    StartsWaiting(nodes, next, more, i, a, b);
    StackOrder(nodes, next, more, i, a, b);
    EarlierCons(Shown(todo[0]), Walk(nodes, next, more), a, b);
  }

  lemma TopIs(nodes: seq<Agent>, todo: seq<Entry>, seen: set<string>, p: Agent)
    requires Awaits(nodes, todo, seen, p) && todo != [] && todo[0].0.id == p.id
    ensures todo[0].0 == p
  {
    assert todo[0] in todo;
    OnlyOneHasId(nodes, p, todo[0].0);
  }

  lemma {:induction false} SiblingsInWalk(nodes: seq<Agent>, todo: seq<Entry>, seen: set<string>, p: Agent, a: Agent, b: Agent)
    requires Awaits(nodes, todo, seen, p) && Siblings(nodes, p, a, b)
    ensures Earlier(Walk(nodes, todo, seen), a, b)
    decreases Unseen(nodes, seen), |todo|
  {
    AwaitsStep(nodes, todo, seen, p);
    hide *;
    if todo[0].0.id in seen {
      SiblingsInWalk(nodes, todo[1..], seen, p, a, b);
    } else if todo[0].0.id == p.id {
      TopIs(nodes, todo, seen, p);
      ParentPopped(nodes, todo, seen, p, a, b);
    } else {
      SiblingsInWalk(nodes, Next(nodes, todo), seen + {todo[0].0.id}, p, a, b);
      EarlierCons(Shown(todo[0]), Walk(nodes, Next(nodes, todo), seen + {todo[0].0.id}), a, b);
    }
  }

  lemma EarlierInFull(nodes: seq<Agent>, a: Agent, b: Agent)
    requires Earlier(TreePart(nodes), a, b)
    ensures Earlier(Full(nodes), a, b)
  {
    var after := FullSplits(nodes);
    hide Full, TreePart;
    var i, j :| 0 <= i < j < |TreePart(nodes)| && TreePart(nodes)[i].0 == a && TreePart(nodes)[j].0 == b;
    assert Full(nodes)[i] == TreePart(nodes)[i] && Full(nodes)[j] == TreePart(nodes)[j];
  }

  // Rows are listed once, so being earlier somewhere is being earlier everywhere.
  lemma RowOrder(nodes: seq<Agent>, a: Agent, b: Agent, i: nat, j: nat)
    requires Distinct(nodes) && Earlier(Full(nodes), a, b)
    requires i < |Expected(nodes)| && j < |Expected(nodes)| && Expected(nodes)[i].0 == a && Expected(nodes)[j].0 == b
    ensures i < j
  {
    FullIsPermutation(nodes);
    hide Full;
    var full := Full(nodes);
    assert Expected(nodes)[i] == full[i] && Expected(nodes)[j] == full[j];
    var k, l :| 0 <= k < l < |full| && full[k].0 == a && full[l].0 == b;
    assert k == i && l == j;
  }

  // Below a true root, siblings are listed in the order of their keys.
  lemma SiblingsAreOrdered(agents: seq<Agent>, p: Agent, i: nat, j: nat)
    requires var nodes, rows := ById(agents), Expected(ById(agents));
      && i < |rows| && j < |rows| && InTree(nodes, p) && Siblings(nodes, p, rows[i].0, rows[j].0)
    ensures i < j
  {
    ByIdIsDictionary(agents);
    var nodes, rows := ById(agents), Expected(ById(agents));
    var a, b := rows[i].0, rows[j].0;
    RootsReady(nodes);
    var d: nat :| AtTreeDepth(nodes, p, d);
    TreeVisited(nodes, p, d);
    SiblingsInWalk(nodes, AtDepth(Roots(nodes), 0), {}, p, a, b);
    EarlierInFull(nodes, a, b);
    RowOrder(nodes, a, b, i, j);
  }

  // True roots are listed in the order of theirs.
  lemma RootsAreOrdered(agents: seq<Agent>, i: nat, j: nat)
    requires var nodes, rows := ById(agents), Expected(ById(agents));
      && i < |rows| && j < |rows| && IsRoot(nodes, rows[i].0) && IsRoot(nodes, rows[j].0)
      && rows[i].0.rootKey < rows[j].0.rootKey
    ensures i < j
  {
    ByIdIsDictionary(agents);
    var nodes, rows := ById(agents), Expected(ById(agents));
    RowsAreDistinctAgents(agents);
    assert rows[i] in rows && rows[j] in rows;
    hide Expected, ById, Full;
    RootsInWalk(nodes, rows[i].0, rows[j].0);
    RowOrder(nodes, rows[i].0, rows[j].0, i, j);
  }

  lemma RootsInWalk(nodes: seq<Agent>, a: Agent, b: Agent)
    requires Distinct(nodes) && a in nodes && b in nodes && IsRoot(nodes, a) && IsRoot(nodes, b) && a.rootKey < b.rootKey
    ensures Earlier(Full(nodes), a, b)
  {
    RootsReady(nodes);
    TreePartVisits(nodes);
    RootsMembers(nodes);
    FullIsWalk(nodes);
    var roots, todo := Roots(nodes), AtDepth(Roots(nodes), 0);
    assert Awaits(nodes, todo, {}, b);
    assert ParentIn(nodes, b, {}) && a != b;
    assert a in roots;
    RootsAt(nodes);
    hide *;
    var k :| 0 <= k < |roots| && roots[k] == a;
    RootsAscend(nodes, k, b);
    forall l | 0 <= l < k
      ensures todo[l].0 != b
    {
      assert todo[l].0 == roots[l];
    }
    StartsWaiting(nodes, todo, {}, k, a, b);
    StackOrder(nodes, todo, {}, k, a, b);
    EarlierInFull(nodes, a, b);
  }

  lemma RootsAt(nodes: seq<Agent>)
    ensures var roots, todo := Roots(nodes), AtDepth(Roots(nodes), 0);
      |todo| == |roots| && forall l :: 0 <= l < |roots| ==> todo[l].0 == roots[l]
  {
    hide Roots;
  }

  lemma RootsAscend(nodes: seq<Agent>, k: nat, b: Agent)
    requires k < |Roots(nodes)| && Roots(nodes)[k].rootKey < b.rootKey
    ensures forall l :: 0 <= l < k ==> Roots(nodes)[l] != b
  {
    SortByProps(RootKey(), Filter(RootTest(nodes), nodes));
    hide SortBy, Filter;
  }

  // ----- What every row follows -----

  predicate ChildRow(parent: Entry, e: Entry) {
    e.0.parent == Some(parent.0.id) && e.1 == if parent.1 < 64 then parent.1 + 1 else 64
  }

  // `a` may be the start of a walk while `b` still is to come: true roots come first, and then the keys decide.
  predicate StartsBefore(nodes: seq<Agent>, a: Agent, b: Agent) {
    && (IsRoot(nodes, b) ==> IsRoot(nodes, a))
    && ((IsRoot(nodes, b) <==> IsRoot(nodes, a)) ==> a.rootKey <= b.rootKey)
  }

  ghost predicate Follows(nodes: seq<Agent>, before: seq<Entry>, e: Entry) {
    if e.1 == 0 then forall b :: b in nodes && b.id !in Ids(before) ==> StartsBefore(nodes, e.0, b)
    else exists j :: 0 <= j < |before| && ChildRow(before[j], e)
  }

  ghost predicate AllFollow(nodes: seq<Agent>, done: seq<Entry>, out: seq<Entry>) {
    forall i :: 0 <= i < |out| ==> Follows(nodes, done + out[..i], out[i])
  }

  lemma NothingFollows(nodes: seq<Agent>, done: seq<Entry>)
    ensures AllFollow(nodes, done, [])
  {
  }

  lemma AllFollowCons(nodes: seq<Agent>, done: seq<Entry>, e: Entry, rest: seq<Entry>)
    requires Follows(nodes, done, e) && AllFollow(nodes, done + [e], rest)
    ensures AllFollow(nodes, done, [e] + rest)
  {
    hide Follows;
    var out := [e] + rest;
    forall i | 0 <= i < |out|
      ensures Follows(nodes, done + out[..i], out[i])
    {
      if i == 0 {
        assert done + out[..0] == done;
      } else {
        assert done + out[..i] == (done + [e]) + rest[..i - 1];
      }
    }
  }

  // An entry of the stack was put there for a row shown before.
  ghost predicate Owned(done: seq<Entry>, e: Entry) {
    e.1 > 0 && exists j :: 0 <= j < |done| && ChildRow(done[j], Shown(e))
  }

  ghost predicate AllOwned(done: seq<Entry>, upper: seq<Entry>) {
    forall e :: e in upper ==> Owned(done, e)
  }

  // The starts are all the agents, in order.
  ghost predicate AreStarts(nodes: seq<Agent>, starts: seq<Agent>) {
    && (forall b :: b in nodes <==> b in starts)
    && (forall i, j :: 0 <= i < j < |starts| ==> StartsBefore(nodes, starts[i], starts[j]))
  }

  // The rows shown so far, and a stack of entries they own above the starts from k on; the starts before k were visited.
  ghost predicate Resumes(nodes: seq<Agent>, starts: seq<Agent>, k: nat, upper: seq<Entry>, seen: set<string>, done: seq<Entry>) {
    && AreStarts(nodes, starts) && k <= |starts|
    && Listed(nodes, upper) && AllOwned(done, upper)
    && seen == Ids(done)
    && (forall i :: 0 <= i < k ==> starts[i].id in seen)
  }

  function Stack(starts: seq<Agent>, k: nat, upper: seq<Entry>): seq<Entry>
    requires k <= |starts|
  {
    upper + AtDepth(starts[k..], 0)
  }

  lemma StackListed(nodes: seq<Agent>, starts: seq<Agent>, k: nat, upper: seq<Entry>)
    requires AreStarts(nodes, starts) && k <= |starts| && Listed(nodes, upper)
    ensures Listed(nodes, Stack(starts, k, upper))
  {
    StartsListed(nodes, starts[k..]);
    hide AtDepth;
  }

  lemma StackTop(starts: seq<Agent>, k: nat, upper: seq<Entry>)
    requires k <= |starts|
    ensures Stack(starts, k, upper) == [] <==> upper == [] && k == |starts|
    ensures upper != [] ==>
      Stack(starts, k, upper)[0] == upper[0] && Stack(starts, k, upper)[1..] == Stack(starts, k, upper[1..])
    ensures upper == [] && k < |starts| ==>
      Stack(starts, k, upper)[0] == (starts[k], 0) && Stack(starts, k, upper)[1..] == Stack(starts, k + 1, [])
  {
  }

  lemma IdsOfSnoc(done: seq<Entry>, e: Entry)
    ensures Ids(done + [e]) == Ids(done) + {e.0.id}
  {
    assert forall x :: x in done + [e] <==> x in done || x == e;
  }

  lemma OwnedStays(done: seq<Entry>, e: Entry, upper: seq<Entry>)
    requires AllOwned(done, upper)
    ensures AllOwned(done + [e], upper)
  {
    forall x | x in upper
      ensures Owned(done + [e], x)
    {
      var j :| 0 <= j < |done| && ChildRow(done[j], Shown(x));
      assert (done + [e])[j] == done[j];
    }
  }

  lemma KidsOwned(nodes: seq<Agent>, done: seq<Entry>, top: Entry)
    ensures AllOwned(done + [Shown(top)], AtDepth(Kids(nodes, top.0.id), top.1 + 1))
  {
    var kids := Kids(nodes, top.0.id);
    KidsMembers(nodes, top.0.id);
    hide Kids;
    forall e | e in AtDepth(kids, top.1 + 1)
      ensures Owned(done + [Shown(top)], e)
    {
      assert e.0 in kids;
      assert ChildRow((done + [Shown(top)])[|done|], Shown(e));
    }
  }

  // The start reached is the best of the agents not shown.
  lemma StartFollows(nodes: seq<Agent>, starts: seq<Agent>, k: nat, done: seq<Entry>)
    requires AreStarts(nodes, starts) && k < |starts| && forall i :: 0 <= i < k ==> starts[i].id in Ids(done)
    ensures Follows(nodes, done, Shown((starts[k], 0)))
  {
    forall b | b in nodes && b.id !in Ids(done)
      ensures StartsBefore(nodes, starts[k], b)
    {
      var i :| 0 <= i < |starts| && starts[i] == b;
    }
  }

  // Visiting the top of the stack: its row follows, and the stack after it is again of this kind.
  lemma VisitResumes(nodes: seq<Agent>, starts: seq<Agent>, k: nat, upper: seq<Entry>, seen: set<string>, done: seq<Entry>)
    returns (k': nat, upper': seq<Entry>)
    requires Resumes(nodes, starts, k, upper, seen, done) && Stack(starts, k, upper) != []
    ensures var top := Stack(starts, k, upper)[0];
      && Follows(nodes, done, Shown(top))
      && Resumes(nodes, starts, k', upper', seen + {top.0.id}, done + [Shown(top)])
      && Next(nodes, Stack(starts, k, upper)) == Stack(starts, k', upper')
  {
    StackTop(starts, k, upper);
    var todo := Stack(starts, k, upper);
    var top := todo[0];
    var kids := AtDepth(Kids(nodes, top.0.id), top.1 + 1);
    KidsListed(nodes, top.0.id, top.1 + 1);
    KidsOwned(nodes, done, top);
    IdsOfSnoc(done, Shown(top));
    assert Next(nodes, todo) == kids + todo[1..];
    assert Shown(top).0 == top.0;
    if upper == [] {
      StartFollows(nodes, starts, k, done);
      k', upper' := k + 1, kids;
      hide Kids, AtDepth, Ids, Owned;
      assert kids + ([] + AtDepth(starts[k + 1..], 0)) == kids + AtDepth(starts[k + 1..], 0);
    } else {
      assert upper[0] in upper;
      OwnedStays(done, Shown(top), upper);
      k', upper' := k, kids + upper[1..];
      hide Kids, AtDepth, Ids, Owned;
      assert kids + (upper[1..] + AtDepth(starts[k..], 0)) == (kids + upper[1..]) + AtDepth(starts[k..], 0);
    }
  }

  lemma SkipResumes(nodes: seq<Agent>, starts: seq<Agent>, k: nat, upper: seq<Entry>, seen: set<string>, done: seq<Entry>)
    returns (k': nat, upper': seq<Entry>)
    requires Resumes(nodes, starts, k, upper, seen, done) && Stack(starts, k, upper) != []
    requires Stack(starts, k, upper)[0].0.id in seen
    ensures Resumes(nodes, starts, k', upper', seen, done)
    ensures Stack(starts, k, upper)[1..] == Stack(starts, k', upper')
  {
    StackTop(starts, k, upper);
    k', upper' := if upper == [] then k + 1 else k, if upper == [] then [] else upper[1..];
    hide AtDepth, Ids, Owned, AreStarts;
  }

  lemma {:induction false} WalkFollows(nodes: seq<Agent>, starts: seq<Agent>, k: nat, upper: seq<Entry>, seen: set<string>,
                                       done: seq<Entry>)
    requires Resumes(nodes, starts, k, upper, seen, done)
    ensures Listed(nodes, Stack(starts, k, upper))
    ensures AllFollow(nodes, done, Walk(nodes, Stack(starts, k, upper), seen))
    decreases Unseen(nodes, seen), |Stack(starts, k, upper)|
  {
    StackListed(nodes, starts, k, upper);
    var todo := Stack(starts, k, upper);
    NothingFollows(nodes, done);
    EmptyWalk(nodes, seen);
    hide *;
    if todo != [] {
      WalkUnfolds(nodes, todo, seen);
      VisitListed(nodes, todo, seen);
      if todo[0].0.id in seen {
        var k', upper' := SkipResumes(nodes, starts, k, upper, seen, done);
        WalkFollows(nodes, starts, k', upper', seen, done);
      } else {
        var k', upper' := VisitResumes(nodes, starts, k, upper, seen, done);
        var more := seen + {todo[0].0.id};
        WalkFollows(nodes, starts, k', upper', more, done + [Shown(todo[0])]);
        AllFollowCons(nodes, done, Shown(todo[0]), Walk(nodes, Next(nodes, todo), more));
      }
    }
  }

  lemma EmptyWalk(nodes: seq<Agent>, seen: set<string>)
    ensures Walk(nodes, [], seen) == []
  {
  }

  ghost predicate Ascending(s: seq<Agent>) {
    forall i, j :: 0 <= i < j < |s| ==> s[i].rootKey <= s[j].rootKey
  }

  lemma SortedAscends(s: seq<Agent>)
    ensures Ascending(SortBy(RootKey(), s))
  {
    SortByProps(RootKey(), s);
    hide SortBy;
    var sorted := SortBy(RootKey(), s);
    forall i, j | 0 <= i < j < |sorted|
      ensures sorted[i].rootKey <= sorted[j].rootKey
    {
      assert RootKey()(sorted[i]) <= RootKey()(sorted[j]);
    }
  }

  lemma RootsThenOthers(nodes: seq<Agent>)
    ensures AreStarts(nodes, Roots(nodes) + Others(nodes))
  {
    RootsMembers(nodes);
    SortedAscends(Filter(RootTest(nodes), nodes));
    SortedAscends(Filter(OtherTest(nodes), nodes));
    var roots, others := Roots(nodes), Others(nodes);
    assert Ascending(roots) && Ascending(others);
    hide Roots, Others, IsRoot, Ascending, StartsBefore;
    var starts := roots + others;
    forall i, j | 0 <= i < j < |starts|
      ensures StartsBefore(nodes, starts[i], starts[j])
    {
      InOrder(nodes, roots, others, i, j);
    }
    assert forall b :: b in starts <==> b in roots || b in others;
  }

  lemma InOrder(nodes: seq<Agent>, roots: seq<Agent>, others: seq<Agent>, i: nat, j: nat)
    requires Ascending(roots) && Ascending(others) && i < j < |roots + others|
    requires (forall a :: a in roots ==> IsRoot(nodes, a)) && (forall a :: a in others ==> !IsRoot(nodes, a))
    ensures StartsBefore(nodes, (roots + others)[i], (roots + others)[j])
  {
    hide IsRoot;
    if j < |roots| {
      assert roots[i] in roots && roots[j] in roots;
    } else {
      var y := others[j - |roots|];
      assert y in others;
      if i < |roots| {
        assert roots[i] in roots;
      } else {
        assert others[i - |roots|] in others;
      }
    }
  }

  // Every row, in a tree or on a cycle of parents: a row of depth zero has the least key of all agents not shown yet, true
  // roots first; any other row is a child of an earlier row, one level below it up to level 64.
  lemma RowsFollow(agents: seq<Agent>, i: nat)
    requires i < |Expected(ById(agents))|
    ensures var nodes, rows := ById(agents), Expected(ById(agents));
      if rows[i].1 == 0 then
        forall b :: b in nodes && (forall j :: 0 <= j < i ==> rows[j].0.id != b.id) ==>
          && (IsRoot(nodes, b) ==> IsRoot(nodes, rows[i].0))
          && ((IsRoot(nodes, b) <==> IsRoot(nodes, rows[i].0)) ==> rows[i].0.rootKey <= b.rootKey)
      else
        exists j :: 0 <= j < i && rows[i].0.parent == Some(rows[j].0.id)
                    && rows[i].1 == if rows[j].1 < 64 then rows[j].1 + 1 else 64
  {
    var nodes, rows := ById(agents), Expected(ById(agents));
    var starts := Roots(nodes) + Others(nodes);
    RootsThenOthers(nodes);
    FullIsWalk(nodes);
    hide Roots, Others, Full, ById;
    assert Stack(starts, 0, []) == AtDepth(starts, 0);
    WalkFollows(nodes, starts, 0, [], {}, []);
    assert [] + Full(nodes)[..i] == rows[..i];
    assert Follows(nodes, rows[..i], rows[i]);
    RowsFollowed(nodes, rows, i);
  }

  lemma RowsFollowed(nodes: seq<Agent>, rows: seq<Entry>, i: nat)
    requires i < |rows| && Follows(nodes, rows[..i], rows[i])
    ensures if rows[i].1 == 0 then
        forall b :: b in nodes && (forall j :: 0 <= j < i ==> rows[j].0.id != b.id) ==> StartsBefore(nodes, rows[i].0, b)
      else exists j :: 0 <= j < i && ChildRow(rows[j], rows[i])
  {
    if rows[i].1 == 0 {
      forall b | b in nodes && forall j :: 0 <= j < i ==> rows[j].0.id != b.id
        ensures StartsBefore(nodes, rows[i].0, b)
      {
        assert b.id !in Ids(rows[..i]);
      }
    } else {
      var j :| 0 <= j < i && ChildRow(rows[..i][j], rows[i]);
    }
  }

  // A true root names no parent, or one that is not listed.
  lemma RootSpelled(agents: seq<Agent>, a: Agent)
    ensures IsRoot(ById(agents), a) <==> a.parent == None || forall b :: b in ById(agents) ==> b.id != a.parent.value
  {
    ByIdIsDictionary(agents);
    if a.parent.Some? {
      NodeByIdProps(ById(agents), a.parent.value);
    }
  }

  // ----- Ties -----

  function HasKey(key: Agent -> int, c: int): Agent -> bool {
    (a: Agent) => key(a) == c
  }

  // Sorting keeps the order of agents with one key.
  lemma {:induction false} SortIsStable(key: Agent -> int, s: seq<Agent>, c: int)
    ensures Filter(HasKey(key, c), SortBy(key, s)) == Filter(HasKey(key, c), s)
  {
    if s != [] {
      var rest := SortBy(key, s[1..]);
      SortIsStable(key, s[1..], c);
      InsertIsStable(key, s[0], rest, c);
      HeadAndTail(s);
      hide Filter, HasKey;
      FilterAppend(HasKey(key, c), [s[0]], s[1..]);
    }
  }

  lemma {:induction false} InsertIsStable(key: Agent -> int, a: Agent, s: seq<Agent>, c: int)
    ensures Filter(HasKey(key, c), InsertBy(key, a, s)) == Filter(HasKey(key, c), [a]) + Filter(HasKey(key, c), s)
  {
    var same := HasKey(key, c);
    if s == [] || key(a) <= key(s[0]) {
      FilterAppend(same, [a], s);
    } else {
      var tail := s[1..];
      InsertIsStable(key, a, tail, c);
      FilterAppend(same, [s[0]], InsertBy(key, a, tail));
      FilterAppend(same, [s[0]], tail);
      HeadAndTail(s);
      FilterOne(same, a);
      FilterOne(same, s[0]);
      assert !same(a) || !same(s[0]);
      hide Filter, HasKey;
      Swapped(Kept(same, a), Kept(same, s[0]), Filter(same, tail));
    }
  }

  lemma Swapped(a: seq<Agent>, b: seq<Agent>, rest: seq<Agent>)
    requires a == [] || b == []
    ensures b + (a + rest) == a + (b + rest)
  {
  }

  // Where an id is first listed.
  ghost predicate FirstAt(agents: seq<Agent>, id: string, p: nat) {
    p < |agents| && agents[p].id == id && forall q :: 0 <= q < p ==> agents[q].id != id
  }

  ghost predicate IsListed(agents: seq<Agent>, id: string) {
    exists r: nat :: r < |agents| && agents[r].id == id
  }

  lemma FirstInFront(agents: seq<Agent>, id: string, p: nat)
    requires agents != [] && FirstAt(agents, id, p) && IsListed(agents[..|agents| - 1], id)
    ensures FirstAt(agents[..|agents| - 1], id, p) && p < |agents| - 1
  {
    var front := agents[..|agents| - 1];
    var r: nat :| r < |front| && front[r].id == id;
    assert agents[r].id == id;
  }

  lemma FirstAtEnd(agents: seq<Agent>, id: string, p: nat)
    requires agents != [] && FirstAt(agents, id, p) && !IsListed(agents[..|agents| - 1], id)
    ensures p == |agents| - 1
  {
    var front := agents[..|agents| - 1];
    assert forall r :: 0 <= r < |front| ==> front[r] == agents[r] && front[r].id != id;
  }

  // The distinct agents stand in the order in which their ids are first listed.
  lemma {:induction false} ByIdKeepsOrder(agents: seq<Agent>, i: nat, j: nat, p: nat, q: nat)
    requires i < j < |ById(agents)|
    requires FirstAt(agents, ById(agents)[i].id, p) && FirstAt(agents, ById(agents)[j].id, q)
    ensures p < q
  {
    assert agents != [];
    var front, last := agents[..|agents| - 1], agents[|agents| - 1];
    var before, later := ById(front), ById(agents);
    assert later == Put(before, last);
    hide *;
    PutAddsAtEnd(before, last);
    PutKeepsPlace(before, last, i);
    IdIsListed(front, i);
    FirstInFront(agents, later[i].id, p);
    if j < |before| {
      PutKeepsPlace(before, last, j);
      IdIsListed(front, j);
      FirstInFront(agents, later[j].id, q);
      ByIdKeepsOrder(front, i, j, p, q);
    } else {
      NewIsNotListed(front, last);
      FirstAtEnd(agents, later[j].id, q);
    }
  }

  // An id of a distinct agent is listed.
  lemma IdIsListed(agents: seq<Agent>, i: nat)
    requires i < |ById(agents)|
    ensures IsListed(agents, ById(agents)[i].id)
  {
    ByIdIsDictionary(agents);
    assert ById(agents)[i] in ById(agents);
  }

  lemma NewIsNotListed(front: seq<Agent>, last: Agent)
    requires |Put(ById(front), last)| > |ById(front)|
    ensures !IsListed(front, last.id)
  {
    PutAddsAtEnd(ById(front), last);
    hide ById, Put;
    forall r: nat | r < |front|
      ensures front[r].id != last.id
    {
      if front[r].id == last.id {
        ListedIsKept(front, r);
      }
    }
  }

  // Every id listed, unless empty, is that of a distinct agent.
  lemma {:induction false} ListedIsKept(agents: seq<Agent>, r: nat)
    requires r < |agents| && agents[r].id != ""
    ensures exists x :: x in ById(agents) && x.id == agents[r].id
  {
    var front, last := agents[..|agents| - 1], agents[|agents| - 1];
    ByIdIsDictionary(front);
    PutProps(ById(front), last);
    var before, later := ById(front), ById(agents);
    if r < |front| {
      ListedIsKept(front, r);
      var x :| x in before && x.id == agents[r].id;
      assert x in later || last in later;
    } else {
      assert last in later;
    }
  }

  // A new value takes the place of the old one, and a new id goes to the end.
  lemma {:induction false} PutKeepsPlace(nodes: seq<Agent>, a: Agent, i: nat)
    requires i < |nodes|
    ensures i < |Put(nodes, a)| && Put(nodes, a)[i].id == nodes[i].id
  {
    if a.id != "" && nodes[0].id != a.id && i > 0 {
      PutKeepsPlace(nodes[1..], a, i - 1);
    }
  }

  lemma {:induction false} PutAddsAtEnd(nodes: seq<Agent>, a: Agent)
    ensures |nodes| <= |Put(nodes, a)| <= |nodes| + 1
    ensures |Put(nodes, a)| > |nodes| ==> Put(nodes, a)[|nodes|] == a && a.id != "" && forall x :: x in nodes ==> x.id != a.id
  {
    if a.id != "" && nodes != [] && nodes[0].id != a.id {
      PutAddsAtEnd(nodes[1..], a);
      assert forall x :: x in nodes <==> x == nodes[0] || x in nodes[1..];
    }
  }
}
