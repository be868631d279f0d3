// The agent list in tree order: an explicit-stack preorder that survives parent cycles.
module Forest {
  import opened Common

  const MAX_TREE_NODES: nat := 20_000
  const MAX_DEPTH: nat := 64

  // The two sort keys stand for the rank of the source's key tuples.
  datatype Agent = Agent(id: string, parent: Option<string>, rootKey: int, childKey: int)

  // ----- Distinct agents -----

  // {str(item["id"]): item ...}: the last value of an id, at its first position; empty ids are dropped.
  function ById(agents: seq<Agent>): seq<Agent> {
    if agents == [] then [] else Put(ById(agents[..|agents| - 1]), agents[|agents| - 1])
  }

  function Put(nodes: seq<Agent>, a: Agent): seq<Agent> {
    if a.id == "" then nodes
    else if nodes == [] then [a]
    else if nodes[0].id == a.id then [a] + nodes[1..]
    else [nodes[0]] + Put(nodes[1..], a)
  }

  ghost predicate Distinct(nodes: seq<Agent>) {
    forall i, j :: 0 <= i < j < |nodes| ==> nodes[i].id != nodes[j].id
  }

  lemma {:induction false} PutProps(nodes: seq<Agent>, a: Agent)
    requires Distinct(nodes)
    ensures Distinct(Put(nodes, a))
    ensures a.id != "" ==> forall x :: x in Put(nodes, a) <==> x == a || (x in nodes && x.id != a.id)
  {
    if a.id != "" && nodes != [] {
      assert forall x :: x in nodes <==> x == nodes[0] || x in nodes[1..];
      if nodes[0].id != a.id {
        PutProps(nodes[1..], a);
        var rest := Put(nodes[1..], a);
        forall i | 0 <= i < |rest| ensures rest[i].id != nodes[0].id {
          assert rest[i] in rest;
        }
      } else {
        forall x | x in nodes[1..] ensures x.id != a.id {
        }
      }
    }
  }

  // `a` is the last one listed with its id.
  ghost predicate LastListed(agents: seq<Agent>, a: Agent) {
    a.id != "" && exists i :: 0 <= i < |agents| && IsLast(agents, a, i)
  }

  ghost predicate IsLast(agents: seq<Agent>, a: Agent, i: nat)
    requires i < |agents|
  {
    agents[i] == a && forall j :: i < j < |agents| ==> agents[j].id != a.id
  }

  lemma LastListedAfter(front: seq<Agent>, last: Agent, a: Agent)
    ensures LastListed(front + [last], a) <==> a.id != "" && (a == last || (LastListed(front, a) && a.id != last.id))
  {
    var agents := front + [last];
    if a == last {
      assert IsLast(agents, a, |front|);
    } else if a.id != "" {
      if LastListed(front, a) && a.id != last.id {
        var i: nat :| i < |front| && IsLast(front, a, i);
        assert IsLast(agents, a, i);
      }
      if LastListed(agents, a) {
        var i: nat :| i < |agents| && IsLast(agents, a, i);
        assert i != |front| && agents[|front|].id != a.id;
        assert forall j :: i < j < |front| ==> agents[j] == front[j];
        assert IsLast(front, a, i);
      }
    }
  }

  lemma {:induction false} ByIdIsDictionary(agents: seq<Agent>)
    ensures Distinct(ById(agents))
    ensures forall a :: a in ById(agents) <==> LastListed(agents, a)
  {
    if agents != [] {
      var front, last := agents[..|agents| - 1], agents[|agents| - 1];
      ByIdIsDictionary(front);
      PutProps(ById(front), last);
      assert agents == front + [last];
      hide LastListed;
      forall a ensures a in ById(agents) <==> LastListed(agents, a) {
        LastListedAfter(front, last, a);
        if LastListed(front, a) {
          NamedIfListed(front, a);
        }
      }
    }
  }

  lemma NamedIfListed(agents: seq<Agent>, a: Agent)
    requires LastListed(agents, a)
    ensures a.id != ""
  {
  }

  // ----- Parents and children -----

  function NodeById(nodes: seq<Agent>, id: string): Option<Agent> {
    if nodes == [] then None else if nodes[0].id == id then Some(nodes[0]) else NodeById(nodes[1..], id)
  }

  lemma {:induction false} NodeByIdProps(nodes: seq<Agent>, id: string)
    requires Distinct(nodes)
    ensures NodeById(nodes, id).Some? ==> NodeById(nodes, id).value in nodes && NodeById(nodes, id).value.id == id
    ensures forall a :: a in nodes && a.id == id ==> NodeById(nodes, id) == Some(a)
  {
    if nodes != [] {
      NodeByIdProps(nodes[1..], id);
      assert forall a :: a in nodes <==> a == nodes[0] || a in nodes[1..];
      assert forall a :: a in nodes[1..] ==> a.id != nodes[0].id;
    }
  }

  // The listed parent, if the agent names one.
  function Up(nodes: seq<Agent>, a: Agent): Option<Agent> {
    if a.parent.None? then None else NodeById(nodes, a.parent.value)
  }

  predicate IsRoot(nodes: seq<Agent>, a: Agent) {
    Up(nodes, a).None?
  }

  function ChildOf(id: string): Agent -> bool {
    (a: Agent) => a.parent == Some(id)
  }

  // ----- Sorting -----

  // A stable sort, ascending in `key`.
  function SortBy(key: Agent -> int, s: seq<Agent>): seq<Agent> {
    if s == [] then [] else InsertBy(key, s[0], SortBy(key, s[1..]))
  }

  function InsertBy(key: Agent -> int, a: Agent, s: seq<Agent>): seq<Agent> {
    if s == [] || key(a) <= key(s[0]) then [a] + s else [s[0]] + InsertBy(key, a, s[1..])
  }

  ghost predicate SortedBy(key: Agent -> int, s: seq<Agent>) {
    forall i, j :: 0 <= i < j < |s| ==> key(s[i]) <= key(s[j])
  }

  lemma ConsSorted(key: Agent -> int, head: Agent, rest: seq<Agent>)
    requires SortedBy(key, rest) && forall x :: x in multiset(rest) ==> key(head) <= key(x)
    ensures SortedBy(key, [head] + rest)
  {
    forall i | 0 <= i < |rest|
      ensures key(head) <= key(rest[i])
    {
      assert rest[i] in multiset(rest);
    }
  }

  lemma SortedTail(key: Agent -> int, s: seq<Agent>)
    requires SortedBy(key, s) && s != []
    ensures SortedBy(key, s[1..]) && multiset(s) == multiset{s[0]} + multiset(s[1..])
    ensures forall x :: x in multiset(s) ==> key(s[0]) <= key(x)
  {
    assert s == [s[0]] + s[1..];
  }

  lemma {:induction false} InsertByPermutes(key: Agent -> int, a: Agent, s: seq<Agent>)
    ensures multiset(InsertBy(key, a, s)) == multiset(s) + multiset{a}
  {
    if s != [] && key(a) > key(s[0]) {
      InsertByPermutes(key, a, s[1..]);
      HeadAndTail(s);
    }
  }

  lemma {:induction false} InsertByProps(key: Agent -> int, a: Agent, s: seq<Agent>)
    requires SortedBy(key, s)
    ensures SortedBy(key, InsertBy(key, a, s))
    ensures multiset(InsertBy(key, a, s)) == multiset(s) + multiset{a}
  {
    InsertByPermutes(key, a, s);
    if s != [] {
      SortedTail(key, s);
      if key(a) > key(s[0]) {
        InsertByProps(key, a, s[1..]);
        ConsSorted(key, s[0], InsertBy(key, a, s[1..]));
      } else {
        ConsSorted(key, a, s);
      }
      hide SortedBy;
    }
  }

  lemma {:induction false} SortByProps(key: Agent -> int, s: seq<Agent>)
    ensures SortedBy(key, SortBy(key, s))
    ensures multiset(SortBy(key, s)) == multiset(s)
  {
    if s != [] {
      SortByProps(key, s[1..]);
      InsertByProps(key, s[0], SortBy(key, s[1..]));
      assert s == [s[0]] + s[1..];
    }
  }

  function RootKey(): Agent -> int { (a: Agent) => a.rootKey }

  function ChildKeyDown(): Agent -> int { (a: Agent) => -a.childKey }

  // ----- The walk -----

  type Entry = (Agent, nat)

  function AtDepth(agents: seq<Agent>, depth: nat): seq<Entry> {
    seq(|agents|, i requires 0 <= i < |agents| => (agents[i], depth))
  }

  // The children in the order they are pushed: greatest key first.
  function Descendants(nodes: seq<Agent>, id: string): seq<Agent> {
    SortBy(ChildKeyDown(), Filter(ChildOf(id), nodes))
  }

  // The children in the order they are popped.
  function Kids(nodes: seq<Agent>, id: string): seq<Agent> {
    Reverse(Descendants(nodes, id))
  }

  ghost function IdSet(nodes: seq<Agent>): set<string> {
    set a | a in nodes :: a.id
  }

  ghost predicate Listed(nodes: seq<Agent>, todo: seq<Entry>) {
    forall e :: e in todo ==> e.0 in nodes
  }

  // The stack after visiting its top entry: the children go on top, one level down.
  function Next(nodes: seq<Agent>, todo: seq<Entry>): seq<Entry>
    requires todo != []
  {
    AtDepth(Kids(nodes, todo[0].0.id), todo[0].1 + 1) + todo[1..]
  }

  ghost function Unseen(nodes: seq<Agent>, seen: set<string>): nat {
    |IdSet(nodes) - seen|
  }

  function Shown(e: Entry): Entry {
    (e.0, Min(e.1, MAX_DEPTH))
  }

  // What popping `todo` from its front produces, with `seen` visited before.
  ghost function Walk(nodes: seq<Agent>, todo: seq<Entry>, seen: set<string>): (out: seq<Entry>)
    requires Listed(nodes, todo)
    decreases Unseen(nodes, seen), |todo|
  {
    if todo == [] then []
    else
      (VisitListed(nodes, todo, seen);
       if todo[0].0.id in seen then Walk(nodes, todo[1..], seen)
       else [Shown(todo[0])] + Walk(nodes, Next(nodes, todo), seen + {todo[0].0.id}))
  }

  lemma VisitListed(nodes: seq<Agent>, todo: seq<Entry>, seen: set<string>)
    requires todo != [] && Listed(nodes, todo)
    ensures Listed(nodes, todo[1..]) && todo[0].0 in nodes
    ensures Listed(nodes, Next(nodes, todo))
    ensures todo[0].0.id !in seen ==> Unseen(nodes, seen + {todo[0].0.id}) < Unseen(nodes, seen)
  {
    NextListed(nodes, todo);
    hide Next, Listed;
    if todo[0].0.id !in seen {
      assert todo[0].0.id in IdSet(nodes) - seen;
      SmallerSet(IdSet(nodes) - (seen + {todo[0].0.id}), IdSet(nodes) - seen);
    }
  }

  lemma SmallerSet(a: set<string>, b: set<string>)
    requires a < b
    ensures |a| < |b|
  {
    assert b == a + (b - a);
    assert |b| == |a| + |b - a|;
    assert b - a != {};
  }

  lemma ReverseMembers(s: seq<Agent>)
    ensures forall a :: a in Reverse(s) <==> a in s
  {
    forall a | a in s ensures a in Reverse(s) {
      var i :| 0 <= i < |s| && s[i] == a;
      assert Reverse(s)[|s| - 1 - i] == a;
    }
  }

  lemma SortMembers(key: Agent -> int, s: seq<Agent>)
    ensures forall a :: a in SortBy(key, s) <==> a in s
  {
    SortByProps(key, s);
    forall a ensures a in SortBy(key, s) <==> a in s {
      assert a in multiset(SortBy(key, s)) <==> a in multiset(s);
    }
  }

  lemma KidsMembers(nodes: seq<Agent>, id: string)
    ensures forall a :: a in Kids(nodes, id) <==> a in nodes && a.parent == Some(id)
  {
    ReverseMembers(Descendants(nodes, id));
    SortMembers(ChildKeyDown(), Filter(ChildOf(id), nodes));
  }

  lemma NextListed(nodes: seq<Agent>, todo: seq<Entry>)
    requires todo != [] && Listed(nodes, todo)
    ensures Listed(nodes, todo[1..]) && Listed(nodes, Next(nodes, todo)) && todo[0].0 in nodes
  {
    assert todo[0] in todo;
    KidsListed(nodes, todo[0].0.id, todo[0].1 + 1);
  }

  lemma KidsListed(nodes: seq<Agent>, id: string, depth: nat)
    ensures Listed(nodes, AtDepth(Kids(nodes, id), depth))
  {
    KidsMembers(nodes, id);
    forall e | e in AtDepth(Kids(nodes, id), depth) ensures e.0 in nodes {
      assert e.0 in Kids(nodes, id);
    }
  }

  ghost function Ids(out: seq<Entry>): set<string> {
    set e | e in out :: e.0.id
  }

  ghost predicate Once(out: seq<Entry>) {
    forall i, j :: 0 <= i < j < |out| ==> out[i].0.id != out[j].0.id
  }

  ghost predicate AllIn(todo: seq<Entry>, ids: set<string>) {
    forall e :: e in todo ==> e.0.id in ids
  }

  lemma IdsOfCons(head: Entry, rest: seq<Entry>)
    ensures Ids([head] + rest) == {head.0.id} + Ids(rest)
  {
    assert forall e :: e in [head] + rest <==> e == head || e in rest;
  }

  lemma OnceCons(head: Entry, rest: seq<Entry>)
    requires Once(rest) && head.0.id !in Ids(rest)
    ensures Once([head] + rest)
  {
    forall i | 0 <= i < |rest| ensures rest[i].0.id != head.0.id {
      assert rest[i] in rest;
    }
  }

  // Each agent at most once, none that was seen before, and all of `todo` is seen after.
  ghost predicate Visits(nodes: seq<Agent>, todo: seq<Entry>, seen: set<string>, out: seq<Entry>) {
    Listed(nodes, out) && Ids(out) !! seen && Once(out) && AllIn(todo, seen + Ids(out))
  }

  lemma VisitsCons(nodes: seq<Agent>, todo: seq<Entry>, seen: set<string>, rest: seq<Entry>)
    requires todo != [] && todo[0].0 in nodes && todo[0].0.id !in seen
    requires Visits(nodes, Next(nodes, todo), seen + {todo[0].0.id}, rest)
    ensures Visits(nodes, todo, seen, [Shown(todo[0])] + rest)
  {
    hide Next;
    IdsOfCons(Shown(todo[0]), rest);
    OnceCons(Shown(todo[0]), rest);
    NextCovers(nodes, todo, seen + {todo[0].0.id} + Ids(rest));
  }

  lemma {:induction false} WalkVisits(nodes: seq<Agent>, todo: seq<Entry>, seen: set<string>)
    requires Listed(nodes, todo)
    ensures Visits(nodes, todo, seen, Walk(nodes, todo, seen))
    decreases Unseen(nodes, seen), |todo|
  {
    if todo != [] {
      VisitListed(nodes, todo, seen);
      hide Next, Listed, Unseen, Once, Ids;
      if todo[0].0.id in seen {
        WalkVisits(nodes, todo[1..], seen);
      } else {
        hide Visits;
        WalkVisits(nodes, Next(nodes, todo), seen + {todo[0].0.id});
        VisitsCons(nodes, todo, seen, Walk(nodes, Next(nodes, todo), seen + {todo[0].0.id}));
      }
    }
  }

  lemma NextCovers(nodes: seq<Agent>, todo: seq<Entry>, ids: set<string>)
    requires todo != [] && AllIn(Next(nodes, todo), ids)
    ensures AllIn(todo[1..], ids)
    ensures forall c :: c in nodes && c.parent == Some(todo[0].0.id) ==> c.id in ids
  {
    var a, depth := todo[0].0, todo[0].1 + 1;
    forall c | c in nodes && c.parent == Some(a.id)
      ensures (c, depth) in Next(nodes, todo)
    {
      KidOnStack(nodes, a, depth, c);
    }
    hide Kids, AtDepth;
    assert forall e :: e in todo[1..] ==> e in Next(nodes, todo);
  }

  lemma AppendListed(nodes: seq<Agent>, s: seq<Entry>, t: seq<Entry>)
    requires Listed(nodes, s) && Listed(nodes, t)
    ensures Listed(nodes, s + t)
    ensures s != [] ==> (s + t)[1..] == s[1..] + t && Next(nodes, s + t) == Next(nodes, s) + t
  {
    if s != [] {
      assert (s + t)[1..] == s[1..] + t;
      hide Kids, AtDepth;
      assert Next(nodes, s + t) == Next(nodes, s) + t;
    }
  }

  lemma WalkUnfolds(nodes: seq<Agent>, todo: seq<Entry>, seen: set<string>)
    requires todo != [] && Listed(nodes, todo)
    ensures Listed(nodes, todo[1..]) && Listed(nodes, Next(nodes, todo))
    ensures Walk(nodes, todo, seen) ==
      if todo[0].0.id in seen then Walk(nodes, todo[1..], seen)
      else [Shown(todo[0])] + Walk(nodes, Next(nodes, todo), seen + {todo[0].0.id})
  {
    VisitListed(nodes, todo, seen);
    hide Next, Listed;
  }

  lemma {:induction false} WalkAppend(nodes: seq<Agent>, s: seq<Entry>, t: seq<Entry>, seen: set<string>)
    requires Listed(nodes, s) && Listed(nodes, t)
    ensures Listed(nodes, s + t)
    ensures var first := Walk(nodes, s, seen);
            Walk(nodes, s + t, seen) == first + Walk(nodes, t, seen + Ids(first))
    decreases Unseen(nodes, seen), |s|
  {
    AppendListed(nodes, s, t);
    if s == [] {
      assert s + t == t;
      assert seen + Ids([]) == seen;
    } else {
      VisitListed(nodes, s, seen);
      WalkUnfolds(nodes, s, seen);
      WalkUnfolds(nodes, s + t, seen);
      hide *;
      if s[0].0.id in seen {
        WalkAppend(nodes, s[1..], t, seen);
      } else {
        var more := seen + {s[0].0.id};
        WalkAppend(nodes, Next(nodes, s), t, more);
        var rest := Walk(nodes, Next(nodes, s), more);
        IdsOfCons(Shown(s[0]), rest);
        assert Shown(s[0]).0 == s[0].0 by {
          ShownSame(s[0]);
        }
        assert more + Ids(rest) == seen + Ids([Shown(s[0])] + rest);
        Assoc([Shown(s[0])], rest, Walk(nodes, t, more + Ids(rest)));
      }
    }
  }

  lemma ShownSame(e: Entry)
    ensures Shown(e).0 == e.0
  {
  }

  // ----- Trees -----

  // The k-th ancestor.
  function Climb(nodes: seq<Agent>, a: Agent, k: nat): Option<Agent>
    decreases k
  {
    if k == 0 then Some(a)
    else match Up(nodes, a)
      case None => None
      case Some(parent) => Climb(nodes, parent, k - 1)
  }

  // `x` is `y` or an ancestor of it.
  ghost predicate Under(nodes: seq<Agent>, x: Agent, y: Agent) {
    exists k: nat :: Climb(nodes, y, k) == Some(x)
  }

  // `d` parent links lead from `a` to a root.
  predicate AtTreeDepth(nodes: seq<Agent>, a: Agent, d: nat) {
    Climb(nodes, a, d).Some? && IsRoot(nodes, Climb(nodes, a, d).value)
  }

  ghost predicate InTree(nodes: seq<Agent>, a: Agent) {
    exists d: nat :: AtTreeDepth(nodes, a, d)
  }

  predicate ParentIn(nodes: seq<Agent>, a: Agent, ids: set<string>) {
    Up(nodes, a).Some? ==> Up(nodes, a).value.id in ids
  }

  ghost predicate TreeTodo(nodes: seq<Agent>, todo: seq<Entry>, seen: set<string>) {
    forall e :: e in todo ==> AtTreeDepth(nodes, e.0, e.1) && ParentIn(nodes, e.0, seen)
  }

  // Whatever was seen, its parent was seen.
  ghost predicate SeenClosed(nodes: seq<Agent>, seen: set<string>) {
    forall a :: a in nodes && a.id in seen ==> ParentIn(nodes, a, seen)
  }

  lemma ChildUp(nodes: seq<Agent>, parent: Agent, c: Agent)
    requires Distinct(nodes) && parent in nodes && c.parent == Some(parent.id)
    ensures Up(nodes, c) == Some(parent)
  {
    NodeByIdProps(nodes, parent.id);
  }

  lemma NextEntry(nodes: seq<Agent>, todo: seq<Entry>, e: Entry)
    requires todo != [] && e in Next(nodes, todo)
    ensures e in todo[1..] || (e.0 in nodes && e.0.parent == Some(todo[0].0.id) && e.1 == todo[0].1 + 1)
  {
    var kids := Kids(nodes, todo[0].0.id);
    KidsMembers(nodes, todo[0].0.id);
    if e !in todo[1..] {
      var i :| 0 <= i < |AtDepth(kids, todo[0].1 + 1)| && AtDepth(kids, todo[0].1 + 1)[i] == e;
      assert kids[i] in kids;
    }
  }

  lemma TreeStep(nodes: seq<Agent>, todo: seq<Entry>, seen: set<string>)
    requires Distinct(nodes) && todo != [] && Listed(nodes, todo)
    requires TreeTodo(nodes, todo, seen) && SeenClosed(nodes, seen)
    ensures TreeTodo(nodes, todo[1..], seen)
    ensures TreeTodo(nodes, Next(nodes, todo), seen + {todo[0].0.id})
    ensures SeenClosed(nodes, seen + {todo[0].0.id})
  {
    var a := todo[0].0;
    assert todo[0] in todo;
    forall e | e in Next(nodes, todo)
      ensures AtTreeDepth(nodes, e.0, e.1) && ParentIn(nodes, e.0, seen + {a.id})
    {
      NextEntry(nodes, todo, e);
      if e !in todo[1..] {
        ChildUp(nodes, a, e.0);
      }
    }
    forall b | b in nodes && b.id == a.id ensures b == a {
      NodeByIdProps(nodes, a.id);
    }
  }

  // A row shows its tree depth, cut at 64, and follows its parent.
  ghost predicate TreeRow(nodes: seq<Agent>, e: Entry, before: set<string>) {
    && (exists d: nat :: AtTreeDepth(nodes, e.0, d) && e.1 == Min(d, MAX_DEPTH))
    && ParentIn(nodes, e.0, before)
  }

  ghost predicate TreeRows(nodes: seq<Agent>, seen: set<string>, out: seq<Entry>) {
    forall i :: 0 <= i < |out| ==> TreeRow(nodes, out[i], seen + Ids(out[..i]))
  }

  lemma TreeRowsCons(nodes: seq<Agent>, seen: set<string>, e: Entry, rest: seq<Entry>)
    requires AtTreeDepth(nodes, e.0, e.1) && ParentIn(nodes, e.0, seen)
    requires TreeRows(nodes, seen + {e.0.id}, rest)
    ensures TreeRows(nodes, seen, [Shown(e)] + rest)
  {
    var out := [Shown(e)] + rest;
    forall i | 0 <= i < |out| ensures TreeRow(nodes, out[i], seen + Ids(out[..i])) {
      if i > 0 {
        assert out[..i] == [Shown(e)] + rest[..i - 1];
        IdsOfCons(Shown(e), rest[..i - 1]);
        assert seen + Ids(out[..i]) == seen + {e.0.id} + Ids(rest[..i - 1]);
        assert TreeRow(nodes, rest[i - 1], seen + {e.0.id} + Ids(rest[..i - 1]));
      }
    }
  }

  lemma {:induction false} WalkTreeRows(nodes: seq<Agent>, todo: seq<Entry>, seen: set<string>)
    requires Distinct(nodes) && Listed(nodes, todo) && TreeTodo(nodes, todo, seen) && SeenClosed(nodes, seen)
    ensures TreeRows(nodes, seen, Walk(nodes, todo, seen))
    decreases Unseen(nodes, seen), |todo|
  {
    if todo != [] {
      VisitListed(nodes, todo, seen);
      TreeStep(nodes, todo, seen);
      assert todo[0] in todo;
      hide Next, Listed, Unseen, TreeRows, SeenClosed;
      if todo[0].0.id in seen {
        WalkTreeRows(nodes, todo[1..], seen);
      } else {
        var more := seen + {todo[0].0.id};
        WalkTreeRows(nodes, Next(nodes, todo), more);
        TreeRowsCons(nodes, seen, todo[0], Walk(nodes, Next(nodes, todo), more));
      }
    }
  }

  // The children of everything visited are visited too.
  ghost predicate ChildrenSeen(nodes: seq<Agent>, ids: set<string>, out: seq<Entry>) {
    forall e, c :: e in out && c in nodes && c.parent == Some(e.0.id) ==> c.id in ids
  }

  lemma ChildrenSeenCons(nodes: seq<Agent>, todo: seq<Entry>, seen: set<string>, rest: seq<Entry>)
    requires todo != []
    requires var ids := seen + {todo[0].0.id} + Ids(rest); ChildrenSeen(nodes, ids, rest) && AllIn(Next(nodes, todo), ids)
    ensures var out := [Shown(todo[0])] + rest; ChildrenSeen(nodes, seen + Ids(out), out)
  {
    var out := [Shown(todo[0])] + rest;
    NextCovers(nodes, todo, seen + {todo[0].0.id} + Ids(rest));
    IdsOfCons(Shown(todo[0]), rest);
    hide Next, Ids;
    assert seen + Ids(out) == seen + {todo[0].0.id} + Ids(rest);
    assert forall e :: e in out <==> e == Shown(todo[0]) || e in rest;
  }

  lemma {:induction false} WalkChildren(nodes: seq<Agent>, todo: seq<Entry>, seen: set<string>)
    requires Listed(nodes, todo)
    ensures var out := Walk(nodes, todo, seen); ChildrenSeen(nodes, seen + Ids(out), out)
    decreases Unseen(nodes, seen), |todo|
  {
    if todo != [] {
      VisitListed(nodes, todo, seen);
      hide Next, Listed, Unseen, Ids, ChildrenSeen, AllIn;
      if todo[0].0.id in seen {
        WalkChildren(nodes, todo[1..], seen);
      } else {
        var next, more := Next(nodes, todo), seen + {todo[0].0.id};
        WalkChildren(nodes, next, more);
        WalkVisits(nodes, next, more);
        ChildrenSeenCons(nodes, todo, seen, Walk(nodes, next, more));
      }
    } else {
      assert Walk(nodes, todo, seen) == [];
    }
  }

  // Nothing outside the subtrees on the stack is visited.
  lemma {:induction false} WalkStaysUnder(nodes: seq<Agent>, todo: seq<Entry>, seen: set<string>, x: Agent)
    requires Distinct(nodes) && Listed(nodes, todo)
    requires forall e :: e in todo ==> Under(nodes, x, e.0)
    ensures forall e :: e in Walk(nodes, todo, seen) ==> Under(nodes, x, e.0)
    decreases Unseen(nodes, seen), |todo|
  {
    if todo != [] {
      VisitListed(nodes, todo, seen);
      assert todo[0] in todo;
      if todo[0].0.id in seen {
        WalkStaysUnder(nodes, todo[1..], seen, x);
      } else {
        forall e | e in Next(nodes, todo) ensures Under(nodes, x, e.0) {
          NextEntry(nodes, todo, e);
          if e !in todo[1..] {
            ChildUnder(nodes, x, todo[0].0, e.0);
          }
        }
        WalkStaysUnder(nodes, Next(nodes, todo), seen + {todo[0].0.id}, x);
      }
    }
  }

  lemma ChildUnder(nodes: seq<Agent>, x: Agent, a: Agent, c: Agent)
    requires Distinct(nodes) && a in nodes && c.parent == Some(a.id) && Under(nodes, x, a)
    ensures Under(nodes, x, c)
  {
    var k: nat :| Climb(nodes, a, k) == Some(x);
    ChildUp(nodes, a, c);
    assert Climb(nodes, c, k + 1) == Some(x);
  }

  // ----- Subtrees are contiguous -----

  // An unvisited agent whose ancestors are all visited has no visited descendant, and the walk
  // from its children visits all of them.
  lemma {:induction false} DescendantVisited(nodes: seq<Agent>, x: Agent, depth: nat, seen: set<string>, y: Agent, k: nat)
    requires Distinct(nodes) && x in nodes && y in nodes && x.id !in seen && SeenClosed(nodes, seen)
    requires Climb(nodes, y, k) == Some(x)
    ensures var todo := AtDepth(Kids(nodes, x.id), depth);
      && Listed(nodes, todo)
      && y.id !in seen && y.id in {x.id} + Ids(Walk(nodes, todo, seen + {x.id}))
    decreases k
  {
    KidsListed(nodes, x.id, depth);
    if k > 0 {
      var p := Up(nodes, y).value;
      NodeByIdProps(nodes, y.parent.value);
      hide Kids, Walk;
      DescendantVisited(nodes, x, depth, seen, p, k - 1);
      ParentSeen(nodes, p, y, seen);
      NextGeneration(nodes, x, depth, seen, p, y);
    }
  }

  lemma ParentSeen(nodes: seq<Agent>, p: Agent, y: Agent, seen: set<string>)
    requires Distinct(nodes) && p in nodes && y in nodes && y.parent == Some(p.id) && SeenClosed(nodes, seen)
    ensures y.id in seen ==> p.id in seen
  {
    ChildUp(nodes, p, y);
  }

  // A child of `x`, or of an agent visited from its children, is visited.
  lemma NextGeneration(nodes: seq<Agent>, x: Agent, depth: nat, seen: set<string>, p: Agent, y: Agent)
    requires Distinct(nodes) && x in nodes && y in nodes && y.parent == Some(p.id) && y.id !in seen
    requires Listed(nodes, AtDepth(Kids(nodes, x.id), depth))
    requires p.id in {x.id} + Ids(Walk(nodes, AtDepth(Kids(nodes, x.id), depth), seen + {x.id}))
    ensures y.id in {x.id} + Ids(Walk(nodes, AtDepth(Kids(nodes, x.id), depth), seen + {x.id}))
  {
    var todo := AtDepth(Kids(nodes, x.id), depth);
    var out := Walk(nodes, todo, seen + {x.id});
    WalkVisits(nodes, todo, seen + {x.id});
    WalkChildren(nodes, todo, seen + {x.id});
    if p.id == x.id {
      KidOnStack(nodes, x, depth, y);
    } else {
      hide Walk, Kids, AtDepth, Listed, Once;
      var e :| e in out && e.0.id == p.id;
    }
  }

  lemma KidOnStack(nodes: seq<Agent>, x: Agent, depth: nat, y: Agent)
    requires y in nodes && y.parent == Some(x.id)
    ensures (y, depth) in AtDepth(Kids(nodes, x.id), depth)
  {
    KidsMembers(nodes, x.id);
    hide Kids;
    var i :| 0 <= i < |Kids(nodes, x.id)| && Kids(nodes, x.id)[i] == y;
    assert AtDepth(Kids(nodes, x.id), depth)[i] == (y, depth);
  }

  lemma {:induction false} AncestorSeen(nodes: seq<Agent>, a: Agent, k: nat, x: Agent, seen: set<string>)
    requires Distinct(nodes) && SeenClosed(nodes, seen) && ParentIn(nodes, a, seen)
    requires k > 0 && Climb(nodes, a, k) == Some(x)
    ensures x.id in seen
    decreases k
  {
    var p := Up(nodes, a).value;
    NodeByIdProps(nodes, a.parent.value);
    if k > 1 {
      AncestorSeen(nodes, p, k - 1, x, seen);
    }
  }

  lemma NotUnderUnseen(nodes: seq<Agent>, a: Agent, x: Agent, seen: set<string>)
    requires Distinct(nodes) && SeenClosed(nodes, seen) && ParentIn(nodes, a, seen)
    requires x.id !in seen && a.id != x.id
    ensures !Under(nodes, x, a)
  {
    if Under(nodes, x, a) {
      var k: nat :| Climb(nodes, a, k) == Some(x);
      AncestorSeen(nodes, a, k, x, seen);
    }
  }

  // Rows lo..hi are exactly the subtree of `x`, which comes first.
  ghost predicate Block(nodes: seq<Agent>, x: Agent, out: seq<Entry>, lo: nat, hi: nat) {
    && lo < hi <= |out| && out[lo].0 == x
    && forall j :: 0 <= j < |out| ==> (lo <= j < hi <==> Under(nodes, x, out[j].0))
  }

  // The walk from an unvisited agent: itself, the walk from its children, and the rest of the stack.
  lemma WalkSplits(nodes: seq<Agent>, todo: seq<Entry>, seen: set<string>) returns (inner: seq<Entry>, after: seq<Entry>)
    requires todo != [] && Listed(nodes, todo) && todo[0].0.id !in seen
    ensures var kids, more := AtDepth(Kids(nodes, todo[0].0.id), todo[0].1 + 1), seen + {todo[0].0.id};
      && Listed(nodes, kids) && inner == Walk(nodes, kids, more)
      && Walk(nodes, todo, seen) == [Shown(todo[0])] + (inner + after)
      && Ids(after) !! more + Ids(inner)
  {
    var x, depth := todo[0].0, todo[0].1 + 1;
    var kids, rest, more := AtDepth(Kids(nodes, x.id), depth), todo[1..], seen + {x.id};
    WalkUnfolds(nodes, todo, seen);
    KidsListed(nodes, x.id, depth);
    assert Next(nodes, todo) == kids + rest;
    hide *;
    WalkAppend(nodes, kids, rest, more);
    inner := Walk(nodes, kids, more);
    after := Walk(nodes, rest, more + Ids(inner));
    VisitsUnseen(nodes, rest, more + Ids(inner));
  }

  lemma VisitsUnseen(nodes: seq<Agent>, todo: seq<Entry>, seen: set<string>)
    requires Listed(nodes, todo)
    ensures Ids(Walk(nodes, todo, seen)) !! seen
  {
    WalkVisits(nodes, todo, seen);
    hide Walk, Ids;
  }

  lemma KidsUnder(nodes: seq<Agent>, x: Agent, depth: nat, seen: set<string>)
    requires Distinct(nodes) && x in nodes
    ensures var kids := AtDepth(Kids(nodes, x.id), depth);
      Listed(nodes, kids) && forall e :: e in Walk(nodes, kids, seen) ==> Under(nodes, x, e.0)
  {
    var kids := AtDepth(Kids(nodes, x.id), depth);
    KidsListed(nodes, x.id, depth);
    assert Climb(nodes, x, 0) == Some(x);
    KidsMembers(nodes, x.id);
    forall e | e in kids ensures Under(nodes, x, e.0) {
      assert e.0 in Kids(nodes, x.id);
      ChildUnder(nodes, x, x, e.0);
    }
    WalkStaysUnder(nodes, kids, seen, x);
  }

  lemma BlockHere(nodes: seq<Agent>, todo: seq<Entry>, seen: set<string>) returns (hi: nat)
    requires Distinct(nodes) && todo != [] && Listed(nodes, todo)
    requires SeenClosed(nodes, seen) && todo[0].0.id !in seen
    ensures Block(nodes, todo[0].0, Walk(nodes, todo, seen), 0, hi)
  {
    var x, depth := todo[0].0, todo[0].1 + 1;
    NextListed(nodes, todo);
    WalkVisits(nodes, todo, seen);
    var inner, after := WalkSplits(nodes, todo, seen);
    KidsUnder(nodes, x, depth, seen + {x.id});
    var out := Walk(nodes, todo, seen);
    assert Climb(nodes, x, 0) == Some(x);
    hi := 1 + |inner|;
    hide Kids, Next, Walk;
    forall j | 0 <= j < |out| ensures 0 <= j < hi <==> Under(nodes, x, out[j].0) {
      if 0 < j < hi {
        assert out[j] == inner[j - 1];
      } else if j >= hi {
        assert out[j] == after[j - hi];
        assert after[j - hi] in after;
        assert out[j] in out;
        if Under(nodes, x, out[j].0) {
          var k: nat :| Climb(nodes, out[j].0, k) == Some(x);
          DescendantVisited(nodes, x, depth, seen, out[j].0, k);
        }
      }
    }
  }

  lemma TopNotUnder(nodes: seq<Agent>, todo: seq<Entry>, seen: set<string>, x: Agent)
    requires todo != [] && Awaits(nodes, todo, seen, x) && todo[0].0.id != x.id
    ensures !Under(nodes, x, Shown(todo[0]).0)
  {
    assert todo[0] in todo;
    NotUnderUnseen(nodes, todo[0].0, x, seen);
  }

  lemma OnlyOneHasId(nodes: seq<Agent>, a: Agent, b: Agent)
    requires Distinct(nodes) && a in nodes && b in nodes && a.id == b.id
    ensures a == b
  {
  }

  // What a walk must know of its stack for subtrees to come out whole.
  ghost predicate Ready(nodes: seq<Agent>, todo: seq<Entry>, seen: set<string>) {
    Distinct(nodes) && Listed(nodes, todo) && TreeTodo(nodes, todo, seen) && SeenClosed(nodes, seen)
  }

  lemma ReadyStep(nodes: seq<Agent>, todo: seq<Entry>, seen: set<string>)
    requires todo != [] && Ready(nodes, todo, seen)
    ensures Ready(nodes, todo[1..], seen) && Ready(nodes, Next(nodes, todo), seen + {todo[0].0.id})
    ensures todo[0].0.id !in seen ==> Unseen(nodes, seen + {todo[0].0.id}) < Unseen(nodes, seen)
    ensures Walk(nodes, todo, seen) ==
      if todo[0].0.id in seen then Walk(nodes, todo[1..], seen)
      else [Shown(todo[0])] + Walk(nodes, Next(nodes, todo), seen + {todo[0].0.id})
  {
    VisitListed(nodes, todo, seen);
    TreeStep(nodes, todo, seen);
  }

  // `x` is not visited yet and this walk will visit it.
  ghost predicate Awaits(nodes: seq<Agent>, todo: seq<Entry>, seen: set<string>, x: Agent) {
    Ready(nodes, todo, seen) && x in nodes && x.id !in seen && x.id in Ids(Walk(nodes, todo, seen))
  }

  lemma AwaitsStep(nodes: seq<Agent>, todo: seq<Entry>, seen: set<string>, x: Agent)
    requires Awaits(nodes, todo, seen, x)
    ensures todo != []
    ensures todo[0].0.id in seen ==> Awaits(nodes, todo[1..], seen, x) && Walk(nodes, todo, seen) == Walk(nodes, todo[1..], seen)
    ensures todo[0].0.id !in seen ==> Unseen(nodes, seen + {todo[0].0.id}) < Unseen(nodes, seen)
    ensures todo[0].0.id !in seen && todo[0].0.id != x.id ==>
      && Awaits(nodes, Next(nodes, todo), seen + {todo[0].0.id}, x)
      && Walk(nodes, todo, seen) == [Shown(todo[0])] + Walk(nodes, Next(nodes, todo), seen + {todo[0].0.id})
  {
    ReadyStep(nodes, todo, seen);
    if todo[0].0.id !in seen {
      IdsOfCons(Shown(todo[0]), Walk(nodes, Next(nodes, todo), seen + {todo[0].0.id}));
    }
  }

  lemma {:induction false} SubtreeBlock(nodes: seq<Agent>, todo: seq<Entry>, seen: set<string>, x: Agent) returns (lo: nat, hi: nat)
    requires Awaits(nodes, todo, seen, x)
    ensures Block(nodes, x, Walk(nodes, todo, seen), lo, hi)
    decreases Unseen(nodes, seen), |todo|
  {
    AwaitsStep(nodes, todo, seen, x);
    hide *;
    if todo[0].0.id in seen {
      lo, hi := SubtreeBlock(nodes, todo[1..], seen, x);
    } else if todo[0].0.id == x.id {
      lo, hi := BlockAt(nodes, todo, seen, x);
    } else {
      lo, hi := SubtreeBlock(nodes, Next(nodes, todo), seen + {todo[0].0.id}, x);
      lo, hi := BlockBelow(nodes, todo, seen, x, lo, hi);
    }
  }

  lemma BlockAt(nodes: seq<Agent>, todo: seq<Entry>, seen: set<string>, x: Agent) returns (lo: nat, hi: nat)
    requires todo != [] && Awaits(nodes, todo, seen, x) && todo[0].0.id == x.id
    ensures Block(nodes, x, Walk(nodes, todo, seen), lo, hi)
  {
    assert todo[0] in todo;
    OnlyOneHasId(nodes, x, todo[0].0);
    lo := 0;
    hi := BlockHere(nodes, todo, seen);
  }

  lemma BlockBelow(nodes: seq<Agent>, todo: seq<Entry>, seen: set<string>, x: Agent, lo: nat, hi: nat) returns (lo': nat, hi': nat)
    requires todo != [] && Awaits(nodes, todo, seen, x) && Awaits(nodes, Next(nodes, todo), seen + {todo[0].0.id}, x)
    requires todo[0].0.id !in seen && todo[0].0.id != x.id
    requires Block(nodes, x, Walk(nodes, Next(nodes, todo), seen + {todo[0].0.id}), lo, hi)
    ensures Block(nodes, x, Walk(nodes, todo, seen), lo', hi')
  {
    hide Walk, Next, Under, Block, Ids, AtTreeDepth, TreeTodo, SeenClosed, ParentIn;
    lo', hi' := lo + 1, hi + 1;
    AwaitsStep(nodes, todo, seen, x);
    TopNotUnder(nodes, todo, seen, x);
    BlockCons(nodes, x, Shown(todo[0]), Walk(nodes, Next(nodes, todo), seen + {todo[0].0.id}), lo, hi);
  }

  lemma BlockCons(nodes: seq<Agent>, x: Agent, head: Entry, rest: seq<Entry>, lo: nat, hi: nat)
    requires Block(nodes, x, rest, lo, hi) && !Under(nodes, x, head.0)
    ensures Block(nodes, x, [head] + rest, lo + 1, hi + 1)
  {
    var out := [head] + rest;
    forall j | 0 <= j < |out| ensures lo + 1 <= j < hi + 1 <==> Under(nodes, x, out[j].0) {
      if j > 0 {
        assert out[j] == rest[j - 1];
      }
    }
  }

  // ----- The whole list -----

  function RootTest(nodes: seq<Agent>): Agent -> bool {
    (a: Agent) => IsRoot(nodes, a)
  }

  function OtherTest(nodes: seq<Agent>): Agent -> bool {
    (a: Agent) => !IsRoot(nodes, a)
  }

  function Roots(nodes: seq<Agent>): seq<Agent> {
    SortBy(RootKey(), Filter(RootTest(nodes), nodes))
  }

  function Others(nodes: seq<Agent>): seq<Agent> {
    SortBy(RootKey(), Filter(OtherTest(nodes), nodes))
  }

  lemma RootsMembers(nodes: seq<Agent>)
    ensures forall a :: a in Roots(nodes) <==> a in nodes && IsRoot(nodes, a)
    ensures forall a :: a in Others(nodes) <==> a in nodes && !IsRoot(nodes, a)
  {
    SortMembers(RootKey(), Filter(RootTest(nodes), nodes));
    SortMembers(RootKey(), Filter(OtherTest(nodes), nodes));
  }

  lemma StartsListed(nodes: seq<Agent>, some: seq<Agent>)
    requires forall a :: a in some ==> a in nodes
    ensures Listed(nodes, AtDepth(some, 0))
  {
    forall e | e in AtDepth(some, 0) ensures e.0 in nodes {
      assert e.0 in some;
    }
  }

  ghost function Full(nodes: seq<Agent>): seq<Entry> {
    RootsMembers(nodes);
    StartsListed(nodes, Roots(nodes) + Others(nodes));
    Walk(nodes, AtDepth(Roots(nodes) + Others(nodes), 0), {})
  }

  // The rows reached from true roots.
  ghost function TreePart(nodes: seq<Agent>): seq<Entry> {
    RootsMembers(nodes);
    StartsListed(nodes, Roots(nodes));
    Walk(nodes, AtDepth(Roots(nodes), 0), {})
  }

  lemma RootsReady(nodes: seq<Agent>)
    requires Distinct(nodes)
    ensures Ready(nodes, AtDepth(Roots(nodes), 0), {})
  {
    RootsMembers(nodes);
    StartsListed(nodes, Roots(nodes));
    forall e | e in AtDepth(Roots(nodes), 0) ensures AtTreeDepth(nodes, e.0, e.1) && ParentIn(nodes, e.0, {}) {
      assert e.0 in Roots(nodes);
    }
  }

  lemma FullSplits(nodes: seq<Agent>) returns (after: seq<Entry>)
    ensures Full(nodes) == TreePart(nodes) + after
  {
    RootsMembers(nodes);
    StartsListed(nodes, Roots(nodes));
    StartsListed(nodes, Others(nodes));
    StartsListed(nodes, Roots(nodes) + Others(nodes));
    FullIsWalk(nodes);
    hide *;
    AtDepthAppend(Roots(nodes), Others(nodes));
    WalkAppend(nodes, AtDepth(Roots(nodes), 0), AtDepth(Others(nodes), 0), {});
    after := Walk(nodes, AtDepth(Others(nodes), 0), {} + Ids(TreePart(nodes)));
  }

  lemma FullIsWalk(nodes: seq<Agent>)
    ensures Listed(nodes, AtDepth(Roots(nodes), 0)) && Listed(nodes, AtDepth(Roots(nodes) + Others(nodes), 0))
    ensures Full(nodes) == Walk(nodes, AtDepth(Roots(nodes) + Others(nodes), 0), {})
    ensures TreePart(nodes) == Walk(nodes, AtDepth(Roots(nodes), 0), {})
  {
    RootsMembers(nodes);
    StartsListed(nodes, Roots(nodes));
    StartsListed(nodes, Roots(nodes) + Others(nodes));
    hide Walk, Roots, Others, Listed, AtDepth;
  }

  lemma AtDepthAppend(a: seq<Agent>, b: seq<Agent>)
    ensures AtDepth(a + b, 0) == AtDepth(a, 0) + AtDepth(b, 0)
  {
  }

  // Every agent under a true root is visited from the roots.
  lemma {:induction false} TreeVisited(nodes: seq<Agent>, a: Agent, d: nat)
    requires Distinct(nodes) && a in nodes && AtTreeDepth(nodes, a, d)
    ensures a.id in Ids(TreePart(nodes))
    decreases d
  {
    RootsMembers(nodes);
    TreePartVisits(nodes);
    if d == 0 {
      assert a in Roots(nodes);
    } else {
      var p := Up(nodes, a).value;
      NodeByIdProps(nodes, a.parent.value);
      TreeVisited(nodes, p, d - 1);
      ChildVisited(nodes, TreePart(nodes), p, a);
    }
  }

  lemma TreePartVisits(nodes: seq<Agent>)
    ensures forall a :: a in Roots(nodes) ==> a.id in Ids(TreePart(nodes))
    ensures ChildrenSeen(nodes, Ids(TreePart(nodes)), TreePart(nodes))
  {
    RootsMembers(nodes);
    StartsListed(nodes, Roots(nodes));
    var todo := AtDepth(Roots(nodes), 0);
    WalkVisits(nodes, todo, {});
    WalkChildren(nodes, todo, {});
    hide Walk, Ids, ChildrenSeen, Roots, Listed;
    var ids := Ids(TreePart(nodes));
    assert {} + ids == ids;
    forall a | a in Roots(nodes) ensures a.id in ids {
      var i :| 0 <= i < |Roots(nodes)| && Roots(nodes)[i] == a;
      assert todo[i] in todo;
    }
  }

  lemma ChildVisited(nodes: seq<Agent>, out: seq<Entry>, p: Agent, a: Agent)
    requires ChildrenSeen(nodes, Ids(out), out) && p.id in Ids(out) && a in nodes && a.parent == Some(p.id)
    ensures a.id in Ids(out)
  {
    var e :| e in out && e.0.id == p.id;
  }

  // Every distinct agent appears exactly once.
  lemma FullIsPermutation(nodes: seq<Agent>)
    requires Distinct(nodes)
    ensures Once(Full(nodes)) && Listed(nodes, Full(nodes))
    ensures forall a :: a in nodes ==> a.id in Ids(Full(nodes))
    ensures |Full(nodes)| == |nodes|
  {
    FullIsWalk(nodes);
    var todo, out := AtDepth(Roots(nodes) + Others(nodes), 0), Full(nodes);
    WalkVisits(nodes, todo, {});
    forall a | a in nodes
      ensures a.id in Ids(out)
    {
      StartOnStack(nodes, a);
      assert (a, 0) in todo;
    }
    hide *;
    AllIds(nodes, out);
    OnceSize(out);
    DistinctSize(nodes);
  }

  lemma StartOnStack(nodes: seq<Agent>, a: Agent)
    requires a in nodes
    ensures (a, 0) in AtDepth(Roots(nodes) + Others(nodes), 0)
  {
    RootsMembers(nodes);
    assert a in Roots(nodes) || a in Others(nodes);
    hide Roots, Others;
    var starts := Roots(nodes) + Others(nodes);
    assert a in starts;
    var i :| 0 <= i < |starts| && starts[i] == a;
    assert AtDepth(starts, 0)[i] == (a, 0);
  }

  lemma AllIds(nodes: seq<Agent>, out: seq<Entry>)
    requires Listed(nodes, out) && forall a :: a in nodes ==> a.id in Ids(out)
    ensures Ids(out) == IdSet(nodes)
  {
  }

  lemma {:induction false} OnceSize(out: seq<Entry>)
    requires Once(out)
    ensures |Ids(out)| == |out|
  {
    if out != [] {
      var rest := out[1..];
      OnceSize(rest);
      assert out == [out[0]] + rest;
      IdsOfCons(out[0], rest);
      assert out[0].0.id !in Ids(rest);
    }
  }

  lemma {:induction false} DistinctSize(nodes: seq<Agent>)
    requires Distinct(nodes)
    ensures |IdSet(nodes)| == |nodes|
  {
    if nodes != [] {
      var rest := nodes[1..];
      DistinctSize(rest);
      assert forall a :: a in nodes <==> a == nodes[0] || a in rest;
      assert IdSet(nodes) == {nodes[0].id} + IdSet(rest);
      assert nodes[0].id !in IdSet(rest);
    }
  }

  // ----- The loop -----

  // At most `MAX_TREE_NODES` rows.
  ghost function Expected(nodes: seq<Agent>): seq<Entry> {
    Full(nodes)[..Min(MAX_TREE_NODES, |Full(nodes)|)]
  }

  method Dictionary(agents: seq<Agent>) returns (byId: seq<Agent>)
    ensures byId == ById(agents)
  {
    byId := [];
    for n := 0 to |agents|
      invariant byId == ById(agents[..n])
    {
      assert agents[..n + 1][..n] == agents[..n];
      byId := Put(byId, agents[n]);
    }
    assert agents[..|agents|] == agents;
  }

  predicate HasNode(nodes: seq<Agent>, id: string) {
    NodeById(nodes, id).Some?
  }

  function Lookup(children: map<string, seq<Agent>>, id: string): seq<Agent> {
    if id in children then children[id] else []
  }

  // The children lists hold what the first agents put there.
  ghost predicate Grouped(nodes: seq<Agent>, front: seq<Agent>, children: map<string, seq<Agent>>) {
    forall id :: HasNode(nodes, id) ==> Lookup(children, id) == Filter(ChildOf(id), front)
  }

  lemma GroupOne(nodes: seq<Agent>, front: seq<Agent>, item: Agent, children: map<string, seq<Agent>>)
    requires Grouped(nodes, front, children)
    ensures Up(nodes, item).None? ==> Grouped(nodes, front + [item], children)
    ensures Filter(RootTest(nodes), front + [item]) == Filter(RootTest(nodes), front) + if Up(nodes, item).None? then [item] else []
    ensures Filter(OtherTest(nodes), front + [item]) == Filter(OtherTest(nodes), front) + if Up(nodes, item).Some? then [item] else []
    ensures Up(nodes, item).Some? ==>
      Grouped(nodes, front + [item], children[item.parent.value := Lookup(children, item.parent.value) + [item]])
  {
    assert (front + [item])[..|front|] == front;
    forall id | HasNode(nodes, id)
      ensures Filter(ChildOf(id), front + [item]) == Filter(ChildOf(id), front) + if item.parent == Some(id) then [item] else []
    {
    }
  }

  lemma GroupNothing(nodes: seq<Agent>)
    ensures Grouped(nodes, [], map[])
    ensures Filter(RootTest(nodes), []) == [] && Filter(OtherTest(nodes), []) == []
  {
  }

  method Group(byId: seq<Agent>) returns (children: map<string, seq<Agent>>, roots: seq<Agent>, others: seq<Agent>)
    ensures Grouped(byId, byId, children)
    ensures roots == Filter(RootTest(byId), byId) && others == Filter(OtherTest(byId), byId)
  {
    hide Grouped, Lookup, Filter;
    children, roots, others := map[], [], [];
    GroupNothing(byId);
    for n := 0 to |byId|
      invariant Grouped(byId, byId[..n], children)
      invariant roots == Filter(RootTest(byId), byId[..n]) && others == Filter(OtherTest(byId), byId[..n])
    {
      var item := byId[n];
      GroupOne(byId, byId[..n], item, children);
      assert byId[..n + 1] == byId[..n] + [item];
      if Up(byId, item).Some? {
        children := children[item.parent.value := Lookup(children, item.parent.value) + [item]];
        others := others + [item];
      } else {
        roots := roots + [item];
      }
    }
    assert byId[..|byId|] == byId;
  }

  // What the stack and the starts not yet pushed still have to produce.
  ghost predicate Producing(nodes: seq<Agent>, result: seq<Entry>, todo: seq<Entry>, visited: set<string>) {
    && Listed(nodes, todo)
    && if |result| < MAX_TREE_NODES then result + Walk(nodes, todo, visited) == Full(nodes)
       else |result| == MAX_TREE_NODES && result <= Full(nodes)
  }

  lemma ProduceStep(nodes: seq<Agent>, result: seq<Entry>, todo: seq<Entry>, visited: set<string>)
    requires Producing(nodes, result, todo, visited) && todo != [] && |result| < MAX_TREE_NODES
    ensures if todo[0].0.id in visited then Producing(nodes, result, todo[1..], visited)
      else Producing(nodes, result + [Shown(todo[0])], Next(nodes, todo), visited + {todo[0].0.id})
    ensures todo[0].0.id !in visited ==> Unseen(nodes, visited + {todo[0].0.id}) < Unseen(nodes, visited)
  {
    VisitListed(nodes, todo, visited);
    WalkUnfolds(nodes, todo, visited);
    if todo[0].0.id in visited {
      hide Next, Listed, Full, Unseen, Walk;
    } else {
      ProduceShown(nodes, result, todo, visited);
    }
  }

  lemma ProduceShown(nodes: seq<Agent>, result: seq<Entry>, todo: seq<Entry>, visited: set<string>)
    requires Producing(nodes, result, todo, visited) && todo != [] && |result| < MAX_TREE_NODES
    requires todo[0].0.id !in visited && Listed(nodes, Next(nodes, todo))
    requires Walk(nodes, todo, visited) == [Shown(todo[0])] + Walk(nodes, Next(nodes, todo), visited + {todo[0].0.id})
    ensures Producing(nodes, result + [Shown(todo[0])], Next(nodes, todo), visited + {todo[0].0.id})
  {
    hide Next, Listed, Full, Unseen, Walk, Shown;
    PrefixOfWhole(result, Shown(todo[0]), Walk(nodes, Next(nodes, todo), visited + {todo[0].0.id}), Full(nodes));
  }

  lemma PrefixOfWhole(result: seq<Entry>, e: Entry, rest: seq<Entry>, whole: seq<Entry>)
    requires result + ([e] + rest) == whole
    ensures (result + [e]) + rest == whole && result + [e] <= whole
  {
    assert (result + [e]) + rest == result + ([e] + rest);
  }

  // The children of an agent, sorted and pushed, lie on the stack in visiting order.
  lemma PushOrder(stack: seq<Entry>, down: seq<Agent>, depth: nat, after: seq<Entry>)
    ensures Reverse(stack + AtDepth(down, depth)) + after == AtDepth(Reverse(down), depth) + (Reverse(stack) + after)
  {
  }

  method OrderedAgents(agents: seq<Agent>) returns (result: seq<Entry>)
    ensures result == Expected(ById(agents))
  {
    var byId := Dictionary(agents);
    ByIdIsDictionary(agents);
    var children, roots, others := Group(byId);
    var starts := SortBy(RootKey(), roots) + SortBy(RootKey(), others);
    RootsMembers(byId);
    StartsListed(byId, starts);
    var visited: set<string> := {};
    result := [];
    assert starts[0..] == starts;
    assert Producing(byId, result, AtDepth(starts[0..], 0), visited) by {
      assert [] + Full(byId) == Full(byId);
    }
    hide *;
    for n := 0 to |starts|
      invariant Producing(byId, result, AtDepth(starts[n..], 0), visited)
    {
      var stack: seq<Entry> := [(starts[n], 0)];
      ghost var later := AtDepth(starts[n + 1..], 0);
      FirstStart(starts, n);
      while stack != [] && |result| < MAX_TREE_NODES
        invariant Producing(byId, result, Reverse(stack) + later, visited)
        decreases Unseen(byId, visited), |stack|
      {
        result, visited, stack := Visit(byId, children, result, visited, stack, later);
      }
      LeaveStack(byId, result, stack, later, visited);
    }
    NothingLeft(byId, result, starts, visited);
  }

  lemma FirstStart(starts: seq<Agent>, n: nat)
    requires n < |starts|
    ensures Reverse([(starts[n], 0)]) + AtDepth(starts[n + 1..], 0) == AtDepth(starts[n..], 0)
  {
  }

  lemma NothingLeft(nodes: seq<Agent>, result: seq<Entry>, starts: seq<Agent>, visited: set<string>)
    requires Producing(nodes, result, AtDepth(starts[|starts|..], 0), visited)
    ensures result == Expected(nodes)
  {
    assert AtDepth(starts[|starts|..], 0) == [];
    if |result| < MAX_TREE_NODES {
      assert result + [] == result;
      assert Full(nodes)[..|Full(nodes)|] == Full(nodes);
    } else {
      assert Full(nodes)[..|result|] == result;
    }
  }

  // Pop one entry; unless it was visited, show it and push its children.
  method Visit(byId: seq<Agent>, children: map<string, seq<Agent>>, result: seq<Entry>, visited: set<string>, stack: seq<Entry>,
               ghost later: seq<Entry>)
      returns (result': seq<Entry>, visited': set<string>, stack': seq<Entry>)
    requires Distinct(byId) && Grouped(byId, byId, children)
    requires Producing(byId, result, Reverse(stack) + later, visited) && stack != [] && |result| < MAX_TREE_NODES
    ensures Producing(byId, result', Reverse(stack') + later, visited')
    ensures Unseen(byId, visited') < Unseen(byId, visited) || (visited' == visited && |stack'| < |stack|)
  {
    hide *;
    Popped(byId, children, result, visited, stack, later);
    var top := |stack| - 1;
    var (item, depth) := stack[top];
    stack' := stack[..top];
    if item.id in visited {
      return result, visited, stack';
    }
    var down := SortBy(ChildKeyDown(), Lookup(children, item.id));
    visited' := visited + {item.id};
    result' := result + [Shown(stack[top])];
    stack' := stack' + AtDepth(down, depth + 1);
  }

  lemma Popped(nodes: seq<Agent>, children: map<string, seq<Agent>>, result: seq<Entry>, visited: set<string>,
               stack: seq<Entry>, later: seq<Entry>)
    requires Distinct(nodes) && Grouped(nodes, nodes, children)
    requires Producing(nodes, result, Reverse(stack) + later, visited) && stack != [] && |result| < MAX_TREE_NODES
    ensures var top := |stack| - 1;
      var (item, depth) := stack[top];
      if item.id in visited then Producing(nodes, result, Reverse(stack[..top]) + later, visited)
      else
        var down := SortBy(ChildKeyDown(), Lookup(children, item.id));
        && Producing(nodes, result + [Shown(stack[top])],
                     Reverse(stack[..top] + AtDepth(down, depth + 1)) + later, visited + {item.id})
        && Unseen(nodes, visited + {item.id}) < Unseen(nodes, visited)
  {
    var top := |stack| - 1;
    var (item, depth) := stack[top];
    var todo := Reverse(stack) + later;
    PopOrder(stack, later);
    TopListed(nodes, result, todo, visited);
    hide Producing, Reverse, Unseen, Walk, Full, AtDepth, Filter, SortBy, HasNode;
    ProduceStep(nodes, result, todo, visited);
    assert Lookup(children, item.id) == Filter(ChildOf(item.id), nodes);
    PushOrder(stack[..top], Descendants(nodes, item.id), depth + 1, later);
  }

  lemma TopListed(nodes: seq<Agent>, result: seq<Entry>, todo: seq<Entry>, visited: set<string>)
    requires Distinct(nodes) && Producing(nodes, result, todo, visited) && todo != []
    ensures HasNode(nodes, todo[0].0.id)
  {
    assert todo[0] in todo;
    NodeByIdProps(nodes, todo[0].0.id);
  }

  lemma PopOrder(stack: seq<Entry>, later: seq<Entry>)
    requires stack != []
    ensures var todo := Reverse(stack) + later;
      todo[0] == stack[|stack| - 1] && todo[1..] == Reverse(stack[..|stack| - 1]) + later
  {
  }

  lemma LeaveStack(nodes: seq<Agent>, result: seq<Entry>, stack: seq<Entry>, later: seq<Entry>, visited: set<string>)
    requires Producing(nodes, result, Reverse(stack) + later, visited)
    requires stack == [] || |result| >= MAX_TREE_NODES
    ensures Producing(nodes, result, later, visited)
  {
    if stack == [] {
      assert Reverse(stack) + later == later;
    } else {
      forall e | e in later ensures e.0 in nodes {
        assert e in Reverse(stack) + later;
      }
    }
  }

  // ----- The promises of the list -----

  // Exactly min(n, 20000) rows, one per distinct agent.
  lemma RowsAreDistinctAgents(agents: seq<Agent>)
    ensures var nodes, rows := ById(agents), Expected(ById(agents));
      && |rows| == Min(|nodes|, MAX_TREE_NODES)
      && Once(rows) && Listed(nodes, rows)
      && (|nodes| <= MAX_TREE_NODES ==> forall a :: a in nodes ==> a.id in Ids(rows))
  {
    ByIdIsDictionary(agents);
    var nodes := ById(agents);
    FullIsPermutation(nodes);
    hide ById, Full;
    if |nodes| <= MAX_TREE_NODES {
      assert Full(nodes)[..|Full(nodes)|] == Full(nodes);
    }
    CutKeeps(nodes, Full(nodes), Min(MAX_TREE_NODES, |Full(nodes)|));
  }

  lemma CutKeeps(nodes: seq<Agent>, rows: seq<Entry>, n: nat)
    requires Once(rows) && Listed(nodes, rows) && n <= |rows|
    ensures Once(rows[..n]) && Listed(nodes, rows[..n])
  {
    assert forall i :: 0 <= i < n ==> rows[..n][i] == rows[i];
  }

  // A row of an agent under a true root shows min(tree depth, 64) and comes after its parent's row.
  lemma TreeRowsFollowParents(agents: seq<Agent>, i: nat)
    requires i < |Expected(ById(agents))| && InTree(ById(agents), Expected(ById(agents))[i].0)
    ensures TreeRow(ById(agents), Expected(ById(agents))[i], Ids(Expected(ById(agents))[..i]))
  {
    ByIdIsDictionary(agents);
    var nodes, rows := ById(agents), Expected(ById(agents));
    InTreeIsEarly(nodes, i);
    TreePartRow(nodes, i);
    hide ById, Full, TreePart, TreeRow, InTree;
    assert rows[..i] == Full(nodes)[..i];
  }

  lemma TreePartRow(nodes: seq<Agent>, i: nat)
    requires Distinct(nodes) && i < |TreePart(nodes)|
    ensures TreeRow(nodes, TreePart(nodes)[i], Ids(TreePart(nodes)[..i]))
  {
    RootsReady(nodes);
    WalkTreeRows(nodes, AtDepth(Roots(nodes), 0), {});
    FullIsWalk(nodes);
    hide TreePart, Roots, Walk, TreeRow;
    assert {} + Ids(TreePart(nodes)[..i]) == Ids(TreePart(nodes)[..i]);
  }

  lemma InTreeIsEarly(nodes: seq<Agent>, i: nat)
    requires Distinct(nodes) && i < |Full(nodes)| && InTree(nodes, Full(nodes)[i].0)
    ensures i < |TreePart(nodes)| && Full(nodes)[i] == TreePart(nodes)[i]
    ensures Full(nodes)[..i] == TreePart(nodes)[..i]
  {
    var full, part, a := Full(nodes), TreePart(nodes), Full(nodes)[i].0;
    var after := FullSplits(nodes);
    FullIsPermutation(nodes);
    assert full[i] in full;
    var d: nat :| AtTreeDepth(nodes, a, d);
    TreeVisited(nodes, a, d);
    SameRow(part, after, i);
  }

  lemma SameRow(part: seq<Entry>, after: seq<Entry>, i: nat)
    requires Once(part + after) && i < |part + after| && (part + after)[i].0.id in Ids(part)
    ensures i < |part| && (part + after)[i] == part[i] && (part + after)[..i] == part[..i]
  {
    var full := part + after;
    var e :| e in part && e.0.id == full[i].0.id;
    var j :| 0 <= j < |part| && part[j] == e;
    assert full[j] == part[j];
    assert i == j;
  }

  // Under a true root every subtree is one block of rows that begins with its top agent.
  lemma SubtreesAreContiguous(agents: seq<Agent>, x: Agent) returns (lo: nat, hi: nat)
    requires x in ById(agents) && InTree(ById(agents), x)
    ensures var full := Full(ById(agents));
      && lo < hi <= |full| && full[lo].0 == x
      && forall j :: 0 <= j < |full| ==> (lo <= j < hi <==> Under(ById(agents), x, full[j].0))
  {
    ByIdIsDictionary(agents);
    var nodes := ById(agents);
    lo, hi := BlockInTree(nodes, x);
    var after := FullSplits(nodes);
    hide ById, Full, TreePart, Under, InTree;
    var full, part := Full(nodes), TreePart(nodes);
    forall j | 0 <= j < |full|
      ensures lo <= j < hi <==> Under(nodes, x, full[j].0)
    {
      if j >= |part| {
        AfterTree(nodes, x, j);
      } else {
        assert full[j] == part[j];
      }
    }
  }

  lemma BlockInTree(nodes: seq<Agent>, x: Agent) returns (lo: nat, hi: nat)
    requires Distinct(nodes) && x in nodes && InTree(nodes, x)
    ensures Block(nodes, x, TreePart(nodes), lo, hi)
  {
    RootsReady(nodes);
    var d: nat :| AtTreeDepth(nodes, x, d);
    TreeVisited(nodes, x, d);
    FullIsWalk(nodes);
    hide TreePart, Full, Roots, Walk;
    lo, hi := SubtreeBlock(nodes, AtDepth(Roots(nodes), 0), {}, x);
  }

  // No row after the trees belongs to one.
  lemma AfterTree(nodes: seq<Agent>, x: Agent, j: nat)
    requires Distinct(nodes) && InTree(nodes, x) && |TreePart(nodes)| <= j < |Full(nodes)|
    ensures !Under(nodes, x, Full(nodes)[j].0)
  {
    hide Full, TreePart;
    if Under(nodes, x, Full(nodes)[j].0) {
      UnderIsInTree(nodes, x, Full(nodes)[j].0);
      InTreeIsEarly(nodes, j);
    }
  }

  // Of the rows that are listed, too: the cut at the limit leaves the block's first rows, or none of it.
  lemma ListedSubtreesAreContiguous(agents: seq<Agent>, x: Agent) returns (lo: nat, hi: nat)
    requires x in ById(agents) && InTree(ById(agents), x)
    ensures var rows := Expected(ById(agents));
      && lo < hi && (lo < |rows| ==> rows[lo].0 == x)
      && (hi > |rows| ==> |rows| == MAX_TREE_NODES)
      && forall j :: 0 <= j < |rows| ==> (lo <= j < Min(hi, MAX_TREE_NODES) <==> Under(ById(agents), x, rows[j].0))
  {
    lo, hi := SubtreesAreContiguous(agents, x);
    hide ById, Full, Under, InTree;
    var full, rows := Full(ById(agents)), Expected(ById(agents));
    forall j | 0 <= j < |rows|
      ensures rows[j] == full[j]
      ensures lo <= j < Min(hi, MAX_TREE_NODES) <==> Under(ById(agents), x, rows[j].0)
    {
    }
  }

  lemma UnderIsInTree(nodes: seq<Agent>, x: Agent, y: Agent)
    requires InTree(nodes, x) && Under(nodes, x, y)
    ensures InTree(nodes, y)
  {
    var k: nat :| Climb(nodes, y, k) == Some(x);
    var d: nat :| AtTreeDepth(nodes, x, d);
    ClimbTwice(nodes, y, k, d);
    assert AtTreeDepth(nodes, y, k + d);
  }

  lemma {:induction false} ClimbTwice(nodes: seq<Agent>, y: Agent, k: nat, d: nat)
    requires Climb(nodes, y, k).Some?
    ensures Climb(nodes, y, k + d) == Climb(nodes, Climb(nodes, y, k).value, d)
    decreases k
  {
    if k > 0 {
      ClimbTwice(nodes, Up(nodes, y).value, k - 1, d);
    }
  }
}
