// Which listed native threads belong to a proved root: a worklist over parent links.
module ChildClosure {
  import opened Common

  // Fields that are not strings in the provider's reply are None.
  datatype Child = Child(id: Option<string>, parent: Option<string>)

  predicate Usable(c: Child) {
    c.id.Some? && c.id.value != "" && c.parent.Some?
  }

  // `s` holds the root and every usable thread whose parent it holds.
  ghost predicate Closed(root: string, children: seq<Child>, s: set<string>) {
    root in s && forall c :: c in children && Usable(c) && c.parent.value in s ==> c.id.value in s
  }

  function Ids(records: seq<Child>): set<string> {
    set c | c in records && c.id.Some? :: c.id.value
  }

  // pending.remove(child): the first equal element.
  function Remove(pending: seq<Child>, child: Child): seq<Child> {
    if pending == [] then []
    else if pending[0] == child then pending[1..]
    else [pending[0]] + Remove(pending[1..], child)
  }

  lemma {:induction false} RemoveOne(pending: seq<Child>, child: Child)
    requires child in pending
    ensures multiset(Remove(pending, child)) == multiset(pending) - multiset{child}
    ensures |Remove(pending, child)| == |pending| - 1
  {
    assert pending == [pending[0]] + pending[1..];
    if pending[0] != child {
      RemoveOne(pending[1..], child);
    }
  }

  predicate Blocked(c: Child, known: set<string>) {
    c.id.None? || c.parent.None? || c.parent.value !in known
  }

  // Everything the records say about the threads they name, at any point of the loop.
  ghost predicate Sound(root: string, children: seq<Child>, records: seq<Child>, known: set<string>) {
    && known == {root} + Ids(records)
    && (forall i :: 0 <= i < |records| ==> records[i] in children && Usable(records[i]) && records[i].id.value != root)
    && (forall i, j :: 0 <= i < j < |records| ==> records[i].id != records[j].id)
    && (forall i :: 0 <= i < |records| ==>
          records[i].parent.value == root || records[i].parent.value in Ids(records[..i]))
    && (forall s :: Closed(root, children, s) ==> known <= s)
  }

  lemma SoundSpelled(root: string, children: seq<Child>, records: seq<Child>, known: set<string>)
    requires Sound(root, children, records, known)
    ensures forall id :: id in known <==> id == root || exists i :: 0 <= i < |records| && records[i].id == Some(id)
    ensures forall i :: 0 <= i < |records| ==>
      && records[i] in children && records[i].id.Some? && records[i].id.value != "" && records[i].id.value != root
      && (records[i].parent == Some(root) || exists j :: 0 <= j < i && records[j].id.Some? && records[j].id == records[i].parent)
    ensures forall i, j :: 0 <= i < j < |records| ==> records[i].id != records[j].id
  {
    hide Closed;
    forall i | 0 <= i < |records|
      ensures records[i].parent == Some(root) || exists j :: 0 <= j < i && records[j].id.Some? && records[j].id == records[i].parent
    {
      if records[i].parent.value != root {
        var c :| c in records[..i] && c.id == records[i].parent;
        var j :| 0 <= j < i && records[..i][j] == c;
        assert records[j] == c;
      }
    }
    forall id
      ensures id in known <==> id == root || exists i :: 0 <= i < |records| && records[i].id == Some(id)
    {
      if id in Ids(records) {
        var c :| c in records && c.id == Some(id);
      }
    }
  }

  lemma LeastSpelled(root: string, children: seq<Child>, records: seq<Child>, known: set<string>)
    requires Sound(root, children, records, known)
    ensures forall s: set<string> ::
      (root in s && forall c ::
         c in children && c.id.Some? && c.id.value != "" && c.parent.Some? && c.parent.value in s ==> c.id.value in s)
      ==> known <= s
  {
    forall s: set<string> |
      root in s && forall c ::
        c in children && c.id.Some? && c.id.value != "" && c.parent.Some? && c.parent.value in s ==> c.id.value in s
      ensures known <= s
    {
      assert Closed(root, children, s);
    }
  }

  lemma Emit(root: string, children: seq<Child>, records: seq<Child>, known: set<string>, c: Child)
    requires Sound(root, children, records, known)
    requires c in children && Usable(c) && c.parent.value in known && c.id.value !in known
    ensures Sound(root, children, records + [c], known + {c.id.value})
  {
    var more := records + [c];
    assert Ids(more) == Ids(records) + {c.id.value} by {
      assert forall x :: x in more <==> x in records || x == c;
    }
    forall i | 0 <= i < |records|
      ensures records[i].id != c.id && more[..i] == records[..i]
    {
      assert records[i] in records;
    }
    assert more[..|records|] == records;
    forall s | Closed(root, children, s)
      ensures known + {c.id.value} <= s
    {
      assert known <= s;
    }
    hide Closed;
  }

  // Threads that are no longer pending are known.
  ghost predicate Settled(children: seq<Child>, pending: seq<Child>, known: set<string>) {
    forall c :: c in children && c !in pending && Usable(c) ==> c.id.value in known
  }

  lemma RemoveSettles(children: seq<Child>, pending: seq<Child>, child: Child, known: set<string>)
    requires child in pending && Settled(children, pending, known)
    ensures Settled(children, Remove(pending, child), if Usable(child) then known + {child.id.value} else known)
    ensures forall c :: c in Remove(pending, child) ==> c in pending
    ensures |Remove(pending, child)| == |pending| - 1
  {
    RemoveOne(pending, child);
    var left := Remove(pending, child);
    assert forall c :: c in pending <==> c in multiset(pending);
    assert forall c :: c in left <==> c in multiset(left);
  }

  // What the copy still holds is still pending.
  ghost predicate Covers(pending: seq<Child>, rest: seq<Child>) {
    multiset(rest) <= multiset(pending)
  }

  lemma TakeFirst(pending: seq<Child>, copy: seq<Child>, n: nat)
    requires n < |copy| && Covers(pending, copy[n..])
    ensures copy[n] in pending && Covers(pending, copy[n + 1..]) && Covers(Remove(pending, copy[n]), copy[n + 1..])
  {
    assert copy[n..] == [copy[n]] + copy[n + 1..];
    assert copy[n] in multiset(pending);
    RemoveOne(pending, copy[n]);
  }

  lemma NotBlocked(c: Child, known: set<string>)
    requires !Blocked(c, known)
    ensures c.id.Some? && c.parent.Some? && c.parent.value in known
    ensures Usable(c) <==> c.id.value != ""
  {
  }

  // The records added come from these places among the first n of the worklist, in its order.
  ghost predicate AddedInOrder(pending: seq<Child>, n: nat, before: seq<Child>, records: seq<Child>, at: seq<nat>)
    requires n <= |pending|
  {
    && |records| == |before| + |at| && records[..|before|] == before
    && (forall i, j :: 0 <= i < j < |at| ==> at[i] < at[j])
    && (forall i :: 0 <= i < |at| ==> at[i] < n && records[|before| + i] == pending[at[i]])
  }

  lemma NothingAdded(pending: seq<Child>, before: seq<Child>)
    ensures AddedInOrder(pending, 0, before, before, [])
  {
  }

  lemma AddedNext(pending: seq<Child>, n: nat, before: seq<Child>, records: seq<Child>, at: seq<nat>)
    requires n < |pending| && AddedInOrder(pending, n, before, records, at)
    ensures AddedInOrder(pending, n + 1, before, records, at)
    ensures AddedInOrder(pending, n + 1, before, records + [pending[n]], at + [n])
  {
  }

  // One pass of the inner loop over a copy of the worklist.
  method Pass(root: string, children: seq<Child>, records0: seq<Child>, known0: set<string>, pending0: seq<Child>)
      returns (records: seq<Child>, known: set<string>, pending: seq<Child>, ghost at: seq<nat>)
    requires Sound(root, children, records0, known0) && "" !in known0 && Settled(children, pending0, known0)
    requires forall c :: c in pending0 ==> c in children
    ensures Sound(root, children, records, known) && "" !in known && Settled(children, pending, known)
    ensures forall c :: c in pending ==> c in children
    ensures |pending| <= |pending0|
    ensures |pending| == |pending0| ==> pending == pending0 && forall c :: c in pending ==> Blocked(c, known)
    ensures AddedInOrder(pending0, |pending0|, records0, records, at)
  {
    assert Covers(pending0, pending0[0..]);
    hide Sound, Settled, Remove, Covers, Usable, Blocked, AddedInOrder;
    records, known, pending, at := records0, known0, pending0, [];
    NothingAdded(pending0, records0);
    for n := 0 to |pending0|
      invariant Sound(root, children, records, known) && "" !in known && Settled(children, pending, known)
      invariant forall c :: c in pending ==> c in children
      invariant |pending| <= |pending0|
      invariant Covers(pending, pending0[n..])
      invariant AddedInOrder(pending0, n, records0, records, at)
      invariant |pending| == |pending0| ==> pending == pending0 && forall i :: 0 <= i < n ==> Blocked(pending0[i], known)
    {
      TakeFirst(pending, pending0, n);
      AddedNext(pending0, n, records0, records, at);
      ghost var before := |records|;
      records, known, pending := Consider(root, children, records, known, pending, pending0[n]);
      if |records| > before {
        at := at + [n];
      }
    }
  }

  // One thread of the copy.
  method Consider(root: string, children: seq<Child>, records0: seq<Child>, known0: set<string>, pending0: seq<Child>,
                  child: Child)
      returns (records: seq<Child>, known: set<string>, pending: seq<Child>)
    requires Sound(root, children, records0, known0) && "" !in known0 && Settled(children, pending0, known0)
    requires child in pending0 && forall c :: c in pending0 ==> c in children
    ensures Sound(root, children, records, known) && "" !in known && Settled(children, pending, known)
    ensures forall c :: c in pending ==> c in children
    ensures records == records0 || records == records0 + [child]
    ensures if Blocked(child, known0) then pending == pending0 && records == records0 && known == known0
            else pending == Remove(pending0, child) && |pending| < |pending0|
  {
    hide Sound, Settled, Remove, Usable, Blocked;
    records, known, pending := records0, known0, pending0;
    if Blocked(child, known) {
      return;
    }
    NotBlocked(child, known);
    RemoveSettles(children, pending, child, known);
    pending := Remove(pending, child);
    if child.id.value in known {
      assert known + {child.id.value} == known;
      return;
    }
    if child.id.value != "" && child.parent.value != "" {
      Emit(root, children, records, known, child);
      records := records + [child];
      known := known + {child.id.value};
    }
  }

  // The emitted threads are exactly the least set reachable from the root, each once, parents first.
  method EmitChildren(root: string, children: seq<Child>) returns (records: seq<Child>, known: set<string>)
    requires root != ""
    ensures forall id :: id in known <==> id == root || exists i :: 0 <= i < |records| && records[i].id == Some(id)
    ensures root in known
    ensures forall c ::
      c in children && c.id.Some? && c.id.value != "" && c.parent.Some? && c.parent.value in known ==> c.id.value in known
    ensures forall s: set<string> ::
      (root in s && forall c ::
         c in children && c.id.Some? && c.id.value != "" && c.parent.Some? && c.parent.value in s ==> c.id.value in s)
      ==> known <= s
    ensures forall i :: 0 <= i < |records| ==>
      && records[i] in children && records[i].id.Some? && records[i].id.value != "" && records[i].id.value != root
      && (records[i].parent == Some(root) || exists j :: 0 <= j < i && records[j].id.Some? && records[j].id == records[i].parent)
    ensures forall i, j :: 0 <= i < j < |records| ==> records[i].id != records[j].id
  {
    records, known := [], {root};
    var pending := children;
    while pending != []
      invariant Sound(root, children, records, known) && "" !in known && Settled(children, pending, known)
      invariant forall c :: c in pending ==> c in children
      decreases |pending|
    {
      var before := |pending|;
      ghost var at;
      records, known, pending, at := Pass(root, children, records, known, pending);
      if |pending| == before {
        break;
      }
    }
    SoundSpelled(root, children, records, known);
    LeastSpelled(root, children, records, known);
    assert Closed(root, children, known);
  }
}
