// The event table of one store: rows in id order, and the queries the monitor asks.
module EventLog {
  import opened Common

  datatype Event = Event(id: nat, mission: string, kind: string, data: string)

  ghost predicate Ordered(log: seq<Event>) {
    forall i, j :: 0 <= i < j < |log| ==> log[i].id < log[j].id
  }

  ghost predicate Descending(rows: seq<Event>) {
    forall i, j :: 0 <= i < j < |rows| ==> rows[i].id > rows[j].id
  }

  predicate AtMost(anchor: Option<int>, id: int) {
    anchor.None? || id <= anchor.value
  }

  // SELECT * FROM events WHERE mission_id=? AND id<=? ORDER BY id DESC
  function Newest(log: seq<Event>, mission: string, anchor: Option<int>): (rows: seq<Event>)
  {
    Reverse(Filter((e: Event) => e.mission == mission && AtMost(anchor, e.id), log))
  }

  lemma {:induction false} FilterOrdered(p: Event -> bool, log: seq<Event>)
    requires Ordered(log)
    ensures Ordered(Filter(p, log))
  {
    if log != [] {
      var front := Filter(p, log[..|log| - 1]);
      FilterOrdered(p, log[..|log| - 1]);
      forall i | 0 <= i < |front| ensures front[i].id < log[|log| - 1].id {
        assert front[i] in log[..|log| - 1];
      }
    }
  }

  lemma NewestDescends(log: seq<Event>, mission: string, anchor: Option<int>)
    requires Ordered(log)
    ensures Descending(Newest(log, mission, anchor))
    ensures anchor.None? ==> forall e :: e in Newest(log, mission, anchor) <==> e in log && e.mission == mission
    ensures anchor.Some? ==>
      forall e :: e in Newest(log, mission, anchor) <==> e in log && e.mission == mission && e.id <= anchor.value
  {
    var p := (e: Event) => e.mission == mission && AtMost(anchor, e.id);
    var up := Filter(p, log);
    FilterOrdered(p, log);
    forall e ensures e in Reverse(up) <==> e in up {
      if e in up {
        var i :| 0 <= i < |up| && up[i] == e;
        assert Reverse(up)[|up| - 1 - i] == e;
      }
    }
  }

  lemma {:induction false} DescendingSize(rows: seq<Event>)
    requires Descending(rows)
    ensures |set e | e in rows| == |rows|
  {
    if rows != [] {
      DescendingSize(rows[1..]);
      assert (set e | e in rows) == {rows[0]} + set e | e in rows[1..];
      assert rows[0] !in rows[1..];
    }
  }

  // Row k of a strictly descending list has exactly k rows above it.
  lemma DescendingRank(rows: seq<Event>, k: nat)
    requires Descending(rows) && k < |rows|
    ensures |set e | e in rows && e.id > rows[k].id| == k
  {
    DescendingSize(rows[..k]);
    forall e
      ensures e in rows && e.id > rows[k].id <==> e in rows[..k]
    {
      if e in rows && e.id > rows[k].id {
        var i :| 0 <= i < |rows| && rows[i] == e;
        assert rows[..k][i] == e;
      }
    }
    assert (set e | e in rows && e.id > rows[k].id) == set e | e in rows[..k];
  }

  // Two strictly descending lists of the same rows are the same list.
  lemma {:induction false} DescendingUnique(a: seq<Event>, b: seq<Event>)
    requires Descending(a) && Descending(b)
    requires forall e :: e in a <==> e in b
    ensures a == b
  {
    assert a != [] ==> a[0] in b;
    assert b != [] ==> b[0] in a;
    if a != [] && b != [] {
      forall e ensures e in a[1..] <==> e in b[1..] {
        assert e in a[1..] <==> e in a && e != a[0];
        assert e in b[1..] <==> e in b && e != b[0];
      }
      DescendingUnique(a[1..], b[1..]);
    }
  }

  // A bound that separates the first `k` rows from the rest selects exactly the rest.
  lemma BoundSelectsSuffix(log: seq<Event>, mission: string, anchor: int, k: nat, bound: int)
    requires Ordered(log) && bound <= anchor
    requires k <= |Newest(log, mission, Some(anchor))|
    requires forall i :: 0 <= i < k ==> Newest(log, mission, Some(anchor))[i].id > bound
    requires forall i :: k <= i < |Newest(log, mission, Some(anchor))| ==> Newest(log, mission, Some(anchor))[i].id <= bound
    ensures Newest(log, mission, Some(bound)) == Newest(log, mission, Some(anchor))[k..]
  {
    var rows := Newest(log, mission, Some(anchor));
    NewestDescends(log, mission, Some(anchor));
    NewestDescends(log, mission, Some(bound));
    forall e ensures e in Newest(log, mission, Some(bound)) <==> e in rows[k..] {
      if e in Newest(log, mission, Some(bound)) {
        assert e in rows;
        var i :| 0 <= i < |rows| && rows[i] == e;
        assert rows[k..][i - k] == e;
      }
    }
    DescendingUnique(Newest(log, mission, Some(bound)), rows[k..]);
  }

  // Appending a newer event changes no query bounded below it.
  lemma AppendIsAbove(log: seq<Event>, e: Event, mission: string, upper: int)
    requires e.id > upper
    ensures Newest(log + [e], mission, Some(upper)) == Newest(log, mission, Some(upper))
  {
    assert (log + [e])[..|log + [e]| - 1] == log;
  }

  // Appending an event that the query takes puts it first.
  lemma AppendIsBelow(log: seq<Event>, e: Event, upper: int)
    requires e.id <= upper
    ensures Newest(log + [e], e.mission, Some(upper)) == [e] + Newest(log, e.mission, Some(upper))
  {
    assert (log + [e])[..|log + [e]| - 1] == log;
  }
}
