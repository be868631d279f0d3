// The newest operator events, read kind by kind through an index, against one filter over the log.
module TopK {
  import opened Common
  import opened EventLog

  // ----- Kind order (SQLite compares text by its characters' codes) -----

  predicate Less(a: string, b: string) {
    b != "" && (a == "" || a[0] < b[0] || (a[0] == b[0] && Less(a[1..], b[1..])))
  }

  lemma {:induction false} LessIsTotal(a: string, b: string)
    ensures a == b || Less(a, b) || Less(b, a)
    ensures !(Less(a, b) && Less(b, a)) && !Less(a, a)
  {
    if a != "" && b != "" {
      LessIsTotal(a[1..], b[1..]);
      assert a == [a[0]] + a[1..] && b == [b[0]] + b[1..];
    }
    if a != "" {
      LessIsTotal(a[1..], a[1..]);
    }
  }

  lemma {:induction false} LessTransitive(a: string, b: string, c: string)
    requires Less(a, b) && Less(b, c)
    ensures Less(a, c)
  {
    if a != "" && a[0] == b[0] == c[0] {
      LessTransitive(a[1..], b[1..], c[1..]);
    }
  }

  predicate After(k: Option<string>, kind: string) {
    k.None? || Less(k.value, kind)
  }

  predicate Candidate(e: Event, mission: string, k: Option<string>) {
    e.mission == mission && After(k, e.kind)
  }

  // SELECT MIN(kind) FROM events WHERE mission_id=? AND kind>k
  function LeastKind(log: seq<Event>, mission: string, k: Option<string>): Option<string> {
    if log == [] then None
    else
      var e := log[|log| - 1];
      var rest := LeastKind(log[..|log| - 1], mission, k);
      if Candidate(e, mission, k) && (rest.None? || Less(e.kind, rest.value)) then Some(e.kind) else rest
  }

  lemma {:induction false} LeastKindIsLeast(log: seq<Event>, mission: string, k: Option<string>)
    ensures var r := LeastKind(log, mission, k);
      if r.None? then forall e :: e in log ==> !Candidate(e, mission, k)
      else
        && (exists e :: e in log && Candidate(e, mission, k) && e.kind == r.value)
        && (forall e :: e in log && Candidate(e, mission, k) ==> !Less(e.kind, r.value))
  {
    if log != [] {
      var front, last := log[..|log| - 1], log[|log| - 1];
      LeastKindIsLeast(front, mission, k);
      assert forall e :: e in log <==> e in front || e == last;
      LessIsTotal(last.kind, last.kind);
      var rest := LeastKind(front, mission, k);
      if rest.Some? && Less(last.kind, rest.value) {
        forall e | e in front && Candidate(e, mission, k) ensures !Less(e.kind, last.kind) {
          if Less(e.kind, last.kind) {
            LessTransitive(e.kind, last.kind, rest.value);
          }
        }
      }
    }
  }

  // ----- The newest `limit` of each kind -----

  function Picks(mission: string, anchor: Option<int>, p: string -> bool): Event -> bool {
    (e: Event) => e.mission == mission && AtMost(anchor, e.id) && p(e.kind)
  }

  function OfKind(kind: string): Event -> bool {
    (e: Event) => e.kind == kind
  }

  function IsKind(kind: string): string -> bool {
    k => k == kind
  }

  // SELECT * FROM events WHERE mission_id=? AND kind=? [AND id<=?] ORDER BY id DESC LIMIT limit
  function NewestOfKind(log: seq<Event>, mission: string, anchor: Option<int>, kind: string, limit: nat): seq<Event> {
    Reverse(LastN(Filter(Picks(mission, anchor, IsKind(kind)), log), limit))
  }

  lemma LastNOfAppend(s: seq<Event>, x: Event, n: nat)
    requires n > 0
    ensures LastN(s + [x], n) == LastN(s, n - 1) + [x]
    ensures forall e :: e in LastN(s, n - 1) ==> e in LastN(s, n)
  {
    forall e | e in LastN(s, n - 1) ensures e in LastN(s, n) {
      var i :| 0 <= i < |LastN(s, n - 1)| && LastN(s, n - 1)[i] == e;
      assert LastN(s, n)[if |s| >= n then i + 1 else i] == e;
    }
  }

  lemma LastNWithin(s: seq<Event>, n: nat)
    ensures forall e :: e in LastN(s, n) ==> e in s
  {
  }

  lemma LastNPositive(s: seq<Event>, n: nat, e: Event)
    requires e in LastN(s, n)
    ensures n > 0 && s != []
  {
  }

  lemma LastNFront(front: seq<Event>, last: Event, n: nat, e: Event)
    requires n > 0 && e in LastN(front + [last], n) && e != last
    ensures e in LastN(front, n - 1)
  {
    LastNOfAppend(front, last, n);
    hide LastN;
    assert e in LastN(front, n - 1) + [last];
  }

  lemma LastNKeeps(kept: seq<Event>, last: Event, n: nat, e: Event)
    requires n > 0 && e in LastN(kept, n - 1)
    ensures e in LastN(kept, n) && e in LastN(kept + [last], n)
  {
    LastNOfAppend(kept, last, n);
    hide LastN;
    assert e in LastN(kept, n - 1) + [last];
  }

  lemma LastNLast(kept: seq<Event>, last: Event, n: nat)
    requires n > 0
    ensures last in LastN(kept + [last], n)
  {
    LastNOfAppend(kept, last, n);
    hide LastN;
    assert last in LastN(kept, n - 1) + [last];
  }

  // An event among the last `limit` of a list is among the last `limit` of its kind.
  lemma {:induction false} LastOfKind(rows: seq<Event>, kind: string, limit: nat, e: Event)
    requires e in LastN(rows, limit) && e.kind == kind
    ensures e in LastN(Filter(OfKind(kind), rows), limit)
  {
    LastNPositive(rows, limit, e);
    var front, last := rows[..|rows| - 1], rows[|rows| - 1];
    var kept := Filter(OfKind(kind), front);
    assert OfKind(kind)(last) == (last.kind == kind);
    assert kept + [] == kept;
    hide *;
    FrontAndLast(rows);
    FilterLast(OfKind(kind), front, last);
    if e == last {
      LastNLast(kept, last, limit);
    } else {
      LastNFront(front, last, limit, e);
      LastOfKind(front, kind, limit - 1, e);
      LastNKeeps(kept, last, limit, e);
    }
  }

  // ----- Sorting by id -----

  function Insert(e: Event, rows: seq<Event>): seq<Event> {
    if rows == [] || e.id >= rows[0].id then [e] + rows else [rows[0]] + Insert(e, rows[1..])
  }

  // sorted(rows, key=id, reverse=True)
  function SortDescending(rows: seq<Event>): seq<Event> {
    if rows == [] then [] else Insert(rows[0], SortDescending(rows[1..]))
  }

  lemma {:induction false} InsertProps(e: Event, rows: seq<Event>)
    requires Descending(rows) && forall x :: x in rows ==> x.id != e.id
    ensures Descending(Insert(e, rows))
    ensures forall x :: x in Insert(e, rows) <==> x == e || x in rows
  {
    if rows != [] {
      var head, tail := rows[0], rows[1..];
      assert head in rows;
      assert forall x :: x in rows <==> x == head || x in tail;
      if e.id < head.id {
        InsertProps(e, tail);
        ConsDescends(head, Insert(e, tail));
      } else {
        ConsDescends(e, rows);
      }
    }
  }

  lemma ConsDescends(head: Event, rest: seq<Event>)
    requires Descending(rest) && (rest == [] || head.id > rest[0].id || forall x :: x in rest ==> head.id > x.id)
    ensures Descending([head] + rest)
  {
    forall i | 0 <= i < |rest|
      ensures head.id > rest[i].id
    {
      assert rest[i] in rest;
    }
  }

  ghost predicate DistinctIds(rows: seq<Event>) {
    forall i, j :: 0 <= i < j < |rows| ==> rows[i].id != rows[j].id
  }

  lemma {:induction false} SortProps(rows: seq<Event>)
    requires DistinctIds(rows)
    ensures Descending(SortDescending(rows))
    ensures forall x :: x in SortDescending(rows) <==> x in rows
  {
    if rows != [] {
      SortProps(rows[1..]);
      assert forall x :: x in rows <==> x == rows[0] || x in rows[1..];
      InsertProps(rows[0], SortDescending(rows[1..]));
    }
  }

  // A descending list drawn from `rows` that has all of the first `t` begins with them.
  lemma {:induction false} SharedFront(rows: seq<Event>, some: seq<Event>, t: nat)
    requires Descending(rows) && Descending(some) && t <= |rows|
    requires forall e :: e in some ==> e in rows
    requires forall e :: e in rows[..t] ==> e in some
    ensures t <= |some| && some[..t] == rows[..t]
  {
    if t > 0 {
      assert rows[0] == rows[..t][0];
      assert rows[0] in some && some[0] in rows;
      assert some[0] == rows[0];
      forall e | e in some[1..] ensures e in rows[1..] {
        assert e in some && e != some[0];
      }
      forall e | e in rows[1..][..t - 1] ensures e in some[1..] {
        assert e in rows[..t];
        assert e in some && e != rows[0];
      }
      SharedFront(rows[1..], some[1..], t - 1);
      assert some[..t] == [some[0]] + some[1..][..t - 1];
    }
  }

  // ----- The projection -----

  predicate Shown(plumbing: set<string>, kind: string) {
    kind !in plumbing
  }

  function ShownKind(plumbing: set<string>): string -> bool {
    kind => Shown(plumbing, kind)
  }

  // The rows of the shown kinds up to the anchor, oldest first: one filter over the whole log.
  function OperatorRows(log: seq<Event>, mission: string, anchor: Option<int>, plumbing: set<string>): seq<Event> {
    Filter(Picks(mission, anchor, ShownKind(plumbing)), log)
  }

  // The mission's distinct kinds in order, by repeatedly asking for the least kind above the last.
  method DistinctKinds(log: seq<Event>, mission: string) returns (kinds: seq<string>)
    ensures forall e :: e in log && e.mission == mission ==> e.kind in kinds
    ensures forall i :: 0 <= i < |kinds| ==> exists e :: e in log && e.mission == mission && e.kind == kinds[i]
    ensures forall i, j :: 0 <= i < j < |kinds| ==> Less(kinds[i], kinds[j])
  {
    hide LeastKind, Less;
    kinds := [];
    var next := LeastKind(log, mission, None);
    ghost var above: Option<string> := None;
    ghost var left := set e | e in log && e.mission == mission :: e.kind;
    while next.Some?
      invariant next == LeastKind(log, mission, above)
      invariant above == if kinds == [] then None else Some(kinds[|kinds| - 1])
      invariant forall e :: e in log && e.mission == mission ==> e.kind in kinds || After(above, e.kind)
      invariant forall e :: e in log && e.mission == mission && After(above, e.kind) ==> e.kind in left
      invariant forall i :: 0 <= i < |kinds| ==> exists e :: e in log && e.mission == mission && e.kind == kinds[i]
      invariant forall i, j :: 0 <= i < j < |kinds| ==> Less(kinds[i], kinds[j])
      decreases |left|
    {
      var k := next.value;
      NextKind(log, mission, above, k);
      forall i | 0 <= i < |kinds|
        ensures Less(kinds[i], k)
      {
        if i < |kinds| - 1 {
          LessTransitive(kinds[i], kinds[|kinds| - 1], k);
        }
      }
      left := left - {k};
      kinds := kinds + [k];
      above := Some(k);
      next := LeastKind(log, mission, Some(k));
    }
    LeastKindIsLeast(log, mission, above);
  }

  // Moving on to the least kind above the last leaves out that kind and no other.
  lemma NextKind(log: seq<Event>, mission: string, above: Option<string>, k: string)
    requires LeastKind(log, mission, above) == Some(k)
    ensures exists e :: e in log && e.mission == mission && e.kind == k
    ensures After(above, k)
    ensures forall e :: e in log && e.mission == mission && After(above, e.kind) ==> e.kind == k || After(Some(k), e.kind)
    ensures forall e :: e in log && e.mission == mission && After(Some(k), e.kind) ==> After(above, e.kind) && e.kind != k
  {
    LeastKindIsLeast(log, mission, above);
    LessIsTotal(k, k);
    forall e | e in log && e.mission == mission && After(above, e.kind)
      ensures e.kind == k || After(Some(k), e.kind)
    {
      LessIsTotal(e.kind, k);
      assert Candidate(e, mission, above);
    }
    forall e | e in log && e.mission == mission && After(Some(k), e.kind)
      ensures After(above, e.kind) && e.kind != k
    {
      if above.Some? {
        LessTransitive(above.value, k, e.kind);
      }
    }
  }

  lemma KindOfOperatorRows(log: seq<Event>, mission: string, anchor: Option<int>, plumbing: set<string>, kind: string)
    requires Shown(plumbing, kind)
    ensures Filter(Picks(mission, anchor, IsKind(kind)), log)
         == Filter(OfKind(kind), OperatorRows(log, mission, anchor, plumbing))
  {
    var shown := Picks(mission, anchor, ShownKind(plumbing));
    FilterTwice(shown, OfKind(kind), log);
    FilterSame(Both(shown, OfKind(kind)), Picks(mission, anchor, IsKind(kind)), log);
  }

  lemma NewestOfKindRows(log: seq<Event>, mission: string, anchor: Option<int>, limit: nat, plumbing: set<string>, kind: string)
    requires Ordered(log) && Shown(plumbing, kind)
    ensures var all, mine := OperatorRows(log, mission, anchor, plumbing), NewestOfKind(log, mission, anchor, kind, limit);
      && Descending(mine)
      && (forall e :: e in mine ==> e in all && e.kind == kind)
      && (forall e :: e in LastN(all, limit) && e.kind == kind ==> e in mine)
  {
    var all := OperatorRows(log, mission, anchor, plumbing);
    KindOfOperatorRows(log, mission, anchor, plumbing, kind);
    var up := LastN(Filter(OfKind(kind), all), limit);
    OperatorRowsOrdered(log, mission, anchor, plumbing);
    FilterOrdered(OfKind(kind), all);
    InReverse(up);
    forall e | e in LastN(all, limit) && e.kind == kind ensures e in Reverse(up) {
      LastOfKind(all, kind, limit, e);
    }
  }

  lemma OperatorRowsOrdered(log: seq<Event>, mission: string, anchor: Option<int>, plumbing: set<string>)
    requires Ordered(log)
    ensures Ordered(OperatorRows(log, mission, anchor, plumbing))
    ensures forall e :: e in OperatorRows(log, mission, anchor, plumbing) <==>
      e in log && e.mission == mission && (anchor.Some? ==> e.id <= anchor.value) && e.kind !in plumbing
  {
    FilterOrdered(Picks(mission, anchor, ShownKind(plumbing)), log);
    forall e
      ensures Picks(mission, anchor, ShownKind(plumbing))(e) <==>
        e.mission == mission && (anchor.Some? ==> e.id <= anchor.value) && e.kind !in plumbing
    {
      assert ShownKind(plumbing)(e.kind) == (e.kind !in plumbing);
    }
    hide Picks;
  }

  lemma InReverse(rows: seq<Event>)
    ensures forall e :: e in Reverse(rows) <==> e in rows
  {
    forall e | e in rows ensures e in Reverse(rows) {
      var i :| 0 <= i < |rows| && rows[i] == e;
      assert Reverse(rows)[|rows| - 1 - i] == e;
    }
  }

  ghost predicate Collected(all: seq<Event>, limit: nat, kinds: seq<string>, rows: seq<Event>) {
    && DistinctIds(rows)
    && (forall e :: e in rows ==> e in all && e.kind in kinds)
    && (forall e :: e in LastN(all, limit) && e.kind in kinds ==> e in rows)
  }

  lemma SameRowById(all: seq<Event>, x: Event, y: Event)
    requires Ordered(all) && x in all && y in all && x.id == y.id
    ensures x == y
  {
    var a :| 0 <= a < |all| && all[a] == x;
    var b :| 0 <= b < |all| && all[b] == y;
  }

  lemma DistinctBoth(all: seq<Event>, rows: seq<Event>, mine: seq<Event>)
    requires Ordered(all) && DistinctIds(rows) && Descending(mine)
    requires forall i :: 0 <= i < |rows| ==> rows[i] in all && rows[i] !in mine
    requires forall i :: 0 <= i < |mine| ==> mine[i] in all
    ensures DistinctIds(rows + mine)
  {
    hide Ordered;
    var both := rows + mine;
    forall i, j | 0 <= i < j < |both|
      ensures both[i].id != both[j].id
    {
      if i < |rows| <= j {
        assert both[i] == rows[i] && both[j] == mine[j - |rows|];
        if rows[i].id == mine[j - |rows|].id {
          SameRowById(all, rows[i], mine[j - |rows|]);
        }
      }
    }
  }

  lemma CollectKind(all: seq<Event>, limit: nat, kinds: seq<string>, rows: seq<Event>, kind: string, mine: seq<Event>)
    requires Ordered(all) && Collected(all, limit, kinds, rows) && kind !in kinds
    requires Descending(mine) && forall e :: e in mine ==> e in all && e.kind == kind
    requires forall e :: e in LastN(all, limit) && e.kind == kind ==> e in mine
    ensures Collected(all, limit, kinds + [kind], rows + mine)
  {
    forall i | 0 <= i < |rows|
      ensures rows[i] in all && rows[i] !in mine
    {
      assert rows[i] in rows;
    }
    hide Ordered, Descending, DistinctIds, LastN;
    DistinctBoth(all, rows, mine);
  }

  lemma CutOfMerge(all: seq<Event>, limit: nat, rows: seq<Event>)
    requires Ordered(all) && DistinctIds(rows)
    requires forall e :: e in rows ==> e in all
    requires forall e :: e in LastN(all, limit) ==> e in rows
    ensures var sorted := SortDescending(rows);
            Reverse(sorted[..Min(limit, |sorted|)]) == LastN(all, limit)
  {
    var sorted := SortDescending(rows);
    var down := Reverse(all);
    SortProps(rows);
    InReverse(all);
    if |all| <= limit {
      DescendingUnique(sorted, down);
      assert sorted[..|sorted|] == sorted;
      assert Reverse(down) == all;
    } else {
      FrontOfReverse(all, limit);
      SharedFront(down, sorted, limit);
    }
  }

  lemma FrontOfReverse(all: seq<Event>, limit: nat)
    requires limit < |all|
    ensures Reverse(Reverse(all)[..limit]) == LastN(all, limit)
    ensures forall e :: e in Reverse(all)[..limit] ==> e in LastN(all, limit)
  {
    var front := Reverse(all)[..limit];
    forall e | e in front ensures e in LastN(all, limit) {
      var i :| 0 <= i < limit && front[i] == e;
      assert LastN(all, limit)[limit - 1 - i] == e;
    }
  }

  // The newest rows, told from the log alone: oldest first, of the mission, up to the anchor and not plumbing; as many
  // as there are up to the limit; and any such event left out is older than all of them.
  ghost predicate AreLatest(log: seq<Event>, mission: string, anchor: Option<int>, limit: nat, plumbing: set<string>,
                            latest: seq<Event>) {
    var mine := set e | e in log && e.mission == mission && (anchor.Some? ==> e.id <= anchor.value) && e.kind !in plumbing;
    && |latest| == (if |mine| <= limit then |mine| else limit)
    && (forall i :: 0 <= i < |latest| ==> latest[i] in mine)
    && (forall i, j :: 0 <= i < j < |latest| ==> latest[i].id < latest[j].id)
    && (forall e, i :: e in mine && e !in latest && 0 <= i < |latest| ==> e.id < latest[i].id)
  }

  lemma LastRowsAreLatest(log: seq<Event>, mission: string, anchor: Option<int>, limit: nat, plumbing: set<string>)
    requires Ordered(log)
    ensures AreLatest(log, mission, anchor, limit, plumbing, LastN(OperatorRows(log, mission, anchor, plumbing), limit))
  {
    var mine := set e | e in log && e.mission == mission && (anchor.Some? ==> e.id <= anchor.value) && e.kind !in plumbing;
    var all := OperatorRows(log, mission, anchor, plumbing);
    OperatorRowsOrdered(log, mission, anchor, plumbing);
    assert forall e :: e in mine <==> e in all;
    hide OperatorRows, LastN, Ordered;
    LastRowsCount(all, mine, limit);
  }

  lemma OrderedSize(all: seq<Event>, mine: set<Event>)
    requires Ordered(all) && forall e :: e in mine <==> e in all
    ensures |mine| == |all|
  {
    InReverse(all);
    DescendingSize(Reverse(all));
    assert mine == set e | e in Reverse(all);
  }

  lemma LastRowsCount(all: seq<Event>, mine: set<Event>, limit: nat)
    requires Ordered(all) && forall e :: e in mine <==> e in all
    ensures var latest := LastN(all, limit);
      && |latest| == (if |mine| <= limit then |mine| else limit)
      && (forall i :: 0 <= i < |latest| ==> latest[i] in mine)
      && (forall i, j :: 0 <= i < j < |latest| ==> latest[i].id < latest[j].id)
      && (forall e, i :: e in mine && e !in latest && 0 <= i < |latest| ==> e.id < latest[i].id)
  {
    var latest := LastN(all, limit);
    OrderedSize(all, mine);
    LastNIndices(all, limit);
    hide LastN;
    forall e, i | e in mine && e !in latest && 0 <= i < |latest|
      ensures e.id < latest[i].id
    {
      var k :| 0 <= k < |all| && all[k] == e;
    }
  }

  lemma LastNIndices(all: seq<Event>, limit: nat)
    ensures var latest, cut := LastN(all, limit), if |all| <= limit then 0 else |all| - limit;
      && |latest| == |all| - cut
      && (forall i :: 0 <= i < |latest| ==> latest[i] == all[cut + i])
      && (forall k :: cut <= k < |all| ==> all[k] in latest)
  {
    var latest, cut := LastN(all, limit), if |all| <= limit then 0 else |all| - limit;
    forall k | cut <= k < |all|
      ensures all[k] in latest
    {
      assert latest[k - cut] == all[k];
    }
  }

  // Reading the newest `limit` rows of every shown kind, merging and cutting is the same as
  // filtering the whole log and taking its newest `limit` rows.
  method LatestOperatorEvents(log: seq<Event>, mission: string, anchor: Option<int>, limit: nat, plumbing: set<string>)
      returns (latest: seq<Event>)
    requires Ordered(log)
    ensures AreLatest(log, mission, anchor, limit, plumbing, latest)
    ensures latest == LastN(OperatorRows(log, mission, anchor, plumbing), limit)
  {
    hide OperatorRows, NewestOfKind, LastN, SortDescending, AreLatest;
    LastRowsAreLatest(log, mission, anchor, limit, plumbing);
    ghost var all := OperatorRows(log, mission, anchor, plumbing);
    OperatorRowsOrdered(log, mission, anchor, plumbing);
    LastNWithin(all, limit);
    var kinds := DistinctKinds(log, mission);
    var rows := [];
    for n := 0 to |kinds|
      invariant Collected(all, limit, kinds[..n], rows)
    {
      var mine := [];
      if Shown(plumbing, kinds[n]) {
        mine := NewestOfKind(log, mission, anchor, kinds[n], limit);
        NewestOfKindRows(log, mission, anchor, limit, plumbing, kinds[n]);
      }
      LessIsTotal(kinds[n], kinds[n]);
      CollectKind(all, limit, kinds[..n], rows, kinds[n], mine);
      assert kinds[..n + 1] == kinds[..n] + [kinds[n]];
      rows := rows + mine;
    }
    assert kinds[..|kinds|] == kinds;
    var sorted := SortDescending(rows);
    var newest := sorted[..Min(limit, |sorted|)];
    latest := Reverse(newest);
    CutOfMerge(all, limit, rows);
  }
}
