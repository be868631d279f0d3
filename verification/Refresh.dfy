// Capacity observations: an unchanged one updates the previous row in place instead of adding a
// row, and the monitor must not be able to tell.
module Refresh {
  import opened Common

  // ----- Observations and their signature -----

  // Literal is a number, true, false or null.
  datatype Json = Text(text: string) | Literal(text: string) | Array(items: seq<Json>) | Object(fields: map<string, Json>)

  const VOLATILE: set<string> := {"observed_at", "estimated_remaining"}

  // Drop the volatile keys at every depth. The source then prints the result with sorted keys,
  // so equal text is equal value and the signature is modelled as the value itself.
  function Signature(value: Json): Json {
    match value
    case Text(_) => value
    case Literal(_) => value
    case Array(items) => Array(seq(|items|, i requires 0 <= i < |items| => Signature(items[i])))
    case Object(fields) => Object(map key | key in fields && key !in VOLATILE :: Signature(fields[key]))
  }

  // Equal up to volatile keys, wherever they occur.
  predicate SameState(a: Json, b: Json) {
    match (a, b)
    case (Text(x), Text(y)) => x == y
    case (Literal(x), Literal(y)) => x == y
    case (Array(xs), Array(ys)) => |xs| == |ys| && forall i :: 0 <= i < |xs| ==> SameState(xs[i], ys[i])
    case (Object(f), Object(g)) =>
      && f.Keys - {"observed_at", "estimated_remaining"} == g.Keys - {"observed_at", "estimated_remaining"}
      && forall key :: key in f && key != "observed_at" && key != "estimated_remaining" ==>
           key in g && SameState(f[key], g[key])
    case _ => false
  }

  lemma {:induction false} SignatureIsState(a: Json, b: Json)
    ensures Signature(a) == Signature(b) <==> SameState(a, b)
  {
    match (a, b)
    case (Array(xs), Array(ys)) =>
      if |xs| == |ys| {
        forall i | 0 <= i < |xs| ensures Signature(xs[i]) == Signature(ys[i]) <==> SameState(xs[i], ys[i]) {
          SignatureIsState(xs[i], ys[i]);
        }
        if Signature(a) == Signature(b) {
          forall i | 0 <= i < |xs| ensures Signature(xs[i]) == Signature(ys[i]) {
            assert Signature(a).items[i] == Signature(b).items[i];
          }
        }
      } else {
        assert |Signature(a).items| != |Signature(b).items|;
      }
    case (Object(f), Object(g)) =>
      forall key | key in f && key in g
        ensures Signature(f[key]) == Signature(g[key]) <==> SameState(f[key], g[key])
      {
        SignatureIsState(f[key], g[key]);
      }
      SameFields(f, g);
    case _ =>
  }

  lemma SameFields(f: map<string, Json>, g: map<string, Json>)
    requires forall key :: key in f && key in g ==> (Signature(f[key]) == Signature(g[key]) <==> SameState(f[key], g[key]))
    ensures Signature(Object(f)) == Signature(Object(g)) <==> SameState(Object(f), Object(g))
  {
    var a, b := Signature(Object(f)).fields, Signature(Object(g)).fields;
    assert a.Keys == f.Keys - {"observed_at", "estimated_remaining"};
    assert b.Keys == g.Keys - {"observed_at", "estimated_remaining"};
    if a == b {
      forall key | key in a.Keys
        ensures key in g && SameState(f[key], g[key])
      {
        assert a[key] == b[key];
      }
    }
    if SameState(Object(f), Object(g)) {
      assert a.Keys == b.Keys;
      assert forall key :: key in a ==> a[key] == b[key];
    }
  }

  // ----- Rows and what the monitor reads from them -----

  datatype Kind = CapacityRefresh | ProviderWait | ProviderSelection | Plumbing

  // `time` is created_at.
  datatype Row = Row(id: nat, kind: Kind, data: Json, time: string)

  // What a reader sees of a row besides its place: payload and time.
  datatype Content = Content(data: Json, time: string)

  ghost predicate Ordered(rows: seq<Row>) {
    forall i, j :: 0 <= i < j < |rows| ==> rows[i].id < rows[j].id
  }

  ghost predicate Below(rows: seq<Row>, id: nat) {
    forall i :: 0 <= i < |rows| ==> 0 < rows[i].id < id
  }

  // The newest row of a kind.
  function Latest(rows: seq<Row>, kind: Kind): Option<Row> {
    if rows == [] then None
    else if rows[|rows| - 1].kind == kind then Some(rows[|rows| - 1])
    else Latest(rows[..|rows| - 1], kind)
  }

  function ContentOf(row: Option<Row>): Option<Content> {
    if row.None? then None else Some(Content(row.value.data, row.value.time))
  }

  // Is the newest row of one kind newer than the newest row of another?
  predicate Newer(rows: seq<Row>, a: Kind, b: Kind) {
    Latest(rows, a).Some? && (Latest(rows, b).None? || Latest(rows, a).value.id > Latest(rows, b).value.id)
  }

  // The observation's own time, or the row's when it has none.
  function AsOf(content: Content): string {
    match content.data
    case Object(fields) =>
      if "observed_at" in fields && fields["observed_at"].Text? then fields["observed_at"].text else content.time
    case _ => content.time
  }

  datatype View = View(
    capacity: Option<Json>,        // newest capacity-refresh or provider-selection payload
    waitIsCurrent: bool,           // is the newest wait newer than that row?
    waitOutlastsSelection: bool,   // is the newest wait newer than the newest provider-selection?
    wait: Option<Content>,         // newest wait, and since when
    newest: Option<Json>,          // newest payload among all three kinds
    asOf: Option<string>)          // its time

  function Project(rows: seq<Row>): View {
    var refresh, selection, wait :=
      Latest(rows, CapacityRefresh), Latest(rows, ProviderSelection), Latest(rows, ProviderWait);
    var capacity := if refresh.None? || (selection.Some? && selection.value.id > refresh.value.id) then selection else refresh;
    var waitIsCurrent := wait.Some? && (capacity.None? || wait.value.id > capacity.value.id);
    var newest := ContentOf(if waitIsCurrent then wait else capacity);
    View(PayloadOf(ContentOf(capacity)), waitIsCurrent,
         wait.Some? && (selection.None? || wait.value.id > selection.value.id),
         ContentOf(wait), PayloadOf(newest), if newest.None? then None else Some(AsOf(newest.value)))
  }

  function PayloadOf(content: Option<Content>): Option<Json> {
    if content.None? then None else Some(content.value.data)
  }

  // Two logs the monitor cannot tell apart.
  ghost predicate Agree(a: seq<Row>, b: seq<Row>) {
    && (forall k :: k != Plumbing ==> ContentOf(Latest(a, k)) == ContentOf(Latest(b, k)))
    && (forall j, k :: j != Plumbing && k != Plumbing ==> Newer(a, j, k) == Newer(b, j, k))
  }

  lemma {:induction false} LatestIsRow(rows: seq<Row>, kind: Kind)
    ensures Latest(rows, kind).Some? ==> Latest(rows, kind).value in rows && Latest(rows, kind).value.kind == kind
    ensures Latest(rows, kind).None? ==> forall r :: r in rows ==> r.kind != kind
    ensures Latest(rows, kind).Some? && Ordered(rows) ==>
      forall r :: r in rows && r.kind == kind ==> r.id <= Latest(rows, kind).value.id
  {
    if rows != [] {
      LatestIsRow(rows[..|rows| - 1], kind);
      assert forall r :: r in rows <==> r in rows[..|rows| - 1] || r == rows[|rows| - 1];
    }
  }

  lemma AgreeMeansSameView(a: seq<Row>, b: seq<Row>)
    requires Agree(a, b)
    ensures Project(a) == Project(b)
  {
    assert ContentOf(Latest(a, CapacityRefresh)) == ContentOf(Latest(b, CapacityRefresh));
    assert ContentOf(Latest(a, ProviderSelection)) == ContentOf(Latest(b, ProviderSelection));
    assert ContentOf(Latest(a, ProviderWait)) == ContentOf(Latest(b, ProviderWait));
    assert Newer(a, ProviderSelection, CapacityRefresh) == Newer(b, ProviderSelection, CapacityRefresh);
    assert Newer(a, ProviderWait, CapacityRefresh) == Newer(b, ProviderWait, CapacityRefresh);
    assert Newer(a, ProviderWait, ProviderSelection) == Newer(b, ProviderWait, ProviderSelection);
  }

  // `r` is the newest row of some kinds.
  ghost predicate IsNewest(rows: seq<Row>, kinds: set<Kind>, r: Row) {
    r in rows && r.kind in kinds && forall x :: x in rows && x.kind in kinds ==> x.id <= r.id
  }

  ghost predicate HasKind(rows: seq<Row>, kinds: set<Kind>) {
    exists x :: x in rows && x.kind in kinds
  }

  // What the monitor shows, told from the rows of the table: the newest refresh or selection, the newest wait, which
  // of them is newer, and the newest of all with its time.
  ghost predicate Reads(rows: seq<Row>, view: View) {
    ReadsCapacity(rows, view) && ReadsWait(rows, view) && ReadsNewest(rows, view)
  }

  ghost predicate ReadsCapacity(rows: seq<Row>, view: View) {
    && (view.capacity.Some? <==> HasKind(rows, {CapacityRefresh, ProviderSelection}))
    && (forall r :: IsNewest(rows, {CapacityRefresh, ProviderSelection}, r) ==> view.capacity == Some(r.data))
  }

  ghost predicate ReadsWait(rows: seq<Row>, view: View) {
    && (view.wait.Some? <==> HasKind(rows, {ProviderWait}))
    && (forall r :: IsNewest(rows, {ProviderWait}, r) ==> view.wait == Some(Content(r.data, r.time)))
    && (view.waitIsCurrent <==>
          exists r: Row :: r.kind == ProviderWait && IsNewest(rows, {CapacityRefresh, ProviderSelection, ProviderWait}, r))
    && (view.waitOutlastsSelection <==>
          exists r: Row :: r.kind == ProviderWait && IsNewest(rows, {ProviderSelection, ProviderWait}, r))
  }

  ghost predicate ReadsNewest(rows: seq<Row>, view: View) {
    && (view.newest.Some? <==> HasKind(rows, {CapacityRefresh, ProviderSelection, ProviderWait}))
    && (view.asOf.Some? <==> view.newest.Some?)
    && (forall r :: IsNewest(rows, {CapacityRefresh, ProviderSelection, ProviderWait}, r) ==>
          && view.newest == Some(r.data)
          && view.asOf == Some(if r.data.Object? && "observed_at" in r.data.fields && r.data.fields["observed_at"].Text?
                               then r.data.fields["observed_at"].text else r.time))
  }

  lemma NewestOfKind(rows: seq<Row>, kind: Kind, r: Row)
    requires Ordered(rows)
    ensures IsNewest(rows, {kind}, r) <==> Latest(rows, kind) == Some(r)
    ensures HasKind(rows, {kind}) <==> Latest(rows, kind).Some?
  {
    LatestIsRow(rows, kind);
    hide Latest;
    if IsNewest(rows, {kind}, r) {
      SameId(rows, r, Latest(rows, kind).value);
    }
  }

  lemma SameId(rows: seq<Row>, x: Row, y: Row)
    requires Ordered(rows) && x in rows && y in rows
    ensures x.id == y.id ==> x == y
  {
    var i :| 0 <= i < |rows| && rows[i] == x;
    var j :| 0 <= j < |rows| && rows[j] == y;
  }

  // The newer of two rows, if there are any.
  function NewerOf(a: Option<Row>, b: Option<Row>): Option<Row> {
    if a.None? || (b.Some? && b.value.id > a.value.id) then b else a
  }

  ghost predicate IsNewestOrNone(rows: seq<Row>, kinds: set<Kind>, r: Option<Row>) {
    && (r.Some? <==> HasKind(rows, kinds))
    && (r.Some? ==> IsNewest(rows, kinds, r.value))
    && (forall x :: IsNewest(rows, kinds, x) ==> r == Some(x))
  }

  lemma NewestOrNone(rows: seq<Row>, kind: Kind)
    requires Ordered(rows)
    ensures IsNewestOrNone(rows, {kind}, Latest(rows, kind))
  {
    forall r
      ensures IsNewest(rows, {kind}, r) <==> Latest(rows, kind) == Some(r)
    {
      NewestOfKind(rows, kind, r);
    }
    LatestIsRow(rows, kind);
    hide Latest;
  }

  lemma NewestOfBoth(rows: seq<Row>, a: set<Kind>, b: set<Kind>, x: Option<Row>, y: Option<Row>)
    requires Ordered(rows) && IsNewestOrNone(rows, a, x) && IsNewestOrNone(rows, b, y)
    ensures IsNewestOrNone(rows, a + b, NewerOf(x, y))
  {
    var r := NewerOf(x, y);
    assert HasKind(rows, a + b) <==> HasKind(rows, a) || HasKind(rows, b);
    assert r.Some? ==> IsNewest(rows, a + b, r.value);
    forall z | IsNewest(rows, a + b, z)
      ensures r == Some(z)
    {
      SameId(rows, z, r.value);
    }
  }

  // The newest rows of all the kinds, and of two of them.
  lemma NewestOfAll(rows: seq<Row>)
    requires Ordered(rows)
    ensures var refresh, selection, wait :=
        Latest(rows, CapacityRefresh), Latest(rows, ProviderSelection), Latest(rows, ProviderWait);
      && IsNewestOrNone(rows, {CapacityRefresh, ProviderSelection}, NewerOf(refresh, selection))
      && IsNewestOrNone(rows, {ProviderSelection, ProviderWait}, NewerOf(selection, wait))
      && IsNewestOrNone(rows, {CapacityRefresh, ProviderSelection, ProviderWait}, NewerOf(NewerOf(refresh, selection), wait))
  {
    var refresh, selection, wait :=
      Latest(rows, CapacityRefresh), Latest(rows, ProviderSelection), Latest(rows, ProviderWait);
    hide *;
    NewestOrNone(rows, CapacityRefresh);
    NewestOrNone(rows, ProviderSelection);
    NewestOrNone(rows, ProviderWait);
    NewestOfBoth(rows, {CapacityRefresh}, {ProviderSelection}, refresh, selection);
    NewestOfBoth(rows, {ProviderSelection}, {ProviderWait}, selection, wait);
    assert {CapacityRefresh} + {ProviderSelection} == {CapacityRefresh, ProviderSelection};
    assert {ProviderSelection} + {ProviderWait} == {ProviderSelection, ProviderWait};
    NewestOfBoth(rows, {CapacityRefresh, ProviderSelection}, {ProviderWait}, NewerOf(refresh, selection), wait);
    assert {CapacityRefresh, ProviderSelection} + {ProviderWait} == {CapacityRefresh, ProviderSelection, ProviderWait};
  }

  // Of two kinds of rows, the newest of both tells which was newer.
  lemma NewestIsWait(rows: seq<Row>, kinds: set<Kind>, other: Option<Row>, wait: Option<Row>)
    requires ProviderWait in kinds && IsNewestOrNone(rows, kinds, NewerOf(other, wait))
    requires (wait.Some? ==> wait.value.kind == ProviderWait) && (other.Some? ==> other.value.kind != ProviderWait)
    ensures (wait.Some? && (other.None? || wait.value.id > other.value.id)) <==>
      exists r: Row :: r.kind == ProviderWait && IsNewest(rows, kinds, r)
  {
    hide IsNewest, HasKind;
  }

  lemma LatestKind(rows: seq<Row>, kind: Kind)
    ensures Latest(rows, kind).Some? ==> Latest(rows, kind).value.kind == kind
  {
    LatestIsRow(rows, kind);
  }

  lemma CapacityReads(rows: seq<Row>)
    requires Ordered(rows)
    ensures ReadsCapacity(rows, Project(rows))
  {
    NewestOfAll(rows);
    hide Latest, IsNewest, HasKind, Ordered, AsOf;
  }

  lemma WaitReads(rows: seq<Row>)
    requires Ordered(rows)
    ensures ReadsWait(rows, Project(rows))
  {
    var refresh, selection, wait :=
      Latest(rows, CapacityRefresh), Latest(rows, ProviderSelection), Latest(rows, ProviderWait);
    LatestKind(rows, CapacityRefresh);
    LatestKind(rows, ProviderSelection);
    LatestKind(rows, ProviderWait);
    NewestOrNone(rows, ProviderWait);
    NewestOfAll(rows);
    hide Latest, IsNewest, HasKind, Ordered, AsOf;
    NewestIsWait(rows, {CapacityRefresh, ProviderSelection, ProviderWait}, NewerOf(refresh, selection), wait);
    NewestIsWait(rows, {ProviderSelection, ProviderWait}, selection, wait);
  }

  lemma NewestReads(rows: seq<Row>)
    requires Ordered(rows)
    ensures ReadsNewest(rows, Project(rows))
  {
    NewestOfAll(rows);
    hide Latest, IsNewest, HasKind, Ordered;
  }

  lemma ProjectionReads(rows: seq<Row>)
    requires Ordered(rows)
    ensures Reads(rows, Project(rows))
  {
    CapacityReads(rows);
    WaitReads(rows);
    NewestReads(rows);
    hide ReadsCapacity, ReadsWait, ReadsNewest, Project;
  }

  // ----- Steps -----

  // UPDATE events SET data_json=?,created_at=? WHERE id=? AND kind='capacity-refresh'
  function Update(rows: seq<Row>, id: nat, data: Json, time: string): seq<Row> {
    seq(|rows|, i requires 0 <= i < |rows| =>
      if rows[i].id == id && rows[i].kind == CapacityRefresh then rows[i].(data := data, time := time) else rows[i])
  }

  predicate Updates(rows: seq<Row>, id: nat) {
    exists i :: 0 <= i < |rows| && rows[i].id == id && rows[i].kind == CapacityRefresh
  }

  // MAX(id) over some kinds, 0 when there is none.
  function LatestId(rows: seq<Row>, kind: Kind): nat {
    match Latest(rows, kind)
    case Some(row) => row.id
    case None => 0
  }

  lemma LatestAfterAppend(rows: seq<Row>, row: Row, kind: Kind)
    ensures Latest(rows + [row], kind) == if row.kind == kind then Some(row) else Latest(rows, kind)
  {
    assert (rows + [row])[..|rows|] == rows;
  }

  lemma AgreeAfterAppend(a: seq<Row>, b: seq<Row>, x: Row, y: Row)
    requires Agree(a, b) && Below(a, x.id) && Below(b, y.id) && x.kind == y.kind && ContentOf(Some(x)) == ContentOf(Some(y))
    ensures Agree(a + [x], b + [y])
  {
    forall k | k != Plumbing
      ensures ContentOf(Latest(a + [x], k)) == ContentOf(Latest(b + [y], k))
    {
      LatestAfterAppend(a, x, k);
      LatestAfterAppend(b, y, k);
      assert ContentOf(Latest(a, k)) == ContentOf(Latest(b, k));
    }
    forall j, k | j != Plumbing && k != Plumbing ensures Newer(a + [x], j, k) == Newer(b + [y], j, k) {
      LatestAfterAppend(a, x, j);
      LatestAfterAppend(b, y, j);
      LatestAfterAppend(a, x, k);
      LatestAfterAppend(b, y, k);
      LatestIsRow(a, j);
      LatestIsRow(b, j);
      LatestIsRow(a, k);
      LatestIsRow(b, k);
      assert ContentOf(Latest(a, j)) == ContentOf(Latest(b, j)) && ContentOf(Latest(a, k)) == ContentOf(Latest(b, k));
      assert Newer(a, j, k) == Newer(b, j, k);
    }
  }

  lemma {:induction false} UpdateKeepsOthers(rows: seq<Row>, id: nat, data: Json, time: string, kind: Kind)
    requires kind != CapacityRefresh
    ensures Latest(Update(rows, id, data, time), kind) == Latest(rows, kind)
  {
    if rows != [] {
      UpdateKeepsOthers(rows[..|rows| - 1], id, data, time, kind);
      assert Update(rows, id, data, time)[..|rows| - 1] == Update(rows[..|rows| - 1], id, data, time);
    }
  }

  lemma {:induction false} UpdateChangesLatest(rows: seq<Row>, data: Json, time: string)
    requires Latest(rows, CapacityRefresh).Some?
    ensures var row := Latest(rows, CapacityRefresh).value;
      Latest(Update(rows, row.id, data, time), CapacityRefresh) == Some(row.(data := data, time := time))
  {
    if rows[|rows| - 1].kind != CapacityRefresh {
      UpdateChangesLatest(rows[..|rows| - 1], data, time);
      var id := Latest(rows, CapacityRefresh).value.id;
      assert Update(rows, id, data, time)[..|rows| - 1] == Update(rows[..|rows| - 1], id, data, time);
    }
  }

  // Updating the newest refresh row, when no wait or selection came after it, looks like appending one.
  lemma AgreeAfterUpdate(a: seq<Row>, b: seq<Row>, y: Row)
    requires Agree(a, b) && Below(b, y.id) && y.kind == CapacityRefresh && Latest(a, CapacityRefresh).Some?
    requires var id := Latest(a, CapacityRefresh).value.id; LatestId(a, ProviderWait) < id && LatestId(a, ProviderSelection) < id
    ensures Agree(Update(a, Latest(a, CapacityRefresh).value.id, y.data, y.time), b + [y])
  {
    var id := Latest(a, CapacityRefresh).value.id;
    var a' := Update(a, id, y.data, y.time);
    UpdateChangesLatest(a, y.data, y.time);
    forall k | k != Plumbing
      ensures ContentOf(Latest(a', k)) == ContentOf(Latest(b + [y], k))
      ensures k != CapacityRefresh ==> Latest(a', k) == Latest(a, k)
      ensures Latest(b + [y], k) == if k == CapacityRefresh then Some(y) else Latest(b, k)
      ensures Latest(b, k).Some? ==> Latest(b, k).value.id < y.id
    {
      assert ContentOf(Latest(a, k)) == ContentOf(Latest(b, k));
      LatestAfterAppend(b, y, k);
      LatestIsRow(b, k);
      if k != CapacityRefresh {
        UpdateKeepsOthers(a, id, y.data, y.time, k);
      }
    }
    forall j, k | j != Plumbing && k != Plumbing ensures Newer(a', j, k) == Newer(b + [y], j, k) {
      assert Newer(a, j, k) == Newer(b, j, k);
      assert ContentOf(Latest(a', j)) == ContentOf(Latest(b + [y], j));
    }
  }

  lemma AgreeIfSameLatest(a: seq<Row>, a': seq<Row>, b: seq<Row>)
    requires Agree(a, b) && forall k :: k != Plumbing ==> Latest(a', k) == Latest(a, k)
    ensures Agree(a', b)
  {
    forall j, k | j != Plumbing && k != Plumbing ensures Newer(a', j, k) == Newer(b, j, k) {
      assert Newer(a, j, k) == Newer(b, j, k);
    }
    forall k | k != Plumbing ensures ContentOf(Latest(a', k)) == ContentOf(Latest(b, k)) {
      assert ContentOf(Latest(a, k)) == ContentOf(Latest(b, k));
    }
  }

  // ----- Counting rows -----

  function Count(rows: seq<Row>): nat {
    if rows == [] then 0 else Count(rows[..|rows| - 1]) + if rows[|rows| - 1].kind == CapacityRefresh then 1 else 0
  }

  lemma {:induction false} CountOfUpdate(rows: seq<Row>, id: nat, data: Json, time: string)
    ensures Count(Update(rows, id, data, time)) == Count(rows)
  {
    if rows != [] {
      CountOfUpdate(rows[..|rows| - 1], id, data, time);
      assert Update(rows, id, data, time)[..|rows| - 1] == Update(rows[..|rows| - 1], id, data, time);
    }
  }

  // DELETE FROM events WHERE id IN (...)
  function Delete(rows: seq<Row>, doomed: set<nat>): seq<Row> {
    if rows == [] then []
    else Delete(rows[..|rows| - 1], doomed) + if rows[|rows| - 1].id in doomed then [] else [rows[|rows| - 1]]
  }

  // Pruning takes plumbing rows and refresh rows other than the newest.
  ghost predicate Prunable(rows: seq<Row>, doomed: set<nat>) {
    forall r :: r in rows && r.id in doomed ==>
      r.kind == Plumbing || (r.kind == CapacityRefresh && Latest(rows, CapacityRefresh) != Some(r))
  }

  lemma {:induction false} DeleteKeeps(rows: seq<Row>, doomed: set<nat>)
    ensures forall r :: r in Delete(rows, doomed) <==> r in rows && r.id !in doomed
  {
    if rows != [] {
      var front, last := rows[..|rows| - 1], rows[|rows| - 1];
      DeleteKeeps(front, doomed);
      assert forall r :: r in rows <==> r in front || r == last;
    }
  }

  lemma {:induction false} DeleteOrdered(rows: seq<Row>, doomed: set<nat>)
    requires Ordered(rows)
    ensures Ordered(Delete(rows, doomed))
  {
    if rows != [] {
      var front, last := rows[..|rows| - 1], rows[|rows| - 1];
      DeleteOrdered(front, doomed);
      DeleteKeeps(front, doomed);
      var kept := Delete(front, doomed);
      forall i | 0 <= i < |kept| ensures kept[i].id < last.id {
        assert kept[i] in kept;
      }
    }
  }

  lemma {:induction false} DeleteCounts(rows: seq<Row>, doomed: set<nat>)
    ensures Count(Delete(rows, doomed)) <= Count(rows)
  {
    if rows != [] {
      var front, last := rows[..|rows| - 1], rows[|rows| - 1];
      var kept := Delete(front, doomed);
      DeleteCounts(front, doomed);
      assert (kept + [last])[..|kept|] == kept;
      assert kept + [] == kept;
    }
  }

  lemma {:induction false} LatestAfterDelete(rows: seq<Row>, doomed: set<nat>, kind: Kind)
    requires Latest(rows, kind).Some? ==> Latest(rows, kind).value.id !in doomed
    ensures Latest(Delete(rows, doomed), kind) == Latest(rows, kind)
  {
    if rows != [] {
      var front, last := rows[..|rows| - 1], rows[|rows| - 1];
      var kept := Delete(front, doomed);
      assert (kept + [last])[..|kept|] == kept;
      assert kept + [] == kept;
      if last.kind != kind {
        LatestAfterDelete(front, doomed, kind);
      }
    }
  }

  lemma PruneKeepsLatest(rows: seq<Row>, doomed: set<nat>)
    requires Prunable(rows, doomed)
    ensures forall k :: k != Plumbing ==> Latest(Delete(rows, doomed), k) == Latest(rows, k)
  {
    forall k | k != Plumbing ensures Latest(Delete(rows, doomed), k) == Latest(rows, k) {
      LatestIsRow(rows, k);
      LatestAfterDelete(rows, doomed, k);
    }
  }

  // A wait or selection came after the newest refresh row.
  predicate Interrupted(rows: seq<Row>) {
    Latest(rows, CapacityRefresh).Some?
    && (Newer(rows, ProviderWait, CapacityRefresh) || Newer(rows, ProviderSelection, CapacityRefresh))
  }

  // Appending a row with the next id keeps ids in order, whatever the row is.
  lemma RowAppended(rows: seq<Row>, row: Row)
    requires Ordered(rows) && Below(rows, row.id) && row.id > 0
    ensures Ordered(rows + [row]) && Below(rows + [row], row.id + 1)
    ensures Count(rows + [row]) == Count(rows) + if row.kind == CapacityRefresh then 1 else 0
  {
    assert (rows + [row])[..|rows|] == rows;
  }

  lemma LatestBelow(rows: seq<Row>, kind: Kind, bound: nat)
    requires Below(rows, bound) && Latest(rows, kind).Some?
    ensures Latest(rows, kind).value.id < bound
  {
    LatestIsRow(rows, kind);
    var i :| 0 <= i < |rows| && rows[i] == Latest(rows, kind).value;
  }

  lemma RefreshAppended(rows: seq<Row>, row: Row)
    requires Ordered(rows) && Below(rows, row.id) && row.id > 0 && row.kind == CapacityRefresh
    ensures Ordered(rows + [row]) && Below(rows + [row], row.id + 1)
    ensures Latest(rows + [row], CapacityRefresh) == Some(row)
    ensures !Interrupted(rows + [row]) && Count(rows + [row]) == Count(rows) + 1
  {
    hide Latest, Count, Below, Ordered;
    RowAppended(rows, row);
    LatestAfterAppend(rows, row, CapacityRefresh);
    LatestAfterAppend(rows, row, ProviderWait);
    LatestAfterAppend(rows, row, ProviderSelection);
    if Latest(rows, ProviderWait).Some? {
      LatestBelow(rows, ProviderWait, row.id);
    }
    if Latest(rows, ProviderSelection).Some? {
      LatestBelow(rows, ProviderSelection, row.id);
    }
  }

  lemma OtherAppended(rows: seq<Row>, row: Row)
    requires Ordered(rows) && Below(rows, row.id) && row.id > 0 && row.kind != CapacityRefresh
    ensures Ordered(rows + [row]) && Below(rows + [row], row.id + 1)
    ensures Latest(rows + [row], CapacityRefresh) == Latest(rows, CapacityRefresh)
    ensures Count(rows + [row]) == Count(rows)
    ensures Interrupted(rows + [row]) ==> Interrupted(rows) || row.kind != Plumbing
  {
    hide Latest, Count, Below, Ordered;
    RowAppended(rows, row);
    LatestAfterAppend(rows, row, CapacityRefresh);
    LatestAfterAppend(rows, row, ProviderWait);
    LatestAfterAppend(rows, row, ProviderSelection);
  }

  lemma {:induction false} DeleteBelow(rows: seq<Row>, doomed: set<nat>, bound: nat)
    requires Below(rows, bound)
    ensures Below(Delete(rows, doomed), bound)
  {
    if rows != [] {
      DeleteBelow(rows[..|rows| - 1], doomed, bound);
    }
  }

  lemma Pruned(rows: seq<Row>, doomed: set<nat>, bound: nat)
    requires Ordered(rows) && Below(rows, bound) && Prunable(rows, doomed)
    ensures var kept := Delete(rows, doomed);
      && Ordered(kept) && Below(kept, bound)
      && Latest(kept, CapacityRefresh) == Latest(rows, CapacityRefresh)
      && Interrupted(kept) == Interrupted(rows) && Count(kept) <= Count(rows)
  {
    hide Latest, Count, Below, Ordered, Delete, Prunable;
    PruneKeepsLatest(rows, doomed);
    DeleteOrdered(rows, doomed);
    DeleteCounts(rows, doomed);
    DeleteBelow(rows, doomed, bound);
  }

  lemma PruneAgrees(rows: seq<Row>, full: seq<Row>, doomed: set<nat>)
    requires Agree(rows, full) && Prunable(rows, doomed)
    ensures Agree(Delete(rows, doomed), full)
  {
    PruneKeepsLatest(rows, doomed);
    hide *;
    AgreeIfSameLatest(rows, Delete(rows, doomed), full);
  }

  // Rewriting the newest refresh row keeps every row in its place.
  lemma Compacted(rows: seq<Row>, bound: nat, data: Json, time: string)
    requires Ordered(rows) && Below(rows, bound) && Latest(rows, CapacityRefresh).Some?
    ensures var row := Latest(rows, CapacityRefresh).value;
      var later := Update(rows, row.id, data, time);
      && Ordered(later) && Below(later, bound) && Count(later) == Count(rows)
      && Latest(later, CapacityRefresh) == Some(row.(data := data, time := time))
      && (Interrupted(later) <==> Interrupted(rows))
  {
    var id := Latest(rows, CapacityRefresh).value.id;
    UpdateChangesLatest(rows, data, time);
    UpdateKeepsOthers(rows, id, data, time, ProviderWait);
    UpdateKeepsOthers(rows, id, data, time, ProviderSelection);
    CountOfUpdate(rows, id, data, time);
    hide Latest, Count;
  }

  lemma CompactionAgrees(rows: seq<Row>, full: seq<Row>, bound: nat, row: Row)
    requires Agree(rows, full) && Ordered(rows) && Below(rows, bound) && Below(full, row.id)
    requires row.kind == CapacityRefresh && Latest(rows, CapacityRefresh).Some? && !Interrupted(rows)
    ensures Agree(Update(rows, Latest(rows, CapacityRefresh).value.id, row.data, row.time), full + [row])
  {
    hide Agree, Latest, Interrupted, Update;
    IdTestIsOrder(rows, bound);
    AgreeAfterUpdate(rows, full, row);
  }

  // `r` is the row that an observation may be folded into: the newest of all refresh, wait and selection rows, a refresh
  // row itself, and of the same state.
  ghost predicate Compacts(rows: seq<Row>, r: Row, observation: Json) {
    && IsNewest(rows, {CapacityRefresh, ProviderSelection, ProviderWait}, r)
    && r.kind == CapacityRefresh && SameState(r.data, observation)
  }

  // The table after an observation: that row rewritten and no other touched, or one row more.
  ghost predicate Observes(rows: seq<Row>, later: seq<Row>, id: nat, observation: Json, time: string) {
    if exists r :: Compacts(rows, r, observation) then
      && |later| == |rows|
      && forall i :: 0 <= i < |rows| ==>
           later[i] == if Compacts(rows, rows[i], observation) then Row(rows[i].id, CapacityRefresh, observation, time) else rows[i]
    else later == rows + [Row(id, CapacityRefresh, observation, time)]
  }

  lemma CompactsIffRepeats(rows: seq<Row>, bound: nat, observation: Json, r: Row)
    requires Ordered(rows) && Below(rows, bound)
    ensures Compacts(rows, r, observation) <==>
      Latest(rows, CapacityRefresh) == Some(r) && !Interrupted(rows) && Signature(r.data) == Signature(observation)
  {
    SignatureIsState(r.data, observation);
    NewestOfAll(rows);
    LatestKind(rows, CapacityRefresh);
    LatestKind(rows, ProviderSelection);
    LatestKind(rows, ProviderWait);
    hide Latest, Signature, SameState, HasKind, IsNewest, Ordered, Below;
  }

  lemma TableObserves(rows: seq<Row>, later: seq<Row>, bound: nat, id: nat, observation: Json, time: string)
    requires Ordered(rows) && Below(rows, bound)
    requires var latest := Latest(rows, CapacityRefresh);
      later == if latest.Some? && Signature(latest.value.data) == Signature(observation) && !Interrupted(rows)
               then Update(rows, latest.value.id, observation, time)
               else rows + [Row(id, CapacityRefresh, observation, time)]
    ensures Observes(rows, later, id, observation, time)
  {
    forall r
      ensures Compacts(rows, r, observation) <==>
        Latest(rows, CapacityRefresh) == Some(r) && !Interrupted(rows) && Signature(r.data) == Signature(observation)
    {
      CompactsIffRepeats(rows, bound, observation, r);
    }
    hide Compacts, Signature, Interrupted, Below;
    if exists r :: Compacts(rows, r, observation) {
      var r :| Compacts(rows, r, observation);
      LatestIsRow(rows, CapacityRefresh);
      hide Latest, Update, Ordered;
      UpdateRewrites(rows, r, observation, time);
    }
  }

  lemma UpdateRewrites(rows: seq<Row>, r: Row, data: Json, time: string)
    requires Ordered(rows) && r in rows && r.kind == CapacityRefresh
    ensures var later := Update(rows, r.id, data, time);
      |later| == |rows| && forall i :: 0 <= i < |rows| ==>
        later[i] == if rows[i] == r then Row(rows[i].id, CapacityRefresh, data, time) else rows[i]
  {
    forall i | 0 <= i < |rows|
      ensures rows[i].id == r.id ==> rows[i] == r
    {
      SameId(rows, rows[i], r);
    }
  }

  lemma AppendBelow(rows: seq<Row>, row: Row)
    requires Below(rows, row.id) && row.id > 0
    ensures Below(rows + [row], row.id + 1)
  {
  }

  // The worker's test on ids is the test the monitor's order needs.
  lemma IdTestIsOrder(rows: seq<Row>, bound: nat)
    requires Ordered(rows) && Below(rows, bound) && Latest(rows, CapacityRefresh).Some?
    ensures var id := Latest(rows, CapacityRefresh).value.id;
      (LatestId(rows, ProviderWait) < id && LatestId(rows, ProviderSelection) < id <==> !Interrupted(rows)) && Updates(rows, id)
  {
    hide Latest, Below, Ordered;
    RefreshIsUpdated(rows);
    OtherId(rows, bound, ProviderWait);
    OtherId(rows, bound, ProviderSelection);
  }

  lemma RefreshIsUpdated(rows: seq<Row>)
    requires Latest(rows, CapacityRefresh).Some?
    ensures Updates(rows, Latest(rows, CapacityRefresh).value.id)
  {
    LatestIsRow(rows, CapacityRefresh);
    var i :| 0 <= i < |rows| && rows[i] == Latest(rows, CapacityRefresh).value;
  }

  // Rows of two kinds never share an id.
  lemma OtherId(rows: seq<Row>, bound: nat, kind: Kind)
    requires Ordered(rows) && Below(rows, bound) && Latest(rows, CapacityRefresh).Some? && kind != CapacityRefresh
    ensures var id := Latest(rows, CapacityRefresh).value.id;
      id > 0 && (LatestId(rows, kind) < id <==> !Newer(rows, kind, CapacityRefresh))
  {
    LatestIsRow(rows, CapacityRefresh);
    LatestIsRow(rows, kind);
    hide Latest;
    var i :| 0 <= i < |rows| && rows[i] == Latest(rows, CapacityRefresh).value;
    if Latest(rows, kind).Some? {
      var j :| 0 <= j < |rows| && rows[j] == Latest(rows, kind).value;
      assert i != j;
    }
  }

  // ----- The worker and its store -----

  class CapacityRefreshWorker {
    var rows: seq<Row>
    var nextId: nat
    var lastRefresh: Option<(Json, nat)>
    var refreshLoaded: bool
    var stopped: bool
    ghost var full: seq<Row>        // the log in which every observation is a row of its own
    ghost var nextFull: nat
    ghost var observed: Option<Json>  // signature of the last observation
    ghost var changes: nat          // observations whose signature differs from the one before
    ghost var orderEvents: nat      // wait and selection events

    ghost predicate Valid()
      reads this
    {
      && nextId >= 1 && nextFull >= 1 && Ordered(rows) && Below(rows, nextId) && Below(full, nextFull)
      && Agree(rows, full)
      && (match Latest(rows, CapacityRefresh)
          case None => observed == None && lastRefresh == None
          case Some(row) =>
            && observed == Some(Signature(row.data))
            && if refreshLoaded then lastRefresh == Some((Signature(row.data), row.id)) else lastRefresh == None)
      && Count(rows) + (if Interrupted(rows) then 1 else 0) <= (if observed.None? then 0 else 1) + changes + orderEvents
    }

    constructor ()
      ensures Valid() && rows == [] && full == [] && changes == orderEvents == 0
    {
      rows, nextId, lastRefresh, refreshLoaded, stopped := [], 1, None, false, false;
      full, nextFull, observed, changes, orderEvents := [], 1, None, 0, 0;
    }

    // Some other event is recorded.
    method Record(kind: Kind, data: Json, time: string)
      requires Valid() && kind != CapacityRefresh
      modifies this
      ensures Valid()
      ensures rows == old(rows) + [Row(old(nextId), kind, data, time)] && full == old(full) + [Row(old(nextFull), kind, data, time)]
      ensures changes == old(changes) && stopped == old(stopped) && observed == old(observed)
      ensures orderEvents == old(orderEvents) + if kind == Plumbing then 0 else 1
    {
      hide Agree, Newer, Count, Interrupted, Latest, Ordered, Below;
      AppendBelow(full, Row(nextFull, kind, data, time));
      AgreeAfterAppend(rows, full, Row(nextId, kind, data, time), Row(nextFull, kind, data, time));
      OtherAppended(rows, Row(nextId, kind, data, time));
      rows := rows + [Row(nextId, kind, data, time)];
      full := full + [Row(nextFull, kind, data, time)];
      nextId, nextFull := nextId + 1, nextFull + 1;
      orderEvents := orderEvents + if kind == Plumbing then 0 else 1;
    }

    // An observation: one more row of the full log; in the table, the newest refresh row is rewritten when its
    // signature repeats with no wait or selection since, and otherwise a row is added.
    method RecordRefresh(observation: Json, time: string)
      requires Valid()
      modifies this
      ensures Valid()
      ensures stopped == old(stopped) && orderEvents == old(orderEvents)
      ensures old(stopped) ==> rows == old(rows) && full == old(full) && changes == old(changes)
      ensures !old(stopped) ==>
        && full == old(full) + [Row(old(nextFull), CapacityRefresh, observation, time)]
        && observed == Some(Signature(observation))
        && changes == old(changes) + (if old(observed) in {None, observed} then 0 else 1)
        && rows == if old(observed) == observed && !Interrupted(old(rows))
                   then Update(old(rows), Latest(old(rows), CapacityRefresh).value.id, observation, time)
                   else old(rows) + [Row(old(nextId), CapacityRefresh, observation, time)]
      ensures !old(stopped) ==> Observes(old(rows), rows, old(nextId), observation, time)
    {
      if stopped {
        return;
      }
      Observed(observation, time);
      Load();
      hide Agree, Newer, Interrupted, Count, Latest, Below, Ordered, Updates, Observes;
      var signature := Signature(observation);
      var last := lastRefresh;
      if Latest(rows, CapacityRefresh).Some? {
        IdTestIsOrder(rows, nextId);
      }
      if last.Some? && last.value.0 == signature
         && LatestId(rows, ProviderWait) < last.value.1 && LatestId(rows, ProviderSelection) < last.value.1
         && Updates(rows, last.value.1) {
        Compact(observation, time, last.value.1);
        return;
      }
      AppendRefresh(observation, time, signature);
    }

    // What the table becomes, in its own terms.
    lemma Observed(observation: Json, time: string)
      requires Valid()
      ensures Observes(rows,
                       if observed == Some(Signature(observation)) && !Interrupted(rows)
                       then Update(rows, Latest(rows, CapacityRefresh).value.id, observation, time)
                       else rows + [Row(nextId, CapacityRefresh, observation, time)],
                       nextId, observation, time)
    {
      hide Agree, Newer, Interrupted, Count, Update, Observes;
      TableObserves(rows,
                    if observed == Some(Signature(observation)) && !Interrupted(rows)
                    then Update(rows, Latest(rows, CapacityRefresh).value.id, observation, time)
                    else rows + [Row(nextId, CapacityRefresh, observation, time)],
                    nextId, nextId, observation, time);
    }

    // The newest row is read once, before the first observation.
    method Load()
      requires Valid()
      modifies this`lastRefresh, this`refreshLoaded
      ensures Valid() && refreshLoaded
      ensures Latest(rows, CapacityRefresh).Some? <==> lastRefresh.Some?
    {
      if !refreshLoaded {
        refreshLoaded := true;
        var latest := Latest(rows, CapacityRefresh);
        if latest.Some? {
          lastRefresh := Some((Signature(latest.value.data), latest.value.id));
        }
      }
    }

    method Compact(observation: Json, time: string, id: nat)
      requires Valid() && refreshLoaded && lastRefresh == Some((Signature(observation), id)) && !Interrupted(rows)
      modifies this
      ensures Valid() && full == old(full) + [Row(old(nextFull), CapacityRefresh, observation, time)]
      ensures rows == Update(old(rows), id, observation, time)
      ensures stopped == old(stopped) && orderEvents == old(orderEvents) && changes == old(changes)
      ensures observed == old(observed)
    {
      hide Agree, Count, Latest, Interrupted, Ordered, Below, Update;
      ghost var row := Row(nextFull, CapacityRefresh, observation, time);
      Compacted(rows, nextId, observation, time);
      CompactionAgrees(rows, full, nextId, row);
      AppendBelow(full, row);
      rows := Update(rows, id, observation, time);
      full := full + [row];
      nextFull := nextFull + 1;
    }

    method AppendRefresh(observation: Json, time: string, signature: Json)
      requires Valid() && refreshLoaded && signature == Signature(observation)
      requires observed == Some(signature) ==> Interrupted(rows)
      modifies this
      ensures Valid() && full == old(full) + [Row(old(nextFull), CapacityRefresh, observation, time)]
      ensures rows == old(rows) + [Row(old(nextId), CapacityRefresh, observation, time)]
      ensures stopped == old(stopped) && orderEvents == old(orderEvents)
      ensures changes == old(changes) + if old(observed).Some? && old(observed) != Some(signature) then 1 else 0
      ensures observed == Some(signature)
    {
      hide Latest, Newer, Interrupted, Count, Agree, Ordered, Below;
      ghost var copy := Row(nextFull, CapacityRefresh, observation, time);
      var row := Row(nextId, CapacityRefresh, observation, time);
      AppendBelow(full, copy);
      AgreeAfterAppend(rows, full, row, copy);
      RefreshAppended(rows, row);
      lastRefresh := Some((signature, nextId));
      rows, full := rows + [row], full + [copy];
      nextId, nextFull := nextId + 1, nextFull + 1;
      changes := changes + if observed.Some? && observed != Some(signature) then 1 else 0;
      observed := Some(signature);
    }

    // The prune pass deletes expired rows of the table; the full log keeps them.
    method Prune(doomed: set<nat>)
      requires Valid() && Prunable(rows, doomed)
      modifies this`rows
      ensures Valid() && rows == Delete(old(rows), doomed)
    {
      hide Agree, Count, Latest, Delete, Interrupted, Ordered, Below, Prunable;
      Pruned(rows, doomed, nextId);
      PruneAgrees(rows, full, doomed);
      rows := Delete(rows, doomed);
    }

    // A later worker starts over from the table alone.
    method Restart()
      requires Valid()
      modifies this`lastRefresh, this`refreshLoaded, this`stopped
      ensures Valid() && !stopped
    {
      hide Agree, Newer, Interrupted, Count, Latest, Below, Ordered;
      lastRefresh, refreshLoaded, stopped := None, false, false;
    }

    method Stop()
      requires Valid()
      modifies this`stopped
      ensures Valid() && stopped
    {
      stopped := true;
    }

    // Indistinguishable from the full log, in few rows.
    lemma MonitorCannotTell()
      requires Valid()
      ensures Project(rows) == Project(full) && Reads(rows, Project(full))
      ensures Count(rows) <= 1 + changes + orderEvents
    {
      AgreeMeansSameView(rows, full);
      ProjectionReads(rows);
    }
  }
}
