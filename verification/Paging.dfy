// Event pages below an anchor: a cache of id bounds that must agree with plain offsets.
module Paging {
  import opened Common
  import opened EventLog

  const PAGE_SIZE: nat := 20
  const CURSOR_KEYS: nat := 64

  datatype Key = Key(mission: string, anchor: int)

  // Offset below the anchor -> id bound of the row at that offset.
  type Cursors = map<nat, int>

  // LIMIT 20 OFFSET offset
  function Page(rows: seq<Event>, offset: nat): (page: seq<Event>)
    ensures |page| <= 20
  {
    rows[Min(offset, |rows|)..Min(offset + PAGE_SIZE, |rows|)]
  }

  function PlainPage(log: seq<Event>, mission: string, anchor: Option<int>, offset: nat): seq<Event> {
    Page(Newest(log, mission, anchor), offset)
  }

  // The page at `offset`, told from the log alone: of the mission's events up to the anchor, those with exactly
  // offset, offset + 1, ... newer ones, newest first, at most twenty.
  ghost predicate IsPage(log: seq<Event>, mission: string, anchor: Option<int>, offset: nat, rows: seq<Event>) {
    var mine := set e | e in log && e.mission == mission && (anchor.Some? ==> e.id <= anchor.value);
    && |rows| == (if |mine| <= offset then 0 else if |mine| <= offset + 20 then |mine| - offset else 20)
    && (forall i, j :: 0 <= i < j < |rows| ==> rows[i].id > rows[j].id)
    && (forall i :: 0 <= i < |rows| ==> rows[i] in mine && |set e | e in mine && e.id > rows[i].id| == offset + i)
  }

  lemma PlainPageIsPage(log: seq<Event>, mission: string, anchor: Option<int>, offset: nat)
    requires Ordered(log)
    ensures IsPage(log, mission, anchor, offset, PlainPage(log, mission, anchor, offset))
  {
    var mine := set e | e in log && e.mission == mission && (anchor.Some? ==> e.id <= anchor.value);
    var all := Newest(log, mission, anchor);
    NewestDescends(log, mission, anchor);
    assert forall e :: e in mine <==> e in all;
    hide Newest, Page, Ordered;
    PageRanks(all, mine, offset);
  }

  lemma PageRanks(all: seq<Event>, mine: set<Event>, offset: nat)
    requires Descending(all) && forall e :: e in mine <==> e in all
    ensures var rows := Page(all, offset);
      && |rows| == (if |mine| <= offset then 0 else if |mine| <= offset + 20 then |mine| - offset else 20)
      && (forall i, j :: 0 <= i < j < |rows| ==> rows[i].id > rows[j].id)
      && (forall i :: 0 <= i < |rows| ==> rows[i] in mine && |set e | e in mine && e.id > rows[i].id| == offset + i)
  {
    var rows := Page(all, offset);
    SizeOf(all, mine);
    assert forall i :: 0 <= i < |rows| ==> rows[i] == all[offset + i];
    forall i | 0 <= i < |rows|
      ensures rows[i] in mine && |set e | e in mine && e.id > rows[i].id| == offset + i
    {
      RankOf(all, mine, offset + i);
    }
  }

  lemma SizeOf(all: seq<Event>, mine: set<Event>)
    requires Descending(all) && forall e :: e in mine <==> e in all
    ensures |mine| == |all|
  {
    DescendingSize(all);
    assert mine == set e | e in all;
  }

  lemma RankOf(all: seq<Event>, mine: set<Event>, k: nat)
    requires Descending(all) && (forall e :: e in mine <==> e in all) && k < |all|
    ensures all[k] in mine && |set e | e in mine && e.id > all[k].id| == k
  {
    DescendingRank(all, k);
    hide Descending;
    assert (set e | e in mine && e.id > all[k].id) == set e | e in all && e.id > all[k].id;
  }

  // No two lists are the same page.
  lemma PageIsUnique(log: seq<Event>, mission: string, anchor: Option<int>, offset: nat, rows: seq<Event>)
    requires Ordered(log) && IsPage(log, mission, anchor, offset, rows)
    ensures rows == PlainPage(log, mission, anchor, offset)
  {
    var plain := PlainPage(log, mission, anchor, offset);
    PlainPageIsPage(log, mission, anchor, offset);
    hide PlainPage;
    var mine := set e | e in log && e.mission == mission && (anchor.Some? ==> e.id <= anchor.value);
    forall i | 0 <= i < |rows|
      ensures rows[i] == plain[i]
    {
      RankIsUnique(log, mine, rows[i], plain[i]);
    }
  }

  // Two events of an ordered log with equally many newer ones are one event.
  lemma RankIsUnique(log: seq<Event>, mine: set<Event>, x: Event, y: Event)
    requires Ordered(log) && x in mine && y in mine && forall e :: e in mine ==> e in log
    requires |set e | e in mine && e.id > x.id| == |set e | e in mine && e.id > y.id|
    ensures x == y
  {
    if x.id < y.id {
      RankIsStrict(mine, x, y);
    } else if y.id < x.id {
      RankIsStrict(mine, y, x);
    } else {
      var i :| 0 <= i < |log| && log[i] == x;
      var j :| 0 <= j < |log| && log[j] == y;
    }
  }

  lemma RankIsStrict(mine: set<Event>, x: Event, y: Event)
    requires x in mine && y in mine && x.id < y.id
    ensures |set e | e in mine && e.id > x.id| > |set e | e in mine && e.id > y.id|
  {
    var above, more := set e | e in mine && e.id > y.id, set e | e in mine && e.id > x.id;
    assert above + {y} <= more && y !in above;
    SubsetSize(above + {y}, more);
  }

  lemma {:induction false} SubsetSize(a: set<Event>, b: set<Event>)
    requires a <= b
    ensures |a| <= |b|
  {
    assert b == a + (b - a);
  }

  // Every remembered bound selects exactly the rows from its offset on.
  ghost predicate CursorsValid(log: seq<Event>, key: Key, cursors: Cursors) {
    var rows := Newest(log, key.mission, Some(key.anchor));
    forall at :: at in cursors ==>
      && at <= |rows| && cursors[at] <= key.anchor
      && Newest(log, key.mission, Some(cursors[at])) == rows[at..]
  }

  // The best start for a page: the greatest remembered offset not above it, else 0.
  ghost predicate IsStart(known: Cursors, offset: nat, start: nat) {
    && start <= offset
    && (forall at :: at in known && at <= offset ==> at <= start)
    && (start in known || (start == 0 && forall at :: at in known ==> at > offset))
  }

  function Upper(known: Cursors, start: nat, anchor: int): int {
    if start in known then known[start] else anchor
  }

  // The cursors after a page read returned `rows`.
  function Remember(cursors: Cursors, offset: nat, rows: seq<Event>): Cursors {
    var c := if rows == [] then cursors else cursors[offset := rows[0].id];
    if |rows| == PAGE_SIZE then c[offset + PAGE_SIZE := rows[|rows| - 1].id - 1] else c
  }

  // What the cache knows of a key, and what a page read adds to.
  function KnownOrNone(cursors: map<Key, Cursors>, key: Key): Cursors {
    if key in cursors then cursors[key] else map[]
  }

  function KnownOrFirst(cursors: map<Key, Cursors>, key: Key): Cursors {
    if key in cursors then cursors[key] else map[0 := key.anchor]
  }

  // What a page of at most twenty rows adds: the bound of its first row, and of the row after a full page.
  ghost predicate Remembers(before: Cursors, offset: nat, rows: seq<Event>, after: Cursors) {
    && (forall at: nat :: at in after <==>
          at in before || (rows != [] && at == offset) || (|rows| == 20 && at == offset + 20))
    && (|rows| == 20 ==> after[offset + 20] == rows[19].id - 1)
    && (rows != [] ==> after[offset] == rows[0].id)
    && (forall at :: at in before && (rows == [] || at != offset) && (|rows| < 20 || at != offset + 20) ==> after[at] == before[at])
  }

  lemma RememberRemembers(before: Cursors, offset: nat, rows: seq<Event>)
    requires |rows| <= 20
    ensures Remembers(before, offset, rows, Remember(before, offset, rows))
  {
  }

  ghost predicate OthersStay(key: Key, before: map<Key, Cursors>, after: map<Key, Cursors>) {
    forall k :: k in after && k != key ==> k in before && after[k] == before[k]
  }

  lemma SuffixPage(rows: seq<Event>, start: nat, offset: nat)
    requires start <= offset && start <= |rows|
    ensures Page(rows[start..], offset - start) == Page(rows, offset)
  {
  }

  // A page read from a valid cursor is the plain page.
  lemma CursorPageIsPlain(log: seq<Event>, key: Key, known: Cursors, offset: nat, start: nat)
    requires CursorsValid(log, key, known) && IsStart(known, offset, start)
    ensures PlainPage(log, key.mission, Some(Upper(known, start, key.anchor)), offset - start)
         == PlainPage(log, key.mission, Some(key.anchor), offset)
  {
    if start in known {
      SuffixPage(Newest(log, key.mission, Some(key.anchor)), start, offset);
    }
  }

  lemma AnchorCursor(log: seq<Event>, key: Key)
    ensures CursorsValid(log, key, map[0 := key.anchor])
  {
    var rows := Newest(log, key.mission, Some(key.anchor));
    assert rows[0..] == rows;
  }

  // The id of a row starts the rows from it on; one less starts the rows after it.
  lemma RowIsCursor(log: seq<Event>, key: Key, cursors: Cursors, i: nat)
    requires Ordered(log) && CursorsValid(log, key, cursors)
    requires i < |Newest(log, key.mission, Some(key.anchor))|
    ensures var id := Newest(log, key.mission, Some(key.anchor))[i].id;
      CursorsValid(log, key, cursors[i := id]) && CursorsValid(log, key, cursors[i + 1 := id - 1])
  {
    hide Newest;
    var rows := Newest(log, key.mission, Some(key.anchor));
    NewestDescends(log, key.mission, Some(key.anchor));
    assert rows[i] in rows;
    BoundSelectsSuffix(log, key.mission, key.anchor, i, rows[i].id);
    BoundSelectsSuffix(log, key.mission, key.anchor, i + 1, rows[i].id - 1);
  }

  lemma PageRows(rows: seq<Event>, offset: nat)
    ensures var page := Page(rows, offset);
      && (page != [] ==> offset < |rows| && page[0] == rows[offset])
      && (|page| == PAGE_SIZE ==>
        offset + PAGE_SIZE <= |rows| && page[PAGE_SIZE - 1] == rows[offset + PAGE_SIZE - 1])
  {
  }

  // What a page read remembers stays true.
  lemma RememberIsValid(log: seq<Event>, key: Key, cursors: Cursors, offset: nat)
    requires Ordered(log) && CursorsValid(log, key, cursors)
    ensures CursorsValid(log, key, Remember(cursors, offset, PlainPage(log, key.mission, Some(key.anchor), offset)))
  {
    hide Newest, CursorsValid, Page;
    var rows := Newest(log, key.mission, Some(key.anchor));
    var page := Page(rows, offset);
    PageRows(rows, offset);
    var c := cursors;
    if page != [] {
      RowIsCursor(log, key, c, offset);
      c := c[offset := page[0].id];
    }
    if |page| == PAGE_SIZE {
      RowIsCursor(log, key, c, offset + PAGE_SIZE - 1);
    }
  }

  // Appending events newer than the anchor leaves every remembered bound valid.
  lemma AppendKeepsCursors(log: seq<Event>, e: Event, key: Key, cursors: Cursors)
    requires CursorsValid(log, key, cursors) && key.anchor < e.id
    ensures CursorsValid(log + [e], key, cursors)
  {
    AppendIsAbove(log, e, key.mission, key.anchor);
    forall at | at in cursors
      ensures Newest(log + [e], key.mission, Some(cursors[at])) == Newest(log, key.mission, Some(cursors[at]))
    {
      AppendIsAbove(log, e, key.mission, cursors[at]);
    }
  }

  // Events appended after the anchor was issued.
  ghost predicate Above(more: seq<Event>, anchor: int) {
    forall i :: 0 <= i < |more| ==> more[i].id > anchor
  }

  lemma {:induction false} LaterEventsKeep(log: seq<Event>, more: seq<Event>, key: Key, cursors: Cursors)
    requires CursorsValid(log, key, cursors) && Above(more, key.anchor)
    ensures CursorsValid(log + more, key, cursors)
    ensures Newest(log + more, key.mission, Some(key.anchor)) == Newest(log, key.mission, Some(key.anchor))
  {
    if more == [] {
      assert log + more == log;
    } else {
      hide CursorsValid, Newest;
      var front, last := more[..|more| - 1], more[|more| - 1];
      FrontAndLast(more);
      Assoc(log, front, [last]);
      LaterEventsKeep(log, front, key, cursors);
      AppendKeepsCursors(log + front, last, key, cursors);
      AppendIsAbove(log + front, last, key.mission, key.anchor);
    }
  }

  // The cache is read and written under a lock, but the query between is not. Bounds copied from the cache
  // before other threads appended events still give the plain page, and what that page adds to a cache that
  // changed meanwhile is valid.
  lemma InterleavedReadIsPlain(log: seq<Event>, more: seq<Event>, key: Key, known: Cursors, offset: nat, start: nat,
                               meanwhile: Cursors)
    requires Ordered(log + more) && Above(more, key.anchor)
    requires CursorsValid(log, key, known) && IsStart(known, offset, start) && CursorsValid(log + more, key, meanwhile)
    ensures var rows := PlainPage(log + more, key.mission, Some(Upper(known, start, key.anchor)), offset - start);
      && rows == PlainPage(log + more, key.mission, Some(key.anchor), offset)
      && rows == PlainPage(log, key.mission, Some(key.anchor), offset)
      && CursorsValid(log + more, key, Remember(meanwhile, offset, rows))
  {
    LaterEventsKeep(log, more, key, known);
    CursorPageIsPlain(log + more, key, known, offset, start);
    RememberIsValid(log + more, key, meanwhile, offset);
  }

  // ----- The reader -----

  class EventPages {
    var log: seq<Event>
    var lastId: nat  // the last id issued
    var order: seq<Key>  // least recently used first
    var cursors: map<Key, Cursors>
    ghost var sound: set<Key>  // keys with nothing remembered while their anchor was not issued yet

    ghost predicate Valid()
      reads this
    {
      && Ordered(log) && (forall e :: e in log ==> e.id <= lastId)
      && |order| <= CURSOR_KEYS && Indexed(order, cursors) && EntriesValid()
    }

    ghost predicate EntriesValid()
      reads this
    {
      forall key :: key in cursors && key in sound ==> EntrySound(log, lastId, key, cursors[key])
    }

    constructor ()
      ensures Valid() && log == [] && lastId == 0 && order == [] && sound == {}
    {
      log, lastId, order, cursors, sound := [], 0, [], map[], {};
    }

    method Append(mission: string, kind: string, data: string) returns (id: nat)
      requires Valid()
      modifies this
      ensures Valid() && id == lastId == old(lastId) + 1
      ensures log == old(log) + [Event(id, mission, kind, data)]
      ensures order == old(order) && cursors == old(cursors) && sound == old(sound)
    {
      id := lastId + 1;
      var e := Event(id, mission, kind, data);
      forall key | key in cursors && key in sound
        ensures EntrySound(log + [e], id, key, cursors[key])
      {
        if cursors[key] != map[0 := key.anchor] {
          AppendKeepsCursors(log, e, key, cursors[key]);
        }
      }
      log, lastId := log + [e], id;
    }

    // One page, newest first. With an anchor the rows come from the nearest remembered bound;
    // `skipped` is how many rows the database still has to discard. The page is the plain one at the first
    // read of an anchor, and ever after unless rows were remembered while the anchor was not issued yet.
    method EventPageRows(mission: string, anchor: Option<int>, offset: nat) returns (rows: seq<Event>, skipped: nat)
      requires Valid()
      modifies this`order, this`cursors, this`sound
      ensures Valid()
      ensures anchor.None? ==>
        && IsPage(log, mission, None, offset, rows)
        && rows == PlainPage(log, mission, None, offset)
        && order == old(order) && cursors == old(cursors) && sound == old(sound)
      ensures anchor.Some? ==>
        var key := Key(mission, anchor.value);
        && (key !in old(cursors) || key in old(sound) ==>
              IsPage(log, mission, anchor, offset, rows) && rows == PlainPage(log, mission, anchor, offset))
        && sound == (if (key !in old(cursors) || key in old(sound)) && (anchor.value <= lastId || rows == [])
                     then old(sound) + {key} else old(sound) - {key})
      ensures anchor.Some? ==>
        var key := Key(mission, anchor.value);
        && order == LastN(Without(old(order), key) + [key], CURSOR_KEYS) && key in cursors
        && cursors[key] == Remember(KnownOrFirst(old(cursors), key), offset, rows)
        && Remembers(KnownOrFirst(old(cursors), key), offset, rows, cursors[key])
        && OthersStay(key, old(cursors), cursors)
      ensures anchor.Some? ==>
        var key := Key(mission, anchor.value);
        && skipped <= offset && IsStart(KnownOrNone(old(cursors), key), offset, offset - skipped)
        && (key in old(cursors) && offset in old(cursors)[key] ==> skipped == 0)
    {
      hide *;
      if anchor.None? {
        rows := PlainRows(mission, offset);
        skipped := offset;
      } else {
        rows, skipped := AnchoredRows(Key(mission, anchor.value), offset);
      }
    }

    method PlainRows(mission: string, offset: nat) returns (rows: seq<Event>)
      requires Valid()
      ensures IsPage(log, mission, None, offset, rows) && rows == PlainPage(log, mission, None, offset)
    {
      ValidIsOrdered();
      hide *;
      PlainPageIsPage(log, mission, None, offset);
      PageIsPlain(log, mission, None, offset);
      rows := Page(Newest(log, mission, None), offset);
    }

    lemma ValidIsOrdered()
      requires Valid()
      ensures Ordered(log)
    {
    }

    method AnchoredRows(key: Key, offset: nat) returns (rows: seq<Event>, skipped: nat)
      requires Valid()
      modifies this`order, this`cursors, this`sound
      ensures Valid()
      ensures key !in old(cursors) || key in old(sound) ==>
        && IsPage(log, key.mission, Some(key.anchor), offset, rows)
        && rows == PlainPage(log, key.mission, Some(key.anchor), offset)
      ensures sound == if (key !in old(cursors) || key in old(sound)) && (key.anchor <= lastId || rows == [])
                       then old(sound) + {key} else old(sound) - {key}
      ensures order == LastN(Without(old(order), key) + [key], CURSOR_KEYS) && key in cursors
      ensures cursors[key] == Remember(KnownOrFirst(old(cursors), key), offset, rows)
      ensures Remembers(KnownOrFirst(old(cursors), key), offset, rows, cursors[key])
      ensures OthersStay(key, old(cursors), cursors)
      ensures skipped <= offset && IsStart(KnownOrNone(old(cursors), key), offset, offset - skipped)
      ensures key in old(cursors) && offset in old(cursors)[key] ==> skipped == 0
    {
      ValidIsOrdered();
      hide *;
      PlainPageIsPage(log, key.mission, Some(key.anchor), offset);
      rows, skipped := ReadPage(key, offset);
      RememberRemembers(KnownOrFirst(cursors, key), offset, rows);
      Note(key, rows);
      Store(key, offset, rows);
    }

    // Record whether the key's bounds are sound once this page is remembered.
    ghost method Note(key: Key, rows: seq<Event>)
      requires Valid()
      modifies this`sound
      ensures Valid()
      ensures sound == if (key !in cursors || key in old(sound)) && (key.anchor <= lastId || rows == [])
                       then old(sound) + {key} else old(sound) - {key}
    {
      hide Indexed, EntrySound, Ordered;
      sound := if (key !in cursors || key in sound) && (key.anchor <= lastId || rows == []) then sound + {key} else sound - {key};
    }

    // The lookup and the query.
    method ReadPage(key: Key, offset: nat) returns (rows: seq<Event>, skipped: nat)
      requires Valid()
      ensures key !in cursors || key in sound ==> rows == PlainPage(log, key.mission, Some(key.anchor), offset)
      ensures skipped <= offset && IsStart(KnownOrNone(cursors, key), offset, offset - skipped)
      ensures key in cursors && offset in cursors[key] ==> skipped == 0
      ensures |rows| <= 20
    {
      hide PlainPage, Newest, CursorsValid, Page, Indexed, EntrySound, Ordered;
      var known := if key in cursors then cursors[key] else map[];
      var start := BestStart(known, offset);
      var upper := Upper(known, start, key.anchor);
      skipped := offset - start;
      rows := Page(Newest(log, key.mission, Some(upper)), skipped);
      PageIsPlain(log, key.mission, Some(upper), skipped);
      if key !in cursors || key in sound {
        KnownIsValid(key);
        CursorPageIsPlain(log, key, known, offset, start);
      }
    }

    lemma KnownIsValid(key: Key)
      requires Valid() && (key in cursors ==> key in sound)
      ensures CursorsValid(log, key, KnownOrNone(cursors, key))
    {
      if key in cursors {
        SoundIsValid(log, lastId, key, cursors[key]);
      } else {
        NothingKnown(log, key);
      }
    }

    // `max(at for at in known if at <= offset)`, or 0.
    method BestStart(known: Cursors, offset: nat) returns (start: nat)
      ensures IsStart(known, offset, start)
    {
      var best := -1;
      var left := known.Keys;
      while left != {}
        invariant left <= known.Keys
        invariant best >= -1 && (best >= 0 ==> best in known && best <= offset)
        invariant forall at :: at in known && at <= offset && at !in left ==> at <= best
        decreases |left|
      {
        var at :| at in left;
        left := left - {at};
        if at <= offset && at > best {
          best := at;
        }
      }
      start := if best < 0 then 0 else best;
    }

    // Remember the page's bounds, mark the key most recently used, and evict.
    method Store(key: Key, offset: nat, rows: seq<Event>)
      requires Valid()
      requires key in sound ==>
        (key.anchor <= lastId || rows == []) && rows == PlainPage(log, key.mission, Some(key.anchor), offset)
      modifies this`order, this`cursors
      ensures Valid()
      ensures order == LastN(Without(old(order), key) + [key], CURSOR_KEYS) && key in cursors
      ensures cursors[key] == Remember(KnownOrFirst(old(cursors), key), offset, rows)
      ensures OthersStay(key, old(cursors), cursors)
    {
      hide PlainPage, Newest, CursorsValid, Remember, EntrySound, Ordered, Without, NoRepeats;
      var mine := if key in cursors then cursors[key] else map[0 := key.anchor];
      if key in sound {
        FirstIsSound(log, lastId, key);
        RememberIsSound(log, lastId, key, mine, offset);
      }
      cursors := cursors[key := Remember(mine, offset, rows)];
      UsedAgain(order, old(cursors), key, Remember(mine, offset, rows));
      order := Without(order, key) + [key];
      Evict(key);
    }

    method Evict(ghost newest: Key)
      requires Indexed(order, cursors) && EntriesValid() && order != [] && order[|order| - 1] == newest
      requires newest in cursors
      modifies this`order, this`cursors
      ensures Indexed(order, cursors) && EntriesValid()
      ensures order == LastN(old(order), CURSOR_KEYS)
      ensures newest in cursors && cursors[newest] == old(cursors)[newest]
      ensures OthersStay(newest, old(cursors), cursors)
    {
      hide CursorsValid, Indexed;
      ghost var full, dropped := order, 0;
      while |order| > CURSOR_KEYS
        invariant Indexed(order, cursors) && EntriesValid()
        invariant dropped < |full| && order == full[dropped..] && |order| >= Min(|full|, CURSOR_KEYS)
        invariant newest in cursors && cursors[newest] == old(cursors)[newest]
        invariant OthersStay(newest, old(cursors), cursors)
      {
        DropOldest(order, cursors);
        assert full[|full| - 1] == newest;
        cursors := cursors - {order[0]};
        order := order[1..];
        dropped := dropped + 1;
      }
    }
  }

  lemma NothingKnown(log: seq<Event>, key: Key)
    ensures CursorsValid(log, key, map[])
  {
  }

  lemma PageIsPlain(log: seq<Event>, mission: string, anchor: Option<int>, offset: nat)
    ensures Page(Newest(log, mission, anchor), offset) == PlainPage(log, mission, anchor, offset)
  {
  }

  // Bounds that stay valid whatever is appended: remembered once the anchor was issued, or none but the first.
  ghost predicate EntrySound(log: seq<Event>, lastId: nat, key: Key, cursors: Cursors) {
    cursors == map[0 := key.anchor] || (key.anchor <= lastId && CursorsValid(log, key, cursors))
  }

  lemma FirstIsSound(log: seq<Event>, lastId: nat, key: Key)
    ensures EntrySound(log, lastId, key, map[0 := key.anchor])
  {
  }

  lemma SoundIsValid(log: seq<Event>, lastId: nat, key: Key, cursors: Cursors)
    requires EntrySound(log, lastId, key, cursors)
    ensures CursorsValid(log, key, cursors)
  {
    AnchorCursor(log, key);
  }

  lemma RememberIsSound(log: seq<Event>, lastId: nat, key: Key, cursors: Cursors, offset: nat)
    requires Ordered(log) && EntrySound(log, lastId, key, cursors)
    requires key.anchor <= lastId || PlainPage(log, key.mission, Some(key.anchor), offset) == []
    ensures EntrySound(log, lastId, key,
                       Remember(cursors, offset, PlainPage(log, key.mission, Some(key.anchor), offset)))
  {
    hide Newest, CursorsValid;
    SoundIsValid(log, lastId, key, cursors);
    RememberIsValid(log, key, cursors, offset);
  }

  // The used-order lists exactly the keys of the map, each once.
  ghost predicate Indexed(order: seq<Key>, cursors: map<Key, Cursors>) {
    NoRepeats(order) && forall key :: key in order <==> key in cursors
  }

  ghost predicate NoRepeats(s: seq<Key>) {
    forall i, j :: 0 <= i < j < |s| ==> s[i] != s[j]
  }

  lemma DropOldest(order: seq<Key>, cursors: map<Key, Cursors>)
    requires Indexed(order, cursors) && order != []
    ensures Indexed(order[1..], cursors - {order[0]})
    ensures |order| > 1 ==> order[0] != order[|order| - 1]
  {
    forall k ensures k in order[1..] <==> k in order && k != order[0] {
    }
  }

  function Without(s: seq<Key>, key: Key): seq<Key> {
    if s == [] then [] else (if s[0] == key then [] else [s[0]]) + Without(s[1..], key)
  }

  lemma {:induction false} WithoutProps(s: seq<Key>, key: Key)
    requires NoRepeats(s)
    ensures forall k :: k in Without(s, key) <==> k in s && k != key
    ensures NoRepeats(Without(s, key))
  {
    if s != [] {
      WithoutProps(s[1..], key);
      assert forall k :: k in s <==> k == s[0] || k in s[1..];
      assert s[0] !in s[1..];
      assert s[0] == key ==> Without(s, key) == Without(s[1..], key);
      assert s[0] != key ==> Without(s, key) == [s[0]] + Without(s[1..], key);
    }
  }

  lemma {:induction false} WithoutAbsent(s: seq<Key>, key: Key)
    requires key !in s
    ensures Without(s, key) == s
  {
    if s != [] {
      WithoutAbsent(s[1..], key);
      HeadAndTail(s);
    }
  }

  // Taking a key out leaves the order of the others.
  lemma {:induction false} WithoutCuts(s: seq<Key>, i: nat)
    requires NoRepeats(s) && i < |s|
    ensures Without(s, s[i]) == s[..i] + s[i + 1..]
  {
    var tail := s[1..];
    if i == 0 {
      WithoutAbsent(tail, s[0]);
      assert s[..0] + tail == tail;
    } else {
      WithoutCuts(tail, i - 1);
      WithoutFirst(s, s[i]);
      hide *;
      CutLater(s, i);
    }
  }

  lemma WithoutFirst(s: seq<Key>, key: Key)
    requires s != [] && s[0] != key
    ensures Without(s, key) == [s[0]] + Without(s[1..], key)
  {
  }

  lemma CutLater(s: seq<Key>, i: nat)
    requires 0 < i < |s|
    ensures s[..i] + s[i + 1..] == [s[0]] + (s[1..][..i - 1] + s[1..][i..])
    ensures s[1..][i - 1] == s[i]
  {
    Assoc([s[0]], s[1..i], s[i + 1..]);
    assert s[1..][..i - 1] == s[1..i];
    DropDrop(s, 1, i);
    assert s[..i] == [s[0]] + s[1..i];
  }

  // Marking a key most recently used keeps the order an index of the map.
  lemma UsedAgain(order: seq<Key>, cursors: map<Key, Cursors>, key: Key, mine: Cursors)
    requires Indexed(order, cursors)
    ensures Indexed(Without(order, key) + [key], cursors[key := mine])
  {
    WithoutProps(order, key);
    hide Without;
    var used := Without(order, key) + [key];
    forall i, j | 0 <= i < j < |used|
      ensures used[i] != used[j]
    {
      assert used[i] in Without(order, key);
    }
    assert forall k :: k in used <==> k in Without(order, key) || k == key;
  }

  // ----- Exactly which anchors can be remembered -----

  // Newer events, in id order, after the last id issued.
  ghost predicate Continues(log: seq<Event>, lastId: nat, more: seq<Event>) {
    Ordered(log + more) && Above(more, lastId)
  }

  ghost predicate StaysValid(log: seq<Event>, lastId: nat, key: Key, cursors: Cursors) {
    forall more :: Continues(log, lastId, more) ==> CursorsValid(log + more, key, cursors)
  }

  // What the first read of an anchor remembers stays true under every continuation of the log if and only if
  // the anchor had been issued, unless the page was empty and so nothing new was remembered.
  lemma RememberedIffIssued(log: seq<Event>, lastId: nat, key: Key, offset: nat)
    requires Ordered(log) && (forall e :: e in log ==> e.id <= lastId)
    requires PlainPage(log, key.mission, Some(key.anchor), offset) != []
    ensures StaysValid(log, lastId, key,
                       Remember(map[0 := key.anchor], offset, PlainPage(log, key.mission, Some(key.anchor), offset)))
       <==> key.anchor <= lastId
  {
    var rows := PlainPage(log, key.mission, Some(key.anchor), offset);
    var known := Remember(map[0 := key.anchor], offset, rows);
    if key.anchor <= lastId {
      AnchorCursor(log, key);
      RememberIsValid(log, key, map[0 := key.anchor], offset);
      forall more | Continues(log, lastId, more)
        ensures CursorsValid(log + more, key, known)
      {
        LaterEventsKeep(log, more, key, known);
      }
    } else {
      GoesStale(log, lastId, key, offset);
    }
  }

  // The next event lies under an anchor that was not issued and above every bound that was remembered.
  lemma GoesStale(log: seq<Event>, lastId: nat, key: Key, offset: nat)
    requires Ordered(log) && (forall e :: e in log ==> e.id <= lastId) && key.anchor > lastId
    requires PlainPage(log, key.mission, Some(key.anchor), offset) != []
    ensures !StaysValid(log, lastId, key,
                        Remember(map[0 := key.anchor], offset, PlainPage(log, key.mission, Some(key.anchor), offset)))
  {
    var rows := Newest(log, key.mission, Some(key.anchor));
    var known := Remember(map[0 := key.anchor], offset, PlainPage(log, key.mission, Some(key.anchor), offset));
    PageRows(rows, offset);
    BoundIsBelow(log, lastId, key, offset);
    var e := Event(lastId + 1, key.mission, "", "");
    assert offset in known && known[offset] == rows[offset].id;
    NextContinues(log, lastId, e);
    hide Newest, PlainPage, Page, Remember;
    AppendIsAbove(log, e, key.mission, rows[offset].id);
    AppendIsBelow(log, e, key.anchor);
    var later := Newest(log + [e], key.mission, Some(key.anchor));
    assert |later[offset..]| == |rows[offset..]| + 1;
  }

  lemma BoundIsBelow(log: seq<Event>, lastId: nat, key: Key, offset: nat)
    requires Ordered(log) && (forall e :: e in log ==> e.id <= lastId)
    requires offset < |Newest(log, key.mission, Some(key.anchor))|
    ensures var rows := Newest(log, key.mission, Some(key.anchor));
      && rows[offset].id <= lastId
      && Newest(log, key.mission, Some(rows[offset].id)) == rows[offset..]
  {
    hide Newest;
    var rows := Newest(log, key.mission, Some(key.anchor));
    NewestDescends(log, key.mission, Some(key.anchor));
    assert rows[offset] in rows;
    BoundSelectsSuffix(log, key.mission, key.anchor, offset, rows[offset].id);
  }

  lemma NextContinues(log: seq<Event>, lastId: nat, e: Event)
    requires Ordered(log) && (forall x :: x in log ==> x.id <= lastId) && e.id == lastId + 1
    ensures Continues(log, lastId, [e])
  {
  }

  // ----- Deleted rows -----

  function Survives(doomed: set<nat>): Event -> bool {
    (e: Event) => e.id !in doomed
  }

  function Deleted(log: seq<Event>, doomed: set<nat>): seq<Event> {
    Filter(Survives(doomed), log)
  }

  lemma NewestOfDeleted(log: seq<Event>, doomed: set<nat>, mission: string, anchor: Option<int>)
    ensures Newest(Deleted(log, doomed), mission, anchor) == Filter(Survives(doomed), Newest(log, mission, anchor))
  {
    var p, q := (e: Event) => e.mission == mission && AtMost(anchor, e.id), Survives(doomed);
    FilterTwice(q, p, log);
    FilterTwice(p, q, log);
    FilterSame(Both(p, q), Both(q, p), log);
    FilterReversed(q, Filter(p, log));
  }

  // After rows are deleted, the page read from a remembered bound is still the plain page if and only if none
  // of the rows before that bound was among them, or the page lies past the end of the list.
  lemma DeletionMovesPages(log: seq<Event>, key: Key, start: nat, bound: int, offset: nat, doomed: set<nat>)
    requires Ordered(log) && start <= offset && start <= |Newest(log, key.mission, Some(key.anchor))|
    requires Newest(log, key.mission, Some(bound)) == Newest(log, key.mission, Some(key.anchor))[start..]
    ensures var later := Deleted(log, doomed);
      PlainPage(later, key.mission, Some(bound), offset - start) == PlainPage(later, key.mission, Some(key.anchor), offset)
      <==>
      || (forall i :: 0 <= i < start ==> Newest(log, key.mission, Some(key.anchor))[i].id !in doomed)
      || |Newest(later, key.mission, Some(bound))| <= offset - start
  {
    var rows := Newest(log, key.mission, Some(key.anchor));
    var kept := Filter(Survives(doomed), rows[..start]);
    var below := Newest(Deleted(log, doomed), key.mission, Some(bound));
    SurvivorsCount(rows, start, doomed);
    assert Descending(below) by {
      FilterOrdered(Survives(doomed), log);
      NewestDescends(Deleted(log, doomed), key.mission, Some(bound));
    }
    PageIsPlain(Deleted(log, doomed), key.mission, Some(bound), offset - start);
    PageIsPlain(Deleted(log, doomed), key.mission, Some(key.anchor), offset);
    DeletedParts(log, key, start, bound, doomed);
    hide *;
    ShiftedPages(kept, below, start, offset);
  }

  lemma DeletedParts(log: seq<Event>, key: Key, start: nat, bound: int, doomed: set<nat>)
    requires start <= |Newest(log, key.mission, Some(key.anchor))|
    requires Newest(log, key.mission, Some(bound)) == Newest(log, key.mission, Some(key.anchor))[start..]
    ensures Newest(Deleted(log, doomed), key.mission, Some(key.anchor))
         == Filter(Survives(doomed), Newest(log, key.mission, Some(key.anchor))[..start])
            + Newest(Deleted(log, doomed), key.mission, Some(bound))
  {
    hide *;
    var rows := Newest(log, key.mission, Some(key.anchor));
    NewestOfDeleted(log, doomed, key.mission, Some(key.anchor));
    NewestOfDeleted(log, doomed, key.mission, Some(bound));
    FilterAppend(Survives(doomed), rows[..start], rows[start..]);
    assert rows == rows[..start] + rows[start..];
  }

  lemma SurvivorsCount(rows: seq<Event>, start: nat, doomed: set<nat>)
    requires start <= |rows|
    ensures |Filter(Survives(doomed), rows[..start])| <= start
    ensures |Filter(Survives(doomed), rows[..start])| == start <==> forall i :: 0 <= i < start ==> rows[i].id !in doomed
  {
    FilterAll(Survives(doomed), rows[..start]);
    hide Filter;
    assert forall i :: 0 <= i < start ==> Survives(doomed)(rows[..start][i]) == (rows[i].id !in doomed);
  }

  lemma ShiftedPages(kept: seq<Event>, below: seq<Event>, start: nat, offset: nat)
    requires |kept| <= start <= offset && Descending(below)
    ensures Page(below, offset - start) == Page(kept + below, offset) <==> |kept| == start || |below| <= offset - start
  {
    var a, b := Page(below, offset - start), Page(kept + below, offset);
    if |below| <= offset - start {
      assert a == [] && b == [];
    } else {
      assert a[0] == below[offset - start];
      if |kept| == start {
        assert a == b;
      } else if b != [] {
        assert b[0] == below[offset - |kept|];
      }
    }
  }
}
