// Values shared by every part of the model: optional results, bytes, and the
// substring searches that Python's `find`, `rfind` and `split` are built on.
module Common {

  datatype Option<+T> = None | Some(value: T)

  type byte = b: int | 0 <= b < 256

  function Min(a: int, b: int): int {
    if a <= b then a else b
  }

  function Max(a: int, b: int): int {
    if a <= b then b else a
  }

  predicate OccursAt<T(==)>(s: seq<T>, sub: seq<T>, i: int) {
    0 <= i && i + |sub| <= |s| && s[i..i + |sub|] == sub
  }

  // `s.find(sub, from)`: the least position not below `from`, or -1.
  function Find<T(==)>(s: seq<T>, sub: seq<T>, from: nat): (r: int)
    ensures -1 <= r
    ensures r < 0 ==> forall i :: from <= i ==> !OccursAt(s, sub, i)
    ensures r >= 0 ==> from <= r && OccursAt(s, sub, r)
    ensures r >= 0 ==> forall i :: from <= i < r ==> !OccursAt(s, sub, i)
    decreases |s| - from
  {
    if from + |sub| > |s| then -1
    else if OccursAt(s, sub, from) then from
    else Find(s, sub, from + 1)
  }

  // `s.rfind(sub, 0, limit)`: the greatest position whose occurrence ends by `limit`, or -1.
  function RFind<T(==)>(s: seq<T>, sub: seq<T>, limit: nat): (r: int)
    requires limit <= |s|
    ensures -1 <= r
    ensures r < 0 ==> forall i :: i + |sub| <= limit ==> !OccursAt(s, sub, i)
    ensures r >= 0 ==> r + |sub| <= limit && OccursAt(s, sub, r)
    ensures r >= 0 ==> forall i :: r < i && i + |sub| <= limit ==> !OccursAt(s, sub, i)
    decreases limit
  {
    if limit < |sub| then -1
    else if OccursAt(s, sub, limit - |sub|) then limit - |sub|
    else if limit == 0 then -1
    else RFind(s, sub, limit - 1)
  }

  lemma Assoc<T>(a: seq<T>, b: seq<T>, c: seq<T>)
    ensures (a + b) + c == a + (b + c)
  {
  }

  lemma DropAppend<T>(a: seq<T>, b: seq<T>, n: nat)
    requires n <= |a|
    ensures (a + b)[n..] == a[n..] + b
  {
  }

  lemma DropDrop<T>(s: seq<T>, i: nat, j: nat)
    requires i + j <= |s|
    ensures s[i..][j..] == s[i + j..]
  {
  }

  lemma FrontAndLast<T>(s: seq<T>)
    requires s != []
    ensures s == s[..|s| - 1] + [s[|s| - 1]]
  {
  }

  lemma HeadAndTail<T>(s: seq<T>)
    requires s != []
    ensures s == [s[0]] + s[1..]
  {
  }

  function Flatten<T>(parts: seq<seq<T>>): seq<T> {
    if parts == [] then [] else Flatten(parts[..|parts| - 1]) + parts[|parts| - 1]
  }

  lemma {:induction false} FlattenAppend<T>(a: seq<seq<T>>, b: seq<seq<T>>)
    ensures Flatten(a + b) == Flatten(a) + Flatten(b)
  {
    if b == [] {
      assert a + b == a;
    } else {
      var n := |b| - 1;
      assert (a + b)[..|a + b| - 1] == a + b[..n];
      FlattenAppend(a, b[..n]);
      Assoc(Flatten(a), Flatten(b[..n]), b[n]);
    }
  }

  lemma FlattenHead<T>(parts: seq<seq<T>>)
    requires parts != []
    ensures Flatten(parts) == parts[0] + Flatten(parts[1..])
  {
    FlattenAppend([parts[0]], parts[1..]);
    assert parts == [parts[0]] + parts[1..];
    assert Flatten([parts[0]]) == parts[0];
  }

  // Two searches agree once the positions between their start points are ruled out.
  lemma FindFromLater<T>(s: seq<T>, sub: seq<T>, from: nat)
    requires forall i :: 0 <= i < from ==> !OccursAt(s, sub, i)
    ensures Find(s, sub, from) == Find(s, sub, 0)
  {
    var r, r0 := Find(s, sub, from), Find(s, sub, 0);
    assert r0 >= 0 ==> OccursAt(s, sub, r0);
    assert r >= 0 ==> OccursAt(s, sub, r);
  }

  // An occurrence that lies inside a prefix is an occurrence in the prefix, and conversely.
  lemma OccursInPrefix<T>(s: seq<T>, more: seq<T>, sub: seq<T>, i: int)
    requires 0 <= i && i + |sub| <= |s|
    ensures OccursAt(s + more, sub, i) <==> OccursAt(s, sub, i)
  {
    assert (s + more)[i..i + |sub|] == s[i..i + |sub|];
  }

  // The occurrences in a string that is `tail` after `cut` other elements.
  lemma OccursInTail<T>(s: seq<T>, cut: nat, sub: seq<T>, i: int)
    requires cut <= |s| && cut <= i
    ensures OccursAt(s, sub, i) <==> OccursAt(s[cut..], sub, i - cut)
  {
    if i + |sub| <= |s| {
      assert s[i..i + |sub|] == s[cut..][i - cut..i - cut + |sub|];
    }
  }

  lemma FindShifted<T>(s: seq<T>, cut: nat, sub: seq<T>)
    requires cut <= |s|
    requires forall i :: 0 <= i < cut ==> !OccursAt(s, sub, i)
    ensures Find(s, sub, 0) == if Find(s[cut..], sub, 0) < 0 then -1 else cut + Find(s[cut..], sub, 0)
  {
    forall i | cut <= i ensures OccursAt(s, sub, i) <==> OccursAt(s[cut..], sub, i - cut) {
      OccursInTail(s, cut, sub, i);
    }
    var a, b := Find(s, sub, 0), Find(s[cut..], sub, 0);
    assert b >= 0 ==> OccursAt(s, sub, cut + b);
    assert a >= 0 ==> OccursAt(s[cut..], sub, a - cut);
  }

  // Keeping only a tail one element shorter than the pattern loses no later match.
  lemma FindInTail<T>(s: seq<T>, more: seq<T>, sub: seq<T>, keep: nat)
    requires |sub| > 0 && Find(s, sub, 0) < 0
    requires Min(|s|, |sub| - 1) <= keep <= |s|
    ensures var tail := s[|s| - keep..] + more;
            Find(s + more, sub, 0) == if Find(tail, sub, 0) < 0 then -1 else |s| - keep + Find(tail, sub, 0)
  {
    var cut := |s| - keep;
    forall i | 0 <= i < cut ensures !OccursAt(s + more, sub, i) {
      OccursInPrefix(s, more, sub, i);
    }
    assert (s + more)[cut..] == s[cut..] + more;
    FindShifted(s + more, cut, sub);
  }

  // The first occurrence stays the first when more follows.
  lemma FindStays<T>(s: seq<T>, more: seq<T>, sub: seq<T>)
    requires Find(s, sub, 0) >= 0
    ensures Find(s + more, sub, 0) == Find(s, sub, 0) && Find(s, sub, 0) + |sub| <= |s|
  {
    var p := Find(s, sub, 0);
    assert OccursAt(s, sub, p);
    OccursInPrefix(s, more, sub, p);
    forall i | 0 <= i < p
      ensures !OccursAt(s + more, sub, i)
    {
      OccursInPrefix(s, more, sub, i);
    }
    hide OccursAt;
  }

  // ----- Filtering and cutting -----

  function Filter<T(!new)>(p: T -> bool, s: seq<T>): (r: seq<T>)
    ensures forall x :: x in r <==> x in s && p(x)
  {
    if s == [] then []
    else
      var last := s[|s| - 1];
      assert s == s[..|s| - 1] + [last];
      Filter(p, s[..|s| - 1]) + if p(last) then [last] else []
  }

  function LastN<T>(s: seq<T>, n: nat): seq<T> {
    if |s| <= n then s else s[|s| - n..]
  }

  function Reverse<T>(s: seq<T>): (r: seq<T>)
    ensures |r| == |s|
    ensures forall i :: 0 <= i < |s| ==> r[i] == s[|s| - 1 - i]
  {
    seq(|s|, i requires 0 <= i < |s| => s[|s| - 1 - i])
  }

  lemma {:induction false} FilterSame<T(!new)>(p: T -> bool, q: T -> bool, s: seq<T>)
    requires forall x :: x in s ==> p(x) == q(x)
    ensures Filter(p, s) == Filter(q, s)
  {
    if s != [] {
      FilterSame(p, q, s[..|s| - 1]);
    }
  }

  function Both<T>(p: T -> bool, q: T -> bool): T -> bool {
    x => p(x) && q(x)
  }

  lemma {:induction false} FilterTwice<T(!new)>(p: T -> bool, q: T -> bool, s: seq<T>)
    ensures Filter(q, Filter(p, s)) == Filter(Both(p, q), s)
  {
    if s != [] {
      FilterTwice(p, q, s[..|s| - 1]);
      var front := Filter(p, s[..|s| - 1]);
      var last := s[|s| - 1];
      if p(last) {
        assert (front + [last])[..|front + [last]| - 1] == front;
      } else {
        assert front + [] == front;
      }
    }
  }

  lemma FilterLast<T(!new)>(p: T -> bool, s: seq<T>, last: T)
    ensures Filter(p, s + [last]) == Filter(p, s) + if p(last) then [last] else []
  {
    assert (s + [last])[..|s|] == s;
  }

  lemma {:induction false} FilterAppend<T(!new)>(p: T -> bool, a: seq<T>, b: seq<T>)
    ensures Filter(p, a + b) == Filter(p, a) + Filter(p, b)
  {
    if b == [] {
      assert a + b == a;
    } else {
      hide *;
      var front, last := b[..|b| - 1], b[|b| - 1];
      FrontAndLast(b);
      Assoc(a, front, [last]);
      FilterAppend(p, a, front);
      FilterLast(p, a + front, last);
      FilterLast(p, front, last);
      Assoc(Filter(p, a), Filter(p, front), if p(last) then [last] else []);
    }
  }

  lemma ReverseLast<T>(s: seq<T>, last: seq<T>)
    requires |last| <= 1
    ensures Reverse(s + last) == last + Reverse(s)
  {
  }

  function Kept<T>(p: T -> bool, x: T): seq<T> {
    if p(x) then [x] else []
  }

  lemma FilterOne<T(!new)>(p: T -> bool, x: T)
    ensures Filter(p, [x]) == Kept(p, x)
  {
    assert [x][..0] == [];
  }

  lemma {:induction false} FilterReversed<T(!new)>(p: T -> bool, s: seq<T>)
    ensures Filter(p, Reverse(s)) == Reverse(Filter(p, s))
  {
    if s != [] {
      var front, last := s[..|s| - 1], s[|s| - 1];
      assert |Kept(p, last)| <= 1;
      hide *;
      FrontAndLast(s);
      ReverseLast(front, [last]);
      FilterReversed(p, front);
      FilterOne(p, last);
      FilterAppend(p, [last], Reverse(front));
      FilterAppend(p, front, [last]);
      ReverseLast(Filter(p, front), Kept(p, last));
    }
  }

  // Filtering drops nothing exactly when it keeps the length.
  lemma {:induction false} FilterAll<T(!new)>(p: T -> bool, s: seq<T>)
    ensures |Filter(p, s)| <= |s|
    ensures |Filter(p, s)| == |s| <==> forall i :: 0 <= i < |s| ==> p(s[i])
  {
    if s != [] {
      var front, last := s[..|s| - 1], s[|s| - 1];
      FilterAll(p, front);
      FrontAndLast(s);
      FilterLast(p, front, last);
      hide *;
      assert (forall i :: 0 <= i < |s| ==> p(s[i])) <==> (forall i :: 0 <= i < |front| ==> p(front[i])) && p(last);
    }
  }

  lemma MultipleOf(d: int, m: int)
    requires m >= 0
    ensures d >= 1 ==> d * m >= m
    ensures d <= -1 ==> d * m <= -m
  {
    if d >= 1 {
      assert (d - 1) * m + m == d * m;
    } else if d <= -1 {
      assert (-d - 1) * m == -(d * m) - m;
    }
  }
}
