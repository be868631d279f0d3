// Case-insensitive search that reports offsets in the original text.
module Search {
  import opened Common

  // Full case folding (section 3.13 of the Unicode Standard): one or more characters for each character.
  type Folding = f: char -> string | forall c :: f(c) != ""
    witness ((c: char) => [c])

  function Folded(f: Folding, s: string): string {
    if s == "" then "" else Folded(f, s[..|s| - 1]) + f(s[|s| - 1])
  }

  // For each character of the folded text, the source offset it came from.
  function Offsets(f: Folding, s: string): seq<int> {
    if s == "" then [] else Offsets(f, s[..|s| - 1]) + seq(|f(s[|s| - 1])|, i => |s| - 1)
  }

  // Where the folding of source character `k` begins.
  function Start(f: Folding, s: string, k: nat): nat
    requires k <= |s|
  {
    |Folded(f, s[..k])|
  }

  // A folded match begins inside the folding of source character `k` and ends by source offset `bound`.
  ghost predicate MatchBegins(f: Folding, s: string, needle: string, k: int, bound: nat)
    requires bound <= |s|
  {
    0 <= k < |s| && exists p :: MatchAt(f, s, needle, k, bound, p)
  }

  predicate MatchAt(f: Folding, s: string, needle: string, k: nat, bound: nat, p: int)
    requires bound <= |s| && k < |s|
  {
    Start(f, s, k) <= p < Start(f, s, k + 1) && p + |needle| <= Start(f, s, bound) && OccursAt(Folded(f, s), needle, p)
  }

  lemma FoldNext(f: Folding, s: string, n: nat)
    requires n < |s|
    ensures Folded(f, s[..n + 1]) == Folded(f, s[..n]) + f(s[n])
    ensures Offsets(f, s[..n + 1]) == Offsets(f, s[..n]) + seq(|f(s[n])|, i => n)
    ensures Start(f, s, n + 1) == Start(f, s, n) + |f(s[n])| > Start(f, s, n)
  {
    assert s[..n + 1][..n] == s[..n];
    assert f(s[n]) != "";
  }

  lemma {:induction false} StartsAscend(f: Folding, s: string, i: nat, j: nat)
    requires i <= j <= |s|
    ensures j - i <= Start(f, s, j) - Start(f, s, i)
    ensures Folded(f, s[..i]) <= Folded(f, s[..j])
  {
    if i < j {
      FoldNext(f, s, j - 1);
      StartsAscend(f, s, i, j - 1);
    }
  }

  predicate Tells(f: Folding, s: string, offsets: seq<int>, p: nat)
    requires p < |offsets|
  {
    0 <= offsets[p] < |s| && Start(f, s, offsets[p]) <= p < Start(f, s, offsets[p] + 1)
  }

  // The table entry at p names the character whose folding holds p.
  lemma {:induction false} OffsetsTell(f: Folding, s: string, n: nat)
    requires n <= |s|
    ensures var offsets := Offsets(f, s[..n]);
      |offsets| == Start(f, s, n) && forall p :: 0 <= p < |offsets| ==> Tells(f, s, offsets, p)
  {
    if n > 0 {
      OffsetsTell(f, s, n - 1);
      FoldNext(f, s, n - 1);
      var before, offsets := Offsets(f, s[..n - 1]), Offsets(f, s[..n]);
      forall p | 0 <= p < |offsets|
        ensures Tells(f, s, offsets, p)
      {
        if p < |before| {
          assert Tells(f, s, before, p) && offsets[p] == before[p];
        }
      }
    }
  }

  // next((i for i, offset in enumerate(offsets) if offset >= bound), len(offsets))
  function FirstAtLeast(offsets: seq<int>, bound: int): (r: nat)
    ensures r <= |offsets|
    ensures forall i :: 0 <= i < r ==> offsets[i] < bound
    ensures r < |offsets| ==> offsets[r] >= bound
  {
    if offsets == [] || offsets[0] >= bound then 0
    else
      var rest := FirstAtLeast(offsets[1..], bound);
      assert forall i :: 0 < i < |offsets| ==> offsets[i] == offsets[1..][i - 1];
      1 + rest
  }

  lemma FirstIsStart(f: Folding, s: string, bound: nat)
    ensures FirstAtLeast(Offsets(f, s), bound) == Start(f, s, Min(bound, |s|))
  {
    hide Offsets, Start;
    assert s[..|s|] == s;
    OffsetsTell(f, s, |s|);
    var offsets := Offsets(f, s);
    var k := Min(bound, |s|);
    var first := FirstAtLeast(offsets, bound);
    StartsAscend(f, s, k, |s|);
    if first < Start(f, s, k) {
      assert Tells(f, s, offsets, first);
      StartsAscend(f, s, k, offsets[first]);
    } else if first > Start(f, s, k) {
      var p := Start(f, s, k);
      assert Tells(f, s, offsets, p);
      StartsAscend(f, s, offsets[p] + 1, k);
    }
  }

  // What a search promises. Forward: the least offset above `last` where a match begins. In reverse: the
  // greatest offset of a match that ends by `last`. -1 when there is none.
  ghost predicate Found(f: Folding, s: string, needle: string, last: int, reverse: bool, r: int) {
    && (r == -1 || MatchBegins(f, s, needle, r, Bound(s, last, reverse)))
    && (r == -1 || reverse || r > last)
    && (forall k :: Better(last, reverse, r, k) ==> !MatchBegins(f, s, needle, k, Bound(s, last, reverse)))
  }

  function Bound(s: string, last: int, reverse: bool): nat {
    if reverse && last >= 0 then Min(last, |s|) else |s|
  }

  // An offset that the search would prefer to r.
  predicate Better(last: int, reverse: bool, r: int, k: int) {
    if reverse then r < k else last < k && (r < 0 || k < r)
  }

  // `pos` lies in the folding of character `r`.
  predicate Holds(f: Folding, s: string, pos: int, r: int) {
    0 <= r < |s| && Start(f, s, r) <= pos < Start(f, s, r + 1)
  }

  lemma ForwardFound(f: Folding, s: string, needle: string, last: int, pos: int, r: int)
    requires needle != ""
    requires pos == Find(Folded(f, s), needle, Start(f, s, Min(Max(0, last + 1), |s|)))
    requires if pos < 0 then r == -1 else Holds(f, s, pos, r)
    ensures Found(f, s, needle, last, false, r)
  {
    hide Start, Folded, Find;
    WholeText(f, s);
    var from := Min(Max(0, last + 1), |s|);
    if pos >= 0 {
      assert MatchAt(f, s, needle, r, |s|, pos);
      StartsAscend(f, s, Min(r + 1, from), from);
    }
    forall k | Better(last, false, r, k)
      ensures !MatchBegins(f, s, needle, k, |s|)
    {
      forall p | 0 <= k < |s| && MatchAt(f, s, needle, k, |s|, p)
        ensures false
      {
        StartsAscend(f, s, from, k);
        StartsAscend(f, s, k + 1, Max(k + 1, r));
      }
    }
  }

  lemma ReverseFound(f: Folding, s: string, needle: string, last: int, pos: int, r: int)
    requires needle != ""
    requires Start(f, s, Bound(s, last, true)) <= |Folded(f, s)|
    requires pos == RFind(Folded(f, s), needle, Start(f, s, Bound(s, last, true)))
    requires if pos < 0 then r == -1 else Holds(f, s, pos, r)
    ensures Found(f, s, needle, last, true, r)
  {
    hide Start, Folded, RFind;
    var bound := Bound(s, last, true);
    if pos >= 0 {
      assert MatchAt(f, s, needle, r, bound, pos);
    }
    forall k | Better(last, true, r, k)
      ensures !MatchBegins(f, s, needle, k, bound)
    {
      forall p | 0 <= k < |s| && MatchAt(f, s, needle, k, bound, p)
        ensures false
      {
        if pos >= 0 {
          StartsAscend(f, s, r + 1, k);
        }
      }
    }
  }

  lemma WholeText(f: Folding, s: string)
    ensures Start(f, s, |s|) == |Folded(f, s)|
  {
    assert s[..|s|] == s;
  }

  // When folding kept the length, every character folded to one.
  lemma OneToOne(f: Folding, s: string, k: nat)
    requires |Folded(f, s)| == |s| && k <= |s|
    ensures Start(f, s, k) == k
  {
    WholeText(f, s);
    StartsAscend(f, s, 0, k);
    StartsAscend(f, s, k, |s|);
  }

  method FindCasefold(f: Folding, source: string, query: string, last: int, reverse: bool) returns (r: int)
    ensures Folded(f, query) == "" ==> r == -1
    ensures Folded(f, query) != "" ==> Found(f, source, Folded(f, query), last, reverse, r)
  {
    hide *;
    var needle := Folded(f, query);
    if needle == "" {
      return -1;
    }
    var folded := Folded(f, source);
    if |folded| == |source| {
      r := FindDirect(f, source, needle, last, reverse);
    } else {
      r := FindByTable(f, source, needle, last, reverse);
    }
  }

  // Offsets in the folded text are offsets in the source.
  method FindDirect(f: Folding, source: string, needle: string, last: int, reverse: bool) returns (r: int)
    requires needle != "" && |Folded(f, source)| == |source|
    ensures Found(f, source, needle, last, reverse, r)
  {
    hide Start, Folded, Found, Find, RFind;
    var folded := Folded(f, source);
    if reverse {
      var limit := if last < 0 then |folded| else Min(|folded|, last);
      r := RFind(folded, needle, limit);
      OneToOne(f, source, limit);
      HoldsItself(f, source, r);
      ReverseFound(f, source, needle, last, r, r);
    } else {
      var start := if last < 0 then 0 else last + 1;
      r := Find(folded, needle, start);
      OneToOne(f, source, Min(start, |source|));
      FindPastEnd(folded, needle, start);
      FoundInside(folded, needle, start);
      HoldsItself(f, source, r);
      ForwardFound(f, source, needle, last, r, r);
    }
  }

  lemma FoundInside(s: string, sub: string, from: nat)
    requires sub != ""
    ensures Find(s, sub, from) < |s|
  {
    hide Find;
    assert Find(s, sub, from) >= 0 ==> OccursAt(s, sub, Find(s, sub, from));
  }

  lemma HoldsItself(f: Folding, s: string, r: int)
    requires |Folded(f, s)| == |s| && r < |s|
    ensures r >= 0 ==> Holds(f, s, r, r)
  {
    if r >= 0 {
      OneToOne(f, s, r);
      OneToOne(f, s, r + 1);
    }
  }

  lemma FindPastEnd(s: string, sub: string, from: nat)
    requires sub != ""
    ensures Find(s, sub, from) == Find(s, sub, Min(from, |s|))
  {
  }

  method FindByTable(f: Folding, source: string, needle: string, last: int, reverse: bool) returns (r: int)
    requires needle != ""
    ensures Found(f, source, needle, last, reverse, r)
  {
    hide Start, Folded, Offsets, Found, Find, RFind, FirstAtLeast;
    var folded, offsets := BuildTable(f, source);
    WholeText(f, source);
    assert source[..|source|] == source;
    OffsetsTell(f, source, |source|);
    var pos;
    if reverse {
      var limit := if last < 0 then |folded| else FirstAtLeast(offsets, last);
      if last >= 0 {
        FirstIsStart(f, source, last);
      }
      pos := RFind(folded, needle, limit);
    } else {
      var start := if last < 0 then 0 else FirstAtLeast(offsets, last + 1);
      if last >= 0 {
        FirstIsStart(f, source, last + 1);
      } else {
        StartsAtZero(f, source);
      }
      pos := Find(folded, needle, start);
    }
    r := if pos >= 0 then offsets[pos] else -1;
    if pos >= 0 {
      assert Tells(f, source, offsets, pos);
    }
    if reverse {
      ReverseFound(f, source, needle, last, pos, r);
    } else {
      ForwardFound(f, source, needle, last, pos, r);
    }
  }

  lemma StartsAtZero(f: Folding, s: string)
    ensures Start(f, s, 0) == 0
  {
  }

  method BuildTable(f: Folding, source: string) returns (folded: string, offsets: seq<int>)
    ensures folded == Folded(f, source) && offsets == Offsets(f, source)
  {
    folded, offsets := "", [];
    for n := 0 to |source|
      invariant folded == Folded(f, source[..n]) && offsets == Offsets(f, source[..n])
    {
      FoldNext(f, source, n);
      var piece := f(source[n]);
      folded := folded + piece;
      offsets := offsets + seq(|piece|, i => n);
    }
    assert source[..|source|] == source;
  }

  // The promise leaves no choice, so both paths give the same answer.
  lemma FoundIsUnique(f: Folding, s: string, needle: string, last: int, reverse: bool, a: int, b: int)
    requires Found(f, s, needle, last, reverse, a) && Found(f, s, needle, last, reverse, b)
    ensures a == b
  {
    assert MatchBegins(f, s, needle, a, Bound(s, last, reverse)) ==> a >= 0;
    assert MatchBegins(f, s, needle, b, Bound(s, last, reverse)) ==> b >= 0;
    assert a != b ==> Better(last, reverse, a, b) || Better(last, reverse, b, a);
  }

  // A match of the text before `bound` alone, and conversely.
  lemma MatchInPrefix(f: Folding, s: string, needle: string, k: nat, bound: nat, p: int)
    requires k < bound <= |s|
    ensures MatchAt(f, s, needle, k, bound, p) <==> MatchAt(f, s[..bound], needle, k, bound, p)
  {
    hide Folded;
    WholeText(f, s);
    assert s[..bound][..k] == s[..k] && s[..bound][..k + 1] == s[..k + 1] && s[..bound][..bound] == s[..bound];
    StartsAscend(f, s, bound, |s|);
    assert s[..|s|] == s;
  }

  // Asking again from each answer visits every offset where a match begins, once each, in order, and ends.
  method SearchAll(f: Folding, source: string, query: string) returns (hits: seq<int>)
    requires Folded(f, query) != ""
    ensures forall i, j :: 0 <= i < j < |hits| ==> hits[i] < hits[j]
    ensures forall k :: k in hits <==> MatchBegins(f, source, Folded(f, query), k, |source|)
  {
    hide Folded, MatchBegins;
    var needle := Folded(f, query);
    hits := [];
    var last := -1;
    NoMatchBelowZero(f, source, needle);
    while true
      invariant last == -1 || 0 <= last < |source|
      invariant forall i, j :: 0 <= i < j < |hits| ==> hits[i] < hits[j]
      invariant forall i :: 0 <= i < |hits| ==> hits[i] <= last && MatchBegins(f, source, needle, hits[i], |source|)
      invariant forall k :: k <= last && MatchBegins(f, source, needle, k, |source|) ==> k in hits
      decreases |source| - last
    {
      var position := FindCasefold(f, source, query, last, false);
      if position < 0 {
        NoMoreMatches(f, source, needle, last, position);
        return;
      }
      NextMatch(f, source, needle, last, position);
      assert forall k :: k in hits ==> k in hits + [position];
      hits := hits + [position];
      last := position;
    }
  }

  lemma NoMatchBelowZero(f: Folding, s: string, needle: string)
    ensures forall k :: MatchBegins(f, s, needle, k, |s|) ==> k >= 0
  {
  }

  lemma NoMoreMatches(f: Folding, s: string, needle: string, last: int, r: int)
    requires Found(f, s, needle, last, false, r) && r < 0
    ensures forall k :: MatchBegins(f, s, needle, k, |s|) ==> k <= last
  {
    forall k | MatchBegins(f, s, needle, k, |s|)
      ensures k <= last
    {
      assert k > last ==> Better(last, false, r, k);
    }
  }

  lemma NextMatch(f: Folding, s: string, needle: string, last: int, r: int)
    requires Found(f, s, needle, last, false, r) && r >= 0
    ensures last < r < |s| && MatchBegins(f, s, needle, r, |s|)
    ensures forall k :: MatchBegins(f, s, needle, k, |s|) && k > last ==> r <= k
  {
    forall k | MatchBegins(f, s, needle, k, |s|) && k > last
      ensures r <= k
    {
      assert k < r ==> Better(last, false, r, k);
    }
  }
}
