// Bracketed paste: an incremental decoder over arbitrary byte chunks, and the
// meaning of the whole byte stream that it must agree with.
module Paste {
  import opened Common
  import Utf8

  // The two control sequences around a paste. The proofs use only that neither is empty.
  datatype MarkerPair = MarkerPair(start: seq<byte>, end: seq<byte>)

  type Markers = m: MarkerPair | m.start != [] && m.end != [] witness MarkerPair([0], [0])

  const PASTE: Markers :=
    MarkerPair([0x1B, 0x5B, 0x32, 0x30, 0x30, 0x7E], [0x1B, 0x5B, 0x32, 0x30, 0x31, 0x7E])

  // The texts of the source's error messages, as data.
  datatype PasteError = NoError | Incomplete | Oversize(received: nat, limit: int) | InvalidUtf8

  datatype Verdict = Waiting | Accepted(text: string) | Refused(error: PasteError)

  // ----- Newlines -----

  predicate LoneCr(text: string, i: nat)
    requires i < |text|
  {
    text[i] == '\r' && !(i + 1 < |text| && text[i + 1] == '\n')
  }

  function NormalizeNewlines(text: string): (r: string)
    ensures |r| == |text|
  {
    if '\r' in text
    then seq(|text|, i requires 0 <= i < |text| => if LoneCr(text, i) then '\n' else text[i])
    else text
  }

  // Every bare CR, and nothing else, becomes LF; so no bare CR is left and a second pass changes nothing.
  lemma NormalizeConvertsExactlyLoneCrs(text: string)
    ensures forall i :: 0 <= i < |text| ==>
      NormalizeNewlines(text)[i] ==
        if text[i] == '\r' && (i + 1 == |text| || text[i + 1] != '\n') then '\n' else text[i]
    ensures forall i :: 0 <= i < |text| && NormalizeNewlines(text)[i] == '\r' ==>
      i + 1 < |text| && NormalizeNewlines(text)[i + 1] == '\n'
    ensures NormalizeNewlines(NormalizeNewlines(text)) == NormalizeNewlines(text)
  {
    var r := NormalizeNewlines(text);
    assert forall i :: 0 <= i < |text| && text[i] == '\r' ==> text[i] in text;
    forall i | 0 <= i < |text| ensures !LoneCr(r, i) {
      if r[i] == '\r' {
        assert !LoneCr(text, i) && r[i + 1] == '\n';
      }
    }
  }

  // ----- The meaning of a byte stream -----

  // What a terminal sent after the first START marker, if there is one.
  function Body(m: Markers, stream: seq<byte>): (body: seq<byte>)
  {
    var p := Find(stream, m.start, 0);
    if p < 0 then [] else stream[p + |m.start|..]
  }

  // Find START, find the first END after it, take what is between.
  function Meaning(m: Markers, limit: int, interrupted: bool, stream: seq<byte>): Verdict {
    if Find(stream, m.start, 0) < 0 then Waiting
    else
      var end := Find(Body(m, stream), m.end, 0);
      if end < 0 then Waiting
      else if interrupted then Refused(Incomplete)
      else if end > limit then Refused(Oversize(end, limit))
      else match Utf8.Decode(Body(m, stream)[..end])
        case Some(text) => Accepted(NormalizeNewlines(text))
        case None => Refused(InvalidUtf8)
  }

  function Tail(s: seq<byte>, n: nat): seq<byte> {
    if |s| <= n then s else s[|s| - n..]
  }

  // The last `n` bytes could be the beginning of END.
  predicate EndsInPartial(end: seq<byte>, s: seq<byte>, n: nat) {
    n <= |s| && n <= |end| && s[|s| - n..] == end[..n]
  }

  // No extension of `body` can put the first END within `limit` bytes.
  ghost predicate PastLimit(end: seq<byte>, limit: int, body: seq<byte>) {
    forall n :: EndsInPartial(end, body, n) ==> |body| - n > limit
  }

  lemma PastLimitGrows(end: seq<byte>, limit: int, body: seq<byte>, whole: seq<byte>)
    requires PastLimit(end, limit, body) && body <= whole
    ensures PastLimit(end, limit, whole)
  {
    assert EndsInPartial(end, body, 0);
    forall n: nat | EndsInPartial(end, whole, n) ensures |whole| - n > limit {
      var m := n - (|whole| - |body|);
      if m >= 0 {
        assert body[|body| - m..] == whole[|whole| - n..][..m];
        assert EndsInPartial(end, body, m);
      }
    }
  }

  lemma PastLimitMeansOversize(end: seq<byte>, limit: int, body: seq<byte>, whole: seq<byte>)
    requires PastLimit(end, limit, body) && Find(body, end, 0) < 0 && body <= whole
    ensures var e := Find(whole, end, 0); e < 0 || e > limit
  {
    var more := whole[|body|..];
    assert whole == body + more;
    var e := Find(whole, end, 0);
    assert EndsInPartial(end, body, 0);
    if 0 <= e <= |body| {
      if e + |end| <= |body| {
        OccursInPrefix(body, more, end, e);
      } else {
        assert body[e..] == whole[e..e + |end|][..|body| - e];
        assert EndsInPartial(end, body, |body| - e);
      }
    }
  }

  // The longest proper prefix of END that the buffer ends with.
  ghost predicate IsOverlap(end: seq<byte>, pending: seq<byte>, n: nat) {
    && n < |end| && EndsInPartial(end, pending, n)
    && forall m :: n < m < |end| ==> !EndsInPartial(end, pending, m)
  }

  lemma TooMuchIsPastLimit(end: seq<byte>, limit: int, body: seq<byte>, overlap: nat)
    requires IsOverlap(end, body, overlap) && Find(body, end, 0) < 0
    requires |body| - overlap > limit
    ensures PastLimit(end, limit, body)
  {
    if |end| <= |body| {
      assert !OccursAt(body, end, |body| - |end|);
      assert body[|body| - |end|..] == body[|body| - |end|..|body| - |end| + |end|];
    }
  }

  // What the buffer and the count of dropped bytes say about a body without END.
  ghost predicate Holds(end: seq<byte>, limit: int, body: seq<byte>,
                        pending: seq<byte>, dropped: nat, discarding: bool, interrupted: bool) {
    && dropped <= |body| && pending == body[dropped..]
    && if discarding then Min(|body|, |end| - 1) <= |pending| && (!interrupted ==> PastLimit(end, limit, body))
       else dropped == 0 && |pending| <= limit + |end| - 1
  }

  lemma KeepingTailHolds(end: seq<byte>, limit: int, body: seq<byte>, dropped: nat, n: nat, interrupted: bool)
    requires end != [] && n == |end| - 1 && dropped <= |body| && Min(|body|, n) <= |body| - dropped
    requires !interrupted ==> PastLimit(end, limit, body)
    ensures var t := Tail(body[dropped..], n);
      Holds(end, limit, body, t, |body| - |t|, true, interrupted)
  {
    var rest := body[dropped..];
    TailIsDrop(rest, n);
    hide PastLimit, Tail;
    DropDrop(body, dropped, |rest| - |Tail(rest, n)|);
  }

  lemma TailIsDrop(s: seq<byte>, n: nat)
    ensures |Tail(s, n)| == Min(|s|, n) && Tail(s, n) == s[|s| - |Tail(s, n)|..]
  {
  }

  // An unfinished body either fits with room for a partial END, or is cut to its tail.
  lemma OpenHolds(end: seq<byte>, limit: int, body: seq<byte>, pending: seq<byte>, overlap: nat)
    requires end != [] && Find(body, end, 0) < 0 && pending == body[0..] && IsOverlap(end, pending, overlap)
    ensures var t := Tail(pending, |end| - 1);
      if |pending| - overlap > limit then Holds(end, limit, body, t, |body| - |t|, true, false)
      else Holds(end, limit, body, pending, 0, false, false)
  {
    assert body[0..] == body;
    if |pending| - overlap > limit {
      TooMuchIsPastLimit(end, limit, body, overlap);
      KeepingTailHolds(end, limit, body, 0, |end| - 1, false);
    }
  }

  // Resuming just before the part already scanned never skips the first END of the body.
  lemma ResumedSearch(end: seq<byte>, body: seq<byte>, scanned: seq<byte>, dropped: nat, scanFrom: nat)
    requires end != [] && scanned <= body && Find(scanned, end, 0) < 0
    requires dropped + scanFrom == |scanned| && Min(|scanned|, |end| - 1) <= scanFrom
    ensures var r := Find(body[dropped..], end, Max(0, scanFrom - |end| + 1));
            Find(body, end, 0) == if r < 0 then -1 else dropped + r
  {
    hide Find;
    var from := Max(0, scanFrom - |end| + 1);
    assert body == scanned + body[|scanned|..];
    forall i | 0 <= i < dropped + from ensures !OccursAt(body, end, i) {
      OccursInPrefix(scanned, body[|scanned|..], end, i);
    }
    FindShifted(body, dropped, end);
    forall i | 0 <= i < from ensures !OccursAt(body[dropped..], end, i) {
      OccursInTail(body, dropped, end, dropped + i);
    }
    FindFromLater(body[dropped..], end, from);
  }

  lemma NothingScanned(m: Markers, stream: seq<byte>)
    requires Find(stream, m.start, 0) < 0
    ensures Body(m, stream) == []
  {
  }

  lemma NoStartWaits(m: Markers, limit: int, interrupted: bool, stream: seq<byte>)
    ensures Find(stream, m.start, 0) < 0 ==> Meaning(m, limit, interrupted, stream).Waiting?
    ensures Find(stream, m.start, 0) < 0 ==> Body(m, stream) == []
  {
  }

  // ----- The decoder -----

  class BracketedPaste {
    const markers: Markers
    const maxBytes: int
    var pending: seq<byte>
    var active: bool
    var discarding: bool
    var interrupted: bool
    var done: bool
    var scanFrom: nat
    var receivedBytes: nat
    var error: PasteError
    ghost var stream: seq<byte>  // every byte fed since the last reset

    ghost predicate Valid()
      reads this
    {
      && (interrupted ==> discarding)
      && (active <==> Find(stream, markers.start, 0) >= 0)
      && (if active then ValidActive(Body(markers, stream)) else ValidIdle())
    }

    ghost predicate ValidIdle()
      reads this
    {
      && pending == Tail(stream, |markers.start| - 1)
      && scanFrom == 0 && receivedBytes == 0
      && (discarding ==> interrupted)
    }

    ghost predicate ValidActive(body: seq<byte>)
      reads this
    {
      && Find(body, markers.end, 0) < 0
      && scanFrom == |pending|
      && Holds(markers.end, maxBytes, body, pending, receivedBytes, discarding, interrupted)
    }

    ghost predicate Clean()
      reads this
    {
      pending == [] && !active && !discarding && !interrupted && !done && scanFrom == 0 && receivedBytes == 0
      && error == NoError && stream == []
    }

    constructor (markers: Markers, maxBytes: int)
      ensures this.markers == markers && this.maxBytes == maxBytes && Clean() && Valid()
    {
      this.markers, this.maxBytes := markers, maxBytes;
      pending, active, discarding, interrupted, done := [], false, false, false, false;
      scanFrom, receivedBytes, error := 0, 0, NoError;
      stream := [];
    }

    // The property `waiting`.
    predicate IsWaiting()
      reads this
    {
      pending != [] || active
    }

    // A decoder is waiting exactly when it was given bytes since its last answer.
    lemma WaitingMeansUnanswered()
      requires Valid() && |markers.start| > 1
      ensures IsWaiting() <==> stream != []
    {
      if stream == [] {
        assert Find(stream, markers.start, 0) < 0;
      }
    }

    method Reset()
      modifies this
      ensures Clean() && Valid()
    {
      pending, active, discarding, interrupted, done := [], false, false, false, false;
      scanFrom, receivedBytes, error := 0, 0, NoError;
      stream := [];
    }

    // Quarantine what is unfinished until END.
    method Interrupt()
      requires Valid()
      modifies this
      ensures Valid() && discarding && interrupted && error == Incomplete
      ensures unchanged(`pending, `active, `done, `scanFrom, `receivedBytes, `stream)
    {
      discarding := true;
      interrupted := true;
      error := Incomplete;
    }

    // The loop that looks for a partial END at the end of the buffer.
    method Overlap() returns (overlap: nat)
      ensures IsOverlap(markers.end, pending, overlap)
    {
      overlap := 0;
      var last := Min(|markers.end| - 1, |pending|);
      for count := 1 to last + 1
        invariant overlap < count && EndsInPartial(markers.end, pending, overlap)
        invariant forall m :: overlap < m < count ==> !EndsInPartial(markers.end, pending, m)
      {
        if EndsInPartial(markers.end, pending, count) {
          overlap := count;
        }
      }
    }

    // One chunk: the decoder answers exactly when the whole stream first has a meaning, with that meaning.
    method Feed(chunk: seq<byte>) returns (r: Option<string>)
      requires Valid()
      modifies this
      ensures Valid()
      ensures FedTo(Meaning(markers, maxBytes, old(interrupted), old(stream) + chunk), r)
      ensures Meaning(markers, maxBytes, old(interrupted), old(stream) + chunk).Waiting? ==>
        && stream == old(stream) + chunk && interrupted == old(interrupted) && done == old(done)
        && error == (if !old(discarding) && discarding then NoError else old(error))
      ensures |pending| <= if !active then |markers.start| - 1 else if discarding then |markers.end| - 1
                           else maxBytes + |markers.end| - 1
    {
      ghost var scanned, whole := Body(markers, stream), stream + chunk;
      NoStartWaits(markers, maxBytes, interrupted, whole);
      if !active {
        NothingScanned(markers, stream);
        var found := Locate(chunk);
        if !found {
          return None;
        }
        JustFound(whole);
      } else {
        Extend(chunk);
      }
      hide Searching, Meaning, Valid, FedTo;
      r := FeedActive(scanned, whole);
    }

    lemma JustFound(whole: seq<byte>)
      requires scanFrom == receivedBytes == 0 && (interrupted <==> discarding)
      requires active && Find(whole, markers.start, 0) >= 0 && pending == Body(markers, whole)[receivedBytes..]
      ensures Searching([], whole)
    {
    }

    method Extend(chunk: seq<byte>)
      requires Valid() && active
      modifies this`pending
      ensures Searching(Body(markers, stream), stream + chunk)
    {
      GrowBody(markers, stream, chunk, receivedBytes);
      hide Find, Body, PastLimit;
      pending := pending + chunk;
    }

    // Outside a paste: look for START, keep what could be its beginning.
    method Locate(chunk: seq<byte>) returns (found: bool)
      requires Valid() && !active
      modifies this`pending, this`active, this`stream
      ensures found <==> Find(old(stream) + chunk, markers.start, 0) >= 0
      ensures if found then active && stream == old(stream) && pending == Body(markers, old(stream) + chunk)[receivedBytes..]
              else Valid() && !active && stream == old(stream) + chunk && |pending| < |markers.start|
    {
      ghost var whole := stream + chunk;
      hide Find, Tail, Body;
      BodyFromTail(markers, stream, chunk, pending);
      TailOfTail(stream, chunk, |markers.start| - 1);
      TailIsShort(pending + chunk, |markers.start| - 1);
      pending := pending + chunk;
      var start := Find(pending, markers.start, 0);
      found := start >= 0;
      if found {
        pending := pending[start + |markers.start|..];
        active := true;
      } else {
        pending := Tail(pending, |markers.start| - 1);
        stream := whole;
      }
    }

    // How a verdict shows in the result and the fields.
    ghost predicate FedTo(verdict: Verdict, r: Option<string>)
      reads this
    {
      match verdict
      case Waiting => r == None
      case Accepted(text) => r == Some(text) && error == NoError && Finished()
      case Refused(e) => r == None && e != NoError && error == e && Finished()
    }

    ghost predicate Finished()
      reads this
    {
      done && pending == [] && stream == [] && !active && !discarding && !interrupted
    }

    // The buffer is the end of the body; `scanned` is the part searched for END before.
    ghost predicate Searching(scanned: seq<byte>, whole: seq<byte>)
      reads this
    {
      var body := Body(markers, whole);
      && active && Find(whole, markers.start, 0) >= 0
      && scanned <= body && Find(scanned, markers.end, 0) < 0
      && receivedBytes + scanFrom == |scanned| && receivedBytes + |pending| == |body|
      && pending == body[receivedBytes..]
      && (interrupted ==> discarding)
      && Min(|scanned|, |markers.end| - 1) <= scanFrom
      && (if discarding then !interrupted ==> PastLimit(markers.end, maxBytes, scanned) else receivedBytes == 0)
    }

    // The rest of `feed`, once inside a paste.
    method FeedActive(ghost scanned: seq<byte>, ghost whole: seq<byte>) returns (r: Option<string>)
      requires Searching(scanned, whole)
      modifies this
      ensures Valid()
      ensures FedTo(Meaning(markers, maxBytes, old(interrupted), whole), r)
      ensures Meaning(markers, maxBytes, old(interrupted), whole).Waiting? ==>
        && stream == whole && interrupted == old(interrupted) && done == old(done)
        && error == (if !old(discarding) && discarding then NoError else old(error))
      ensures |pending| <= if !active then |markers.start| - 1 else if discarding then |markers.end| - 1
                           else maxBytes + |markers.end| - 1
    {
      var searchFrom := Max(0, scanFrom - |markers.end| + 1);
      var end := Find(pending, markers.end, searchFrom);
      ResumedSearch(markers.end, Body(markers, whole), scanned, receivedBytes, scanFrom);
      assert Find(whole, markers.start, 0) >= 0 && (interrupted ==> discarding);
      assert !discarding ==> receivedBytes == 0 && pending == Body(markers, whole)[0..] == Body(markers, whole);
      EndInside(markers.end, pending, searchFrom);
      hide Searching, Find, Body, Valid, Holds;
      if discarding {
        FeedDiscarding(end, scanned, whole);
        return None;
      }
      if end < 0 {
        StillOpen(scanned, whole);
        return None;
      }
      r := Complete(end, whole);
    }

    method FeedDiscarding(end: int, ghost scanned: seq<byte>, ghost whole: seq<byte>)
      requires Searching(scanned, whole) && discarding
      requires Find(Body(markers, whole), markers.end, 0) == if end < 0 then -1 else receivedBytes + end
      modifies this
      ensures Valid()
      ensures FedTo(Meaning(markers, maxBytes, old(interrupted), whole), None)
      ensures Meaning(markers, maxBytes, old(interrupted), whole).Waiting? ==>
        && stream == whole && interrupted == old(interrupted) && done == old(done) && error == old(error) && discarding
      ensures |pending| <= if !active then |markers.start| - 1 else if discarding then |markers.end| - 1
                           else maxBytes + |markers.end| - 1
    {
      assert Find(whole, markers.start, 0) >= 0;
      hide Searching, Find, Body, Valid;
      if end >= 0 {
        DiscardDone(end, scanned, whole);
      } else {
        DiscardMore(scanned, whole);
      }
    }

    // Discarding, and END has arrived.
    method DiscardDone(end: nat, ghost scanned: seq<byte>, ghost whole: seq<byte>)
      requires Searching(scanned, whole) && discarding
      requires Find(Body(markers, whole), markers.end, 0) == receivedBytes + end
      modifies this
      ensures Valid() && Finished()
      ensures error == if old(interrupted) then Incomplete else Oversize(old(receivedBytes) + end, maxBytes)
      ensures !old(interrupted) ==> old(receivedBytes) + end > maxBytes
    {
      if !interrupted {
        PastLimitMeansOversize(markers.end, maxBytes, scanned, Body(markers, whole));
      }
      receivedBytes := receivedBytes + end;
      var message := if interrupted then Incomplete else Oversize(receivedBytes, maxBytes);
      Reset();
      error := message;
      done := true;
    }

    // Discarding, and still no END.
    method DiscardMore(ghost scanned: seq<byte>, ghost whole: seq<byte>)
      requires Searching(scanned, whole) && discarding && Find(Body(markers, whole), markers.end, 0) < 0
      modifies this
      ensures Valid() && stream == whole && discarding && active && |pending| < |markers.end|
      ensures interrupted == old(interrupted) && done == old(done) && error == old(error)
    {
      hide Find, Tail, PastLimit, Body;
      if !interrupted {
        PastLimitGrows(markers.end, maxBytes, scanned, Body(markers, whole));
      }
      KeepingTailHolds(markers.end, maxBytes, Body(markers, whole), receivedBytes, |markers.end| - 1, interrupted);
      KeepTail();
      stream := whole;
    }

    method StillOpen(ghost scanned: seq<byte>, ghost whole: seq<byte>)
      requires Searching(scanned, whole) && !discarding && Find(Body(markers, whole), markers.end, 0) < 0
      modifies this
      ensures Valid() && stream == whole && !interrupted && active && done == old(done)
      ensures error == if discarding then NoError else old(error)
      ensures |pending| <= if discarding then |markers.end| - 1 else maxBytes + |markers.end| - 1
    {
      hide Find, Tail, PastLimit, Body;
      ghost var body := Body(markers, whole);
      var overlap := Overlap();
      OpenHolds(markers.end, maxBytes, body, pending, overlap);
      if |pending| - overlap > maxBytes {
        receivedBytes := 0;
        error := NoError;
        discarding := true;
        KeepTail();
      }
      scanFrom := |pending|;
      stream := whole;
    }

    method Complete(end: nat, ghost whole: seq<byte>) returns (r: Option<string>)
      requires active && Find(whole, markers.start, 0) >= 0 && end <= |pending| && pending == Body(markers, whole)
      requires Find(Body(markers, whole), markers.end, 0) == end
      modifies this
      ensures Valid() && FedTo(Meaning(markers, maxBytes, false, whole), r) && Finished()
    {
      var payload := pending[..end];
      var received := |payload|;
      Reset();
      done := true;
      if received > maxBytes {
        error := Oversize(received, maxBytes);
        return None;
      }
      match Utf8.Decode(payload)
      case Some(text) =>
        return Some(NormalizeNewlines(text));
      case None =>
        error := InvalidUtf8;
        return None;
    }

    // Drop all but the bytes that could start an END, counting what is dropped.
    method KeepTail()
      modifies this`pending, this`receivedBytes, this`scanFrom
      ensures pending == Tail(old(pending), |markers.end| - 1) && |pending| < |markers.end|
      ensures receivedBytes == old(receivedBytes) + |old(pending)| - |pending|
      ensures scanFrom == |pending|
    {
      var keep := |markers.end| - 1;
      if |pending| > keep {
        receivedBytes := receivedBytes + (|pending| - keep);
        pending := pending[|pending| - keep..];
      }
      scanFrom := |pending|;
    }
  }

  // A START found in the kept tail plus the new chunk begins the same body as in the whole stream.
  lemma BodyFromTail(m: Markers, stream: seq<byte>, chunk: seq<byte>, tail: seq<byte>)
    requires Find(stream, m.start, 0) < 0 && tail == Tail(stream, |m.start| - 1)
    ensures var buffer := tail + chunk;
      var start := Find(buffer, m.start, 0);
      && (start >= 0 <==> Find(stream + chunk, m.start, 0) >= 0)
      && (start >= 0 ==> buffer[start + |m.start|..] == Body(m, stream + chunk)[0..])
  {
    TailIsDrop(stream, |m.start| - 1);
    hide *;
    BodyFromCut(m, stream, chunk, tail, |stream| - |tail|);
  }

  lemma BodyFromCut(m: Markers, stream: seq<byte>, chunk: seq<byte>, tail: seq<byte>, cut: nat)
    requires Find(stream, m.start, 0) < 0 && cut <= |stream| && Min(|stream|, |m.start| - 1) <= |stream| - cut
    requires tail == stream[cut..]
    ensures var buffer := tail + chunk;
      var start := Find(buffer, m.start, 0);
      && (start >= 0 <==> Find(stream + chunk, m.start, 0) >= 0)
      && (start >= 0 ==> start + |m.start| <= |buffer|)
      && (start >= 0 ==> buffer[start + |m.start|..] == Body(m, stream + chunk)[0..])
  {
    hide *;
    var whole, buffer := stream + chunk, stream[cut..] + chunk;
    FindInTail(stream, chunk, m.start, |stream| - cut);
    StartInside(m, buffer);
    var start := Find(buffer, m.start, 0);
    if start >= 0 {
      BodyBehind(m, whole);
      DropAppend(stream, chunk, cut);
      DropDrop(whole, cut, start + |m.start|);
    }
  }

  lemma BodyBehind(m: Markers, stream: seq<byte>)
    requires Find(stream, m.start, 0) >= 0
    ensures Find(stream, m.start, 0) + |m.start| <= |stream|
    ensures Body(m, stream)[0..] == stream[Find(stream, m.start, 0) + |m.start|..]
  {
    StartInside(m, stream);
    hide Find;
    assert Body(m, stream)[0..] == Body(m, stream);
  }

  lemma EndInside(end: seq<byte>, pending: seq<byte>, from: nat)
    ensures Find(pending, end, from) <= |pending|
  {
    hide Find;
    var p := Find(pending, end, from);
    assert p >= 0 ==> OccursAt(pending, end, p);
  }

  lemma StartInside(m: Markers, buffer: seq<byte>)
    ensures var p := Find(buffer, m.start, 0); p >= 0 ==> p + |m.start| <= |buffer|
  {
    hide Find;
    var p := Find(buffer, m.start, 0);
    assert p >= 0 ==> OccursAt(buffer, m.start, p);
  }

  lemma TailIsShort(s: seq<byte>, n: nat)
    ensures |Tail(s, n)| <= n
  {
  }

  lemma TailOfTail(s: seq<byte>, more: seq<byte>, n: nat)
    ensures Tail(Tail(s, n) + more, n) == Tail(s + more, n)
  {
    assert Tail(s, n) + more == (s + more)[|s| - |Tail(s, n)|..];
  }

  // Once START is found, more bytes only lengthen the body.
  lemma GrowBody(m: Markers, stream: seq<byte>, chunk: seq<byte>, dropped: nat)
    requires Find(stream, m.start, 0) >= 0 && dropped <= |Body(m, stream)|
    ensures Find(stream + chunk, m.start, 0) == Find(stream, m.start, 0)
    ensures Body(m, stream + chunk) == Body(m, stream) + chunk
    ensures Body(m, stream) <= Body(m, stream + chunk)
    ensures Body(m, stream + chunk)[dropped..] == Body(m, stream)[dropped..] + chunk
  {
    BodyGrows(m, stream, chunk);
    hide *;
    DropAppend(Body(m, stream), chunk, dropped);
  }

  lemma BodyGrows(m: Markers, stream: seq<byte>, chunk: seq<byte>)
    requires Find(stream, m.start, 0) >= 0
    ensures Find(stream + chunk, m.start, 0) == Find(stream, m.start, 0)
    ensures Body(m, stream + chunk) == Body(m, stream) + chunk
  {
    FindStays(stream, chunk, m.start);
    hide Find, OccursAt;
    DropAppend(stream, chunk, Find(stream, m.start, 0) + |m.start|);
  }

  // ----- Chunk independence -----

  // What feeding `chunks` one after another must answer: nothing until some prefix of the
  // stream has a meaning, then that meaning, then the decoder starts over.
  function Session(m: Markers, limit: int, stream: seq<byte>, chunks: seq<seq<byte>>): (results: seq<Verdict>)
    ensures |results| == |chunks|
    decreases |chunks|
  {
    if chunks == [] then []
    else
      var verdict := Meaning(m, limit, false, stream + chunks[0]);
      [verdict] + Session(m, limit, if verdict.Waiting? then stream + chunks[0] else [], chunks[1..])
  }

  // How one verdict shows in the result, `done` and `error` after a chunk.
  predicate Answers(verdict: Verdict, text: Option<string>, done: bool, error: PasteError) {
    match verdict
    case Waiting => text == None
    case Accepted(t) => text == Some(t) && done && error == NoError
    case Refused(e) => text == None && done && error == e && e != NoError
  }

  predicate AllWait(results: seq<Verdict>, n: nat)
    requires n <= |results|
  {
    forall i :: 0 <= i < n ==> results[i] == Waiting
  }

  // The decoder run over a whole sequence of chunks agrees with `Session` at every step, and is neither done
  // nor in error before its first answer.
  method FeedAll(m: Markers, limit: int, chunks: seq<seq<byte>>)
      returns (texts: seq<Option<string>>, dones: seq<bool>, errors: seq<PasteError>)
    ensures |texts| == |dones| == |errors| == |chunks|
    ensures var results := Session(m, limit, [], chunks);
      forall i :: 0 <= i < |chunks| ==> Reported(results, i, texts[i], dones[i], errors[i])
  {
    hide Find, Meaning, Body, Session;
    var decoder := new BracketedPaste(m, limit);
    texts, dones, errors := [], [], [];
    ghost var results := Session(m, limit, [], chunks);
    assert chunks[0..] == chunks && results[0..] == results;
    for n := 0 to |chunks|
      invariant fresh(decoder) && decoder.markers == m && decoder.maxBytes == limit
      invariant decoder.Valid() && !decoder.interrupted
      invariant |texts| == |dones| == |errors| == n
      invariant results[n..] == Session(m, limit, decoder.stream, chunks[n..])
      invariant AllWait(results, n) ==> !decoder.done && decoder.error == NoError
      invariant forall i :: 0 <= i < n ==> Reported(results, i, texts[i], dones[i], errors[i])
    {
      NextResult(m, limit, decoder.stream, chunks, results, n);
      WaitedLonger(results, n);
      hide AllWait, Reported;
      var text := decoder.Feed(chunks[n]);
      NowReported(results, n, text, decoder.done, decoder.error);
      texts, dones, errors := texts + [text], dones + [decoder.done], errors + [decoder.error];
    }
  }

  lemma WaitedLonger(results: seq<Verdict>, n: nat)
    requires n < |results|
    ensures AllWait(results, n + 1) <==> AllWait(results, n) && results[n] == Waiting
  {
  }

  lemma NowReported(results: seq<Verdict>, n: nat, text: Option<string>, done: bool, error: PasteError)
    requires n < |results| && Answers(results[n], text, done, error)
    requires AllWait(results, n + 1) ==> !done && error == NoError
    ensures Reported(results, n, text, done, error)
  {
  }

  // How the i-th answer shows, and that nothing shows before the first one.
  predicate Reported(results: seq<Verdict>, i: nat, text: Option<string>, done: bool, error: PasteError)
    requires i < |results|
  {
    Answers(results[i], text, done, error) && (AllWait(results, i + 1) ==> !done && error == NoError)
  }

  lemma NextResult(m: Markers, limit: int, stream: seq<byte>, chunks: seq<seq<byte>>, results: seq<Verdict>, n: nat)
    requires n < |chunks| == |results| && results[n..] == Session(m, limit, stream, chunks[n..])
    ensures results[n] == Meaning(m, limit, false, stream + chunks[n])
    ensures results[n + 1..] ==
      Session(m, limit, if results[n].Waiting? then stream + chunks[n] else [], chunks[n + 1..])
  {
    SessionUnfolds(m, limit, stream, chunks[n..]);
    hide *;
    assert chunks[n..][0] == chunks[n] && results[n] == results[n..][0];
    DropDrop(chunks, n, 1);
    DropDrop(results, n, 1);
  }

  // The verdict on one complete paste.
  function PasteVerdict(limit: int, payload: seq<byte>): Verdict {
    if |payload| > limit then Refused(Oversize(|payload|, limit))
    else match Utf8.Decode(payload)
      case Some(text) => Accepted(NormalizeNewlines(text))
      case None => Refused(InvalidUtf8)
  }

  ghost predicate OnePaste(m: Markers, pre: seq<byte>, payload: seq<byte>) {
    && Find(pre + m.start, m.start, 0) == |pre|
    && Find(payload + m.end, m.end, 0) == |payload|
  }

  function Sent(m: Markers, pre: seq<byte>, payload: seq<byte>): seq<byte> {
    pre + m.start + (payload + m.end)
  }

  lemma BodyOfPaste(m: Markers, pre: seq<byte>, payload: seq<byte>)
    requires OnePaste(m, pre, payload)
    ensures Find(Sent(m, pre, payload), m.start, 0) >= 0 && Body(m, Sent(m, pre, payload)) == payload + m.end
  {
    var head := pre + m.start;
    assert head[|pre| + |m.start|..] == [];
    GrowBody(m, head, payload + m.end, 0);
  }

  lemma MeaningOfPaste(m: Markers, limit: int, pre: seq<byte>, payload: seq<byte>)
    requires OnePaste(m, pre, payload)
    ensures Meaning(m, limit, false, Sent(m, pre, payload)) == PasteVerdict(limit, payload)
  {
    BodyOfPaste(m, pre, payload);
    assert (payload + m.end)[..|payload|] == payload;
  }

  // A stream cut before its first END has no meaning yet.
  lemma PrefixStillWaits(m: Markers, limit: int, interrupted: bool, pre: seq<byte>, payload: seq<byte>,
                         prefix: seq<byte>, rest: seq<byte>)
    requires OnePaste(m, pre, payload)
    requires prefix + rest == Sent(m, pre, payload) && rest != []
    ensures Meaning(m, limit, interrupted, prefix).Waiting?
  {
    if Find(prefix, m.start, 0) >= 0 {
      GrowBody(m, prefix, rest, 0);
      BodyOfPaste(m, pre, payload);
      var e := Find(Body(m, prefix), m.end, 0);
      assert |payload + m.end| == |Body(m, prefix)| + |rest|;
      if e >= 0 {
        OccursInPrefix(Body(m, prefix), rest, m.end, e);
      }
    }
  }

  // Only the last result answers, and with this verdict.
  predicate LastAnswers(results: seq<Verdict>, verdict: Verdict) {
    results != [] && results[|results| - 1] == verdict && AllWait(results, |results| - 1)
  }

  lemma FirstWaits(results: seq<Verdict>, verdict: Verdict)
    requires LastAnswers(results, verdict)
    ensures LastAnswers([Waiting] + results, verdict)
  {
  }

  lemma SessionUnfolds(m: Markers, limit: int, stream: seq<byte>, chunks: seq<seq<byte>>)
    requires chunks != []
    ensures var verdict := Meaning(m, limit, false, stream + chunks[0]);
      Session(m, limit, stream, chunks) ==
        [verdict] + Session(m, limit, if verdict.Waiting? then stream + chunks[0] else [], chunks[1..])
  {
    hide Meaning;
  }

  lemma OneChunkLeft(m: Markers, limit: int, stream: seq<byte>, chunks: seq<seq<byte>>)
    requires |chunks| == 1
    ensures Session(m, limit, stream, chunks) == [Meaning(m, limit, false, stream + chunks[0])]
    ensures Flatten(chunks) == chunks[0]
  {
    hide Meaning;
  }

  // Chunk boundaries do not matter. However `pre START payload END` is cut into chunks, the last
  // one non-empty and ending at END, every chunk but the last answers nothing and the last
  // answers for the payload alone: its length, its UTF-8 validity, its text.
  lemma {:induction false} ChunkIndependence(m: Markers, limit: int, pre: seq<byte>, payload: seq<byte>,
                                             sent: seq<byte>, chunks: seq<seq<byte>>)
    requires OnePaste(m, pre, payload)
    requires chunks != [] && chunks[|chunks| - 1] != []
    requires sent + Flatten(chunks) == Sent(m, pre, payload)
    ensures LastAnswers(Session(m, limit, sent, chunks), PasteVerdict(limit, payload))
    decreases |chunks|
  {
    if |chunks| == 1 {
      OneChunkLeft(m, limit, sent, chunks);
      MeaningOfPaste(m, limit, pre, payload);
    } else {
      RestIsNotEmpty(chunks);
      hide *;
      var now, rest := sent + chunks[0], chunks[1..];
      FlattenHead(chunks);
      Assoc(sent, chunks[0], Flatten(rest));
      PrefixStillWaits(m, limit, false, pre, payload, now, Flatten(rest));
      ChunkIndependence(m, limit, pre, payload, now, rest);
      SessionUnfolds(m, limit, sent, chunks);
      FirstWaits(Session(m, limit, now, rest), PasteVerdict(limit, payload));
    }
  }

  lemma RestIsNotEmpty(chunks: seq<seq<byte>>)
    requires |chunks| > 1 && chunks[|chunks| - 1] != []
    ensures chunks[1..] != [] && chunks[1..][|chunks[1..]| - 1] != [] && Flatten(chunks[1..]) != []
  {
  }

  // A new decoder fed one paste, cut into chunks anywhere, with the last one non-empty and ending at END: it
  // answers nothing, is not done and reports no error until the last chunk, and then answers for the payload.
  method FeedPaste(limit: int, pre: seq<byte>, payload: seq<byte>, chunks: seq<seq<byte>>)
      returns (texts: seq<Option<string>>, dones: seq<bool>, errors: seq<PasteError>)
    requires OnePaste(PASTE, pre, payload)
    requires chunks != [] && chunks[|chunks| - 1] != []
    requires Flatten(chunks) == Sent(PASTE, pre, payload)
    ensures |texts| == |dones| == |errors| == |chunks|
    ensures forall i :: 0 <= i < |chunks| - 1 ==> texts[i] == None && !dones[i] && errors[i] == NoError
    ensures var last := |chunks| - 1;
      && dones[last]
      && if |payload| > limit then texts[last] == None && errors[last] == Oversize(|payload|, limit)
         else match Utf8.Decode(payload)
           case None => texts[last] == None && errors[last] == InvalidUtf8
           case Some(text) =>
             && errors[last] == NoError && texts[last].Some? && |texts[last].value| == |text|
             && forall i :: 0 <= i < |text| ==>
                  texts[last].value[i] ==
                    if text[i] == '\r' && (i + 1 == |text| || text[i + 1] != '\n') then '\n' else text[i]
  {
    if Utf8.Decode(payload).Some? {
      NormalizeConvertsExactlyLoneCrs(Utf8.Decode(payload).value);
    }
    hide OnePaste, Sent, Session, Flatten, Utf8.Decode, NormalizeNewlines;
    texts, dones, errors := FeedAll(PASTE, limit, chunks);
    assert [] + Flatten(chunks) == Flatten(chunks);
    ChunkIndependence(PASTE, limit, pre, payload, [], chunks);
    ghost var results := Session(PASTE, limit, [], chunks);
    assert |results| == |chunks|;
    forall i | 0 <= i < |chunks| - 1
      ensures texts[i] == None && !dones[i] && errors[i] == NoError
    {
      assert AllWait(results, i + 1);
      assert results[i] == Waiting;
    }
  }

  // ----- An interrupted paste -----

  lemma InterruptedIsIncomplete(m: Markers, limit: int, pre: seq<byte>, payload: seq<byte>)
    requires OnePaste(m, pre, payload)
    ensures Meaning(m, limit, true, Sent(m, pre, payload)) == Refused(Incomplete)
  {
    BodyOfPaste(m, pre, payload);
  }

  lemma FirstChunksWait(m: Markers, limit: int, interrupted: bool, pre: seq<byte>, payload: seq<byte>,
                        chunks: seq<seq<byte>>, n: nat)
    requires OnePaste(m, pre, payload) && Flatten(chunks) == Sent(m, pre, payload)
    requires n < |chunks| && chunks[|chunks| - 1] != []
    ensures Flatten(chunks[..n + 1]) == Flatten(chunks[..n]) + chunks[n]
    ensures n + 1 < |chunks| ==> Meaning(m, limit, interrupted, Flatten(chunks[..n + 1])).Waiting?
    ensures n + 1 == |chunks| ==> Flatten(chunks[..n + 1]) == Sent(m, pre, payload)
  {
    FlattenNext(chunks, n);
    CutRejoins(chunks, n + 1);
    hide *;
    if n + 1 < |chunks| {
      FlattenCut(chunks, n);
      PrefixStillWaits(m, limit, interrupted, pre, payload, Flatten(chunks[..n + 1]), Flatten(chunks[n + 1..]));
    }
  }

  lemma FlattenCut(chunks: seq<seq<byte>>, n: nat)
    requires n + 1 < |chunks| && chunks[|chunks| - 1] != []
    ensures Flatten(chunks[..n + 1]) + Flatten(chunks[n + 1..]) == Flatten(chunks) && Flatten(chunks[n + 1..]) != []
  {
    LastOfTail(chunks, n);
    RestIsNotEmpty(chunks[n..]);
    hide *;
    FlattenAppend(chunks[..n + 1], chunks[n + 1..]);
    CutRejoins(chunks, n + 1);
  }

  lemma CutRejoins<T>(s: seq<T>, n: nat)
    requires n <= |s|
    ensures s[..n] + s[n..] == s && s[..|s|] == s
  {
  }

  lemma LastOfTail<T>(s: seq<T>, n: nat)
    requires n < |s|
    ensures s[n..] != [] && s[n..][|s[n..]| - 1] == s[|s| - 1] && s[n..][1..] == s[n + 1..]
  {
  }

  lemma FlattenNext(chunks: seq<seq<byte>>, n: nat)
    requires n < |chunks|
    ensures Flatten(chunks[..n + 1]) == Flatten(chunks[..n]) + chunks[n]
  {
    assert chunks[..n + 1][..n] == chunks[..n];
  }

  // A new decoder that is interrupted just before chunk k of one paste: nothing of the paste is ever returned, whatever
  // its payload, and at its END the decoder is done with the error of an incomplete paste and ready for the next one.
  method FeedInterrupted(limit: int, pre: seq<byte>, payload: seq<byte>, chunks: seq<seq<byte>>, k: nat)
      returns (texts: seq<Option<string>>, dones: seq<bool>, errors: seq<PasteError>, waiting: bool)
    requires OnePaste(PASTE, pre, payload)
    requires k < |chunks| && chunks[|chunks| - 1] != []
    requires Flatten(chunks) == Sent(PASTE, pre, payload)
    ensures |texts| == |dones| == |errors| == |chunks| && !waiting
    ensures forall i :: 0 <= i < |chunks| ==> texts[i] == None && (dones[i] <==> i == |chunks| - 1)
    ensures forall i :: 0 <= i < |chunks| ==> errors[i] == if i < k then NoError else Incomplete
  {
    hide OnePaste, Sent, Flatten, Meaning, Find, Body;
    var decoder := new BracketedPaste(PASTE, limit);
    texts, dones, errors := [], [], [];
    assert Flatten(chunks[..0]) == [] by {
      FlattenNothing(chunks);
    }
    for n := 0 to |chunks|
      invariant fresh(decoder) && decoder.markers == PASTE && decoder.maxBytes == limit && decoder.Valid()
      invariant decoder.stream == if n < |chunks| then Flatten(chunks[..n]) else []
      invariant n < |chunks| ==> (decoder.interrupted <==> n > k) && !decoder.done
      invariant n < |chunks| ==> decoder.error == if n > k then Incomplete else NoError
      invariant n == |chunks| ==> decoder.Finished()
      invariant |texts| == |dones| == |errors| == n
      invariant forall i :: 0 <= i < n ==> texts[i] == None && (dones[i] <==> i == |chunks| - 1)
      invariant forall i :: 0 <= i < n ==> errors[i] == if i < k then NoError else Incomplete
    {
      if n == k {
        decoder.Interrupt();
      }
      FirstChunksWait(PASTE, limit, decoder.interrupted, pre, payload, chunks, n);
      InterruptedIsIncomplete(PASTE, limit, pre, payload);
      var text := decoder.Feed(chunks[n]);
      texts, dones, errors := texts + [text], dones + [decoder.done], errors + [decoder.error];
    }
    waiting := decoder.IsWaiting();
  }

  lemma FlattenNothing(chunks: seq<seq<byte>>)
    ensures Flatten(chunks[..0]) == []
  {
  }
}
