// A log sink that appends to one file and rotates it through numbered copies,
// and the closed form of what the directory then holds.
module Logs {
  import opened Common

  // Index 0 is the live file `path`; index i is the copy `path.i`.
  type Files = map<nat, seq<byte>>

  // ----- Closed form -----

  // Cutting `n` bytes into blocks of `limit`: block `q` is the last one and holds `size` bytes.
  ghost predicate Cut(limit: nat, n: nat, q: nat, size: nat) {
    n == q * limit + size && 1 <= size <= limit
  }

  lemma CutIsDivMod(limit: nat, n: nat, q: nat, size: nat)
    requires Cut(limit, n, q, size)
    ensures q == (n - 1) / limit && size == (n - 1) % limit + 1
  {
    var d := (n - 1) / limit - q;
    assert d * limit + (n - 1) % limit == size - 1 by {
      assert (n - 1) / limit * limit + (n - 1) % limit == n - 1;
      assert ((n - 1) / limit - q) * limit == (n - 1) / limit * limit - q * limit;
    }
    MultipleOf(d, limit);
  }

  lemma CutOf(limit: nat, n: nat)
    requires limit > 0 && n > 0
    ensures Cut(limit, n, (n - 1) / limit, (n - 1) % limit + 1)
  {
    assert (n - 1) / limit * limit + (n - 1) % limit == n - 1;
  }

  // The bytes of block `b`; the last block may be short.
  function Block(limit: nat, history: seq<byte>, b: nat): seq<byte> {
    history[Min(b * limit, |history|)..Min(b * limit + limit, |history|)]
  }

  function Last(limit: nat, history: seq<byte>): nat
    requires limit > 0 && history != []
  {
    (|history| - 1) / limit
  }

  // The contents of `path`, `path.1`, `path.2`, ...: the last block and the blocks before it.
  function Image(limit: nat, rotations: nat, history: seq<byte>): seq<seq<byte>>
    requires limit > 0
  {
    if history == [] then []
    else
      var last := Last(limit, history);
      seq(Min(rotations, last) + 1, i requires 0 <= i <= last => Block(limit, history, last - i))
  }

  // The directory holds exactly these files.
  ghost predicate Lists(files: Files, contents: seq<seq<byte>>) {
    && (forall i: nat :: i in files <==> i < |contents|)
    && (forall i: nat :: i < |contents| ==> files[i] == contents[i])
  }

  // The directory, told from the bytes alone: cut into blocks of `limit`, of which only the last may be short, copy i
  // is the block i places before the last, as far as there are blocks and up to `rotations` copies.
  ghost predicate Keeps(files: Files, limit: nat, rotations: int, bytes: seq<byte>)
    requires limit > 0
  {
    && (forall i: nat :: i in files <==> bytes != [] && (i == 0 || i <= rotations) && i <= (|bytes| - 1) / limit)
    && (forall i: nat :: i in files ==>
          var at := ((|bytes| - 1) / limit - i) * limit;
          && 0 <= at <= |bytes|
          && files[i] == if i == 0 then bytes[at..] else if at + limit <= |bytes| then bytes[at..at + limit] else [])
  }

  lemma ImageKeeps(files: Files, limit: nat, rotations: int, bytes: seq<byte>)
    requires limit > 0 && Lists(files, Image(limit, Max(0, rotations), bytes))
    ensures Keeps(files, limit, rotations, bytes)
  {
    if bytes != [] {
      ImageSize(limit, Max(0, rotations), bytes);
      assert Last(limit, bytes) == (|bytes| - 1) / limit;
      hide Image, Last, Block;
      forall i: nat | i in files
        ensures var at := ((|bytes| - 1) / limit - i) * limit;
          && 0 <= at <= |bytes|
          && files[i] == if i == 0 then bytes[at..] else if at + limit <= |bytes| then bytes[at..at + limit] else []
      {
        ImageAt(limit, Max(0, rotations), bytes, i);
        BlockBytes(limit, bytes, i);
      }
    }
  }

  lemma BlockBytes(limit: nat, bytes: seq<byte>, i: nat)
    requires limit > 0 && bytes != [] && i <= Last(limit, bytes)
    ensures var at := (Last(limit, bytes) - i) * limit;
      && 0 <= at <= |bytes|
      && Block(limit, bytes, Last(limit, bytes) - i)
         == if i == 0 then bytes[at..] else if at + limit <= |bytes| then bytes[at..at + limit] else []
  {
    if i == 0 {
      LastBlock(limit, bytes);
    } else {
      FullBlock(limit, bytes, [], Last(limit, bytes) - i);
    }
  }

  // Blocks before the last are full and do not change when bytes are appended.
  lemma FullBlock(limit: nat, history: seq<byte>, more: seq<byte>, b: nat)
    requires limit > 0 && history != [] && b < Last(limit, history)
    ensures b * limit + limit <= |history|
    ensures |Block(limit, history, b)| == limit
    ensures Block(limit, history + more, b) == Block(limit, history, b)
  {
    CutOf(limit, |history|);
    var last := Last(limit, history);
    MultipleOf(last - b, limit);
    assert (last - b) * limit == last * limit - b * limit;
  }

  lemma LastBlock(limit: nat, history: seq<byte>)
    requires limit > 0 && history != []
    ensures var last := Last(limit, history);
      last * limit < |history| <= last * limit + limit && Block(limit, history, last) == history[last * limit..]
  {
    CutOf(limit, |history|);
  }

  lemma FilesAreBounded(limit: nat, rotations: nat, history: seq<byte>, i: nat)
    requires limit > 0 && i < |Image(limit, rotations, history)|
    ensures 1 <= |Image(limit, rotations, history)[i]| <= limit
    ensures i <= rotations
    ensures 0 < i ==> |Image(limit, rotations, history)[i]| == limit
  {
    LastBlock(limit, history);
    if i > 0 {
      FullBlock(limit, history, [], Last(limit, history) - i);
    }
  }

  // The first `n` contents, joined from the oldest to the live one, in the order they were written.
  function Joined(image: seq<seq<byte>>, n: nat): seq<byte>
    requires n <= |image|
  {
    if n == 0 then [] else image[n - 1] + Joined(image, n - 1)
  }

  // Only whole old blocks are lost: the files from the oldest copy to the live one, joined,
  // are exactly the end of everything ever appended.
  lemma {:induction false} JoinedIsTail(limit: nat, rotations: nat, history: seq<byte>, n: nat)
    requires limit > 0 && history != [] && 1 <= n <= |Image(limit, rotations, history)|
    ensures var image, start := Image(limit, rotations, history), (Last(limit, history) - n + 1) * limit;
      0 <= start <= |history| && Joined(image, n) == history[start..]
  {
    var last := Last(limit, history);
    var image := Image(limit, rotations, history);
    if n == 1 {
      LastBlock(limit, history);
      assert Joined(image, 0) == [];
    } else {
      JoinedIsTail(limit, rotations, history, n - 1);
      var b := last - n + 1;
      FullBlock(limit, history, [], b);
      SplitAtBlock(limit, history, b);
      assert image[n - 1] == Block(limit, history, b);
      assert (last - (n - 1) + 1) * limit == (b + 1) * limit;
    }
  }

  lemma SplitAtBlock(limit: nat, history: seq<byte>, b: nat)
    requires b * limit + limit <= |history|
    ensures 0 <= b * limit && (b + 1) * limit == b * limit + limit
    ensures history[b * limit..] == Block(limit, history, b) + history[(b + 1) * limit..]
  {
  }

  // ----- Steps of the closed form -----

  lemma FirstChunk(limit: nat, rotations: nat, chunk: seq<byte>)
    requires 1 <= |chunk| <= limit
    ensures Image(limit, rotations, chunk) == [chunk]
  {
    CutIsDivMod(limit, |chunk|, 0, |chunk|);
    LastBlock(limit, chunk);
  }

  lemma GrowLive(limit: nat, rotations: nat, history: seq<byte>, chunk: seq<byte>)
    requires limit > 0 && history != []
    requires |Image(limit, rotations, history)[0]| + |chunk| <= limit
    ensures var before := Image(limit, rotations, history);
            Image(limit, rotations, history + chunk) == before[0 := before[0] + chunk]
  {
    var last := Last(limit, history);
    var now := history + chunk;
    LastBlock(limit, history);
    CutIsDivMod(limit, |now|, last, |now| - last * limit);
    LastBlock(limit, now);
    var before, after := Image(limit, rotations, history), Image(limit, rotations, now);
    assert history[last * limit..] + chunk == now[last * limit..];
    forall i | 0 < i < |before| ensures after[i] == before[i] {
      FullBlock(limit, history, chunk, last - i);
    }
  }

  lemma StartBlock(limit: nat, rotations: nat, history: seq<byte>, chunk: seq<byte>)
    requires limit > 0 && history != [] && 1 <= |chunk| <= limit
    requires |Image(limit, rotations, history)[0]| == limit
    ensures var before := Image(limit, rotations, history);
            Image(limit, rotations, history + chunk) == [chunk] + before[..Min(|before|, rotations)]
  {
    var last, now := Last(limit, history), history + chunk;
    ImageAt(limit, rotations, history, 0);
    NewBlock(limit, history, chunk);
    hide *;
    var before, after := Image(limit, rotations, history), Image(limit, rotations, now);
    ImageSize(limit, rotations, history);
    ImageSize(limit, rotations, now);
    ImageAt(limit, rotations, now, 0);
    forall i | 0 < i < |after|
      ensures after[i] == before[i - 1]
    {
      OldBlockMoves(limit, rotations, history, chunk, i);
    }
    ShiftedByOne(after, before, chunk, rotations);
  }

  lemma OldBlockMoves(limit: nat, rotations: nat, history: seq<byte>, chunk: seq<byte>, i: nat)
    requires limit > 0 && history != [] && 1 <= |chunk| <= limit
    requires |Block(limit, history, Last(limit, history))| == limit
    requires 0 < i < |Image(limit, rotations, history + chunk)|
    ensures i - 1 < |Image(limit, rotations, history)|
    ensures Image(limit, rotations, history + chunk)[i] == Image(limit, rotations, history)[i - 1]
  {
    NewBlock(limit, history, chunk);
    hide Block, Last, Image;
    ImageSize(limit, rotations, history);
    ImageAt(limit, rotations, history + chunk, i);
    ImageAt(limit, rotations, history, i - 1);
    OlderBlock(limit, history, chunk, Last(limit, history) + 1 - i);
  }

  lemma ShiftedByOne(after: seq<seq<byte>>, before: seq<seq<byte>>, chunk: seq<byte>, rotations: nat)
    requires |after| == Min(|before|, rotations) + 1 && after[0] == chunk
    requires forall i :: 0 < i < |after| ==> after[i] == before[i - 1]
    ensures after == [chunk] + before[..Min(|before|, rotations)]
  {
  }

  lemma ImageSize(limit: nat, rotations: nat, history: seq<byte>)
    requires limit > 0 && history != []
    ensures |Image(limit, rotations, history)| == Min(rotations, Last(limit, history)) + 1
  {
    hide Block, Last;
  }

  lemma ImageAt(limit: nat, rotations: nat, history: seq<byte>, i: nat)
    requires limit > 0 && history != [] && i < |Image(limit, rotations, history)|
    ensures i <= Last(limit, history) && i <= rotations
    ensures Image(limit, rotations, history)[i] == Block(limit, history, Last(limit, history) - i)
  {
    hide Block, Last;
  }

  // A chunk after a full last block begins the next one.
  lemma NewBlock(limit: nat, history: seq<byte>, chunk: seq<byte>)
    requires limit > 0 && history != [] && 1 <= |chunk| <= limit
    requires |Block(limit, history, Last(limit, history))| == limit
    ensures Last(limit, history + chunk) == Last(limit, history) + 1
    ensures Block(limit, history + chunk, Last(limit, history) + 1) == chunk
  {
    var last, now := Last(limit, history), history + chunk;
    LastBlock(limit, history);
    assert (last + 1) * limit == last * limit + limit;
    CutIsDivMod(limit, |now|, last + 1, |chunk|);
    LastBlock(limit, now);
    hide Block;
  }

  lemma OlderBlock(limit: nat, history: seq<byte>, chunk: seq<byte>, b: nat)
    requires limit > 0 && history != [] && |Block(limit, history, Last(limit, history))| == limit
    requires b <= Last(limit, history)
    ensures Block(limit, history + chunk, b) == Block(limit, history, b)
  {
    LastBlock(limit, history);
    if b < Last(limit, history) {
      FullBlock(limit, history, chunk, b);
    }
  }

  lemma ImageStep(limit: nat, rotations: nat, history: seq<byte>, chunk: seq<byte>)
    requires limit > 0 && chunk != []
    requires var before := Image(limit, rotations, history);
      |chunk| <= limit - if before == [] || |before[0]| == limit then 0 else |before[0]|
    ensures var before, after := Image(limit, rotations, history), Image(limit, rotations, history + chunk);
      if before == [] then after == [chunk]
      else if |before[0]| == limit then after == [chunk] + before[..Min(|before|, rotations)]
      else after == before[0 := before[0] + chunk]
  {
    if history == [] {
      FirstChunk(limit, rotations, chunk);
      assert history + chunk == chunk;
    } else if |Image(limit, rotations, history)[0]| == limit {
      StartBlock(limit, rotations, history, chunk);
    } else {
      GrowLive(limit, rotations, history, chunk);
    }
  }

  // Copies 1, 2, ... hold these contents and there is no live file.
  ghost predicate ListsFromOne(files: Files, contents: seq<seq<byte>>) {
    && (forall i: nat :: i in files <==> 0 < i <= |contents|)
    && (forall i: nat :: 0 < i <= |contents| ==> files[i] == contents[i - 1])
  }

  // Where the file now at `i` was before the copies above `low`, up to `top`, moved one place up; -1 for nowhere.
  function Origin(i: nat, low: nat, top: nat): int {
    if low < i <= top then i - 1 else if i == low < top then -1 else i
  }

  ghost predicate Moved(was: Files, now: Files, low: nat, top: nat) {
    && (forall i: nat :: i in now <==> Origin(i, low, top) >= 0 && Origin(i, low, top) in was)
    && (forall i: nat :: i in now ==> now[i] == was[Origin(i, low, top)])
  }

  lemma NotMoved(files: Files, top: nat)
    ensures Moved(files, files, top, top)
  {
  }

  lemma MovedOneMore(was: Files, before: Files, now: Files, below: nat, top: nat)
    requires below < top && Moved(was, before, below + 1, top)
    requires now == if below in before then before[below + 1 := before[below]] - {below} else before - {below + 1}
    ensures Moved(was, now, below, top)
  {
    assert Origin(below, below + 1, top) == below;
  }

  // ----- The sink -----

  class RotatingLog {
    const maxBytes: int
    const rotations: int
    var files: Files
    ghost var history: seq<byte>  // every byte appended

    ghost predicate Valid()
      reads this
    {
      maxBytes > 0 ==> Lists(files, Image(maxBytes, Max(0, rotations), history))
    }

    constructor (maxBytes: int, rotations: int)
      ensures this.maxBytes == maxBytes && this.rotations == rotations
      ensures Valid() && files == map[] && history == []
    {
      this.maxBytes, this.rotations := maxBytes, rotations;
      files, history := map[], [];
    }

    method Rotate()
      modifies this`files
      ensures Moved(old(files), files, 0, Max(0, rotations))
    {
      hide Moved;
      var top := Max(0, rotations);
      NotMoved(files, top);
      for below := top downto 0
        invariant Moved(old(files), files, below, top)
      {
        var source, target := below, below + 1;
        ghost var before := files;
        if target in files {
          files := files - {target};
        }
        if source in files {
          files := files[target := files[source]] - {source};
        }
        MovedOneMore(old(files), before, files, below, top);
      }
    }

    method AppendRotating(data: seq<byte>)
      requires Valid()
      modifies this
      ensures Valid()
      ensures maxBytes <= 0 ==> files == old(files) && history == old(history)
      ensures maxBytes > 0 ==> history == old(history) + data && Keeps(files, maxBytes, rotations, history)
    {
      if maxBytes <= 0 {
        return;
      }
      var remaining := data;
      while remaining != []
        invariant Valid()
        invariant history + remaining == old(history) + data
      {
        var chunk := AppendChunk(remaining);
        assert chunk + remaining[|chunk|..] == remaining;
        remaining := remaining[|chunk|..];
      }
      assert old(history) + data == history + [] == history;
      ImageKeeps(files, maxBytes, rotations, history);
    }

    // One turn of the loop: make room if the live file is full, then fill it.
    method AppendChunk(remaining: seq<byte>) returns (chunk: seq<byte>)
      requires Valid() && maxBytes > 0 && remaining != []
      modifies this
      ensures Valid() && chunk != [] && chunk <= remaining && history == old(history) + chunk
    {
      ghost var top := Max(0, rotations);
      ghost var image := Image(maxBytes, top, history);
      if history != [] {
        FilesAreBounded(maxBytes, top, history, 0);
      }
      var current := MakeRoom(image);
      chunk := remaining[..Min(Max(1, maxBytes - current), |remaining|)];
      WriteAll(chunk);
      ImageStep(maxBytes, top, history, chunk);
      history := history + chunk;
    }

    method MakeRoom(ghost image: seq<seq<byte>>) returns (current: nat)
      requires maxBytes > 0 && Lists(files, image) && |image| <= Max(0, rotations) + 1
      requires image != [] ==> |image[0]| <= maxBytes
      modifies this`files
      ensures if image != [] && |image[0]| == maxBytes then current == 0 && ListsFromOne(files, image[..Min(|image|, Max(0, rotations))])
              else files == old(files) && current == (if image == [] then 0 else |image[0]|)
    {
      current := if 0 in files then |files[0]| else 0;
      if current >= maxBytes {
        if rotations > 0 {
          Rotate();  // leaves no live file, so the size is not checked again here
        } else {
          files := files - {0};
        }
        current := 0;
      }
    }

    // The descriptor takes any non-empty part of what is left at each write.
    method WriteAll(chunk: seq<byte>)
      modifies this`files
      ensures files == old(files)[0 := (if 0 in old(files) then old(files)[0] else []) + chunk]
    {
      if 0 !in files {
        files := files[0 := []];
      }
      var pending := chunk;
      while pending != []
        invariant 0 in files && files == old(files)[0 := files[0]]
        invariant files[0] + pending == (if 0 in old(files) then old(files)[0] else []) + chunk
      {
        var written :| 1 <= written <= |pending|;
        files := files[0 := files[0] + pending[..written]];
        pending := pending[written..];
      }
      assert files[0] + [] == files[0];
    }
  }

  // However the bytes are split into appends, the files are the same.
  method AppendAll(maxBytes: nat, rotations: int, parts: seq<seq<byte>>) returns (files: Files)
    requires maxBytes > 0
    ensures Keeps(files, maxBytes, rotations, Flatten(parts))
  {
    var log := new RotatingLog(maxBytes, rotations);
    for n := 0 to |parts|
      invariant fresh(log) && log.maxBytes == maxBytes && log.rotations == rotations
      invariant log.Valid() && log.history == Flatten(parts[..n])
    {
      log.AppendRotating(parts[n]);
      assert parts[..n + 1][..n] == parts[..n];
    }
    assert parts[..|parts|] == parts;
    files := log.files;
    ImageKeeps(files, maxBytes, rotations, log.history);
  }
}
