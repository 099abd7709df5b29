/** What reads show after a write, whether it keeps the invariant or not. */
module FatReadBack {
  import opened Sets
  import opened FatModel
  import opened FatChains
  import opened FatAppend
  import opened FatFrame
  import opened FatSpec
  import opened FatOps
  import opened FatReach

  // ---------------------------------------------------------------- free blocks

  /** Free blocks before block m. */
  function FreeBelow(fat: seq<int>, m: nat): nat
    requires m <= |fat|
  {
    if m == 0 then 0 else FreeBelow(fat, m - 1) + if fat[m - 1] == 0 then 1 else 0
  }

  /** Taking free block x takes one from the count beyond it. */
  lemma {:induction false} FreeBelowTaken(fat: seq<int>, fat': seq<int>, m: nat, x: nat)
    requires m <= |fat| == |fat'| && x < |fat| && fat[x] == 0 && fat'[x] != 0
    requires forall b :: 0 <= b < m && b != x ==> (fat'[b] == 0 <==> fat[b] == 0)
    ensures FreeBelow(fat', m) == FreeBelow(fat, m) - if x < m then 1 else 0
  {
    if m > 0 {
      FreeBelowTaken(fat, fat', m - 1, x);
    }
  }

  lemma {:induction false} FreeBelowBound(fat: seq<int>, m: nat)
    requires m <= |fat|
    ensures FreeBelow(fat, m) == m - InUse(fat[..m])
    ensures InUse(fat) - InUse(fat[..m]) <= |fat| - m
    decreases |fat| - m
  {
    FreeBelowIs(fat, m);
    if m < |fat| {
      FreeBelowBound(fat, m + 1);
      assert fat[..m + 1][..m] == fat[..m];
    } else {
      assert fat[..m] == fat;
    }
  }

  lemma {:induction false} FreeBelowIs(fat: seq<int>, m: nat)
    requires m <= |fat|
    ensures FreeBelow(fat, m) == m - InUse(fat[..m])
  {
    if m > 0 {
      FreeBelowIs(fat, m - 1);
      assert fat[..m][..m - 1] == fat[..m - 1];
    }
  }

  lemma {:induction false} SomeFree(fat: seq<int>, m: nat)
    requires m <= |fat| && FreeBelow(fat, m) > 0
    ensures 0 <= FindFree(fat, 0) < m
  {
    if fat[m - 1] == 0 {
      FindFreeLowest(fat, 0, m - 1);
    } else {
      SomeFree(fat, m - 1);
    }
  }

  // ---------------------------------------------------------------- an append that stays on its path

  /** No free block before m lies on the path, and linking block 0 would free none. */
  ghost predicate Clear(fat: seq<int>, path: seq<int>, m: nat) {
    && path != [] && m <= |fat|
    && (forall b :: b in path && 0 <= b < m ==> fat[b] != 0)
    && (|fat| > 0 && fat[0] == 0 ==> path[|path| - 1] >= m)
  }

  lemma LinkClear(fat: seq<int>, start: int, path: seq<int>, m: nat)
    requires |fat| <= END_OF_CHAIN && IsPath(fat, start, path) && Clear(fat, path, m) && FreeBelow(fat, m) > 0
    ensures var spare := FindFree(fat, 0);
            && 0 <= spare < m && 0 <= path[|path| - 1] < |fat|
            && var fat' := Link(fat, path[|path| - 1], spare);
               && IsPath(fat', start, path + [spare]) && Clear(fat', path + [spare], m)
               && FreeBelow(fat', m) == FreeBelow(fat, m) - 1
  {
    hide FreeBelow, FindFree;
    SomeFree(fat, m);
    var spare, last := FindFree(fat, 0), path[|path| - 1];
    if fat[0] == 0 {
      FindFreeLowest(fat, 0, 0);
    }
    var fat' := Link(fat, last, spare);
    var path' := LinkPath(fat, start, path, spare);
    FreeBelowTaken(fat, fat', m, spare);
  }

  /** Linked blocks come behind the path, and the bytes behind what it held. */
  ghost predicate Continued(fat: seq<int>, area: seq<char>, start: int, path: seq<int>, off: int, bytes: seq<char>,
                            r: Appended, ext: seq<int>) {
    && r.written == |bytes| && |r.fat| == |fat|
    && IsPath(r.fat, start, path + ext) && GrownArea(area, path, off, bytes, r.area, ext)
    && (ext != [] ==> BLOCK_SIZE * (|path + ext| - 1) < Position(path, off) + |bytes|)
    && Elsewhere(fat, path, r.fat, ext)
  }

  /** Nothing has changed in the table but the end of the path and formerly free blocks. */
  ghost predicate Elsewhere(fat: seq<int>, path: seq<int>, fat': seq<int>, ext: seq<int>) {
    && |fat'| == |fat| && path != []
    && (forall b :: b in ext ==> 0 <= b < |fat| && fat[b] == 0)
    && (forall b :: 0 <= b < |fat| && b !in ext && b != path[|path| - 1] ==> fat'[b] == fat[b])
  }

  lemma LinkElsewhere(fat: seq<int>, path: seq<int>, spare: nat, fat': seq<int>, ext: seq<int>)
    requires path != [] && 0 <= path[|path| - 1] < |fat| && spare < |fat| && fat[spare] == 0 && fat[path[|path| - 1]] != 0
    requires Elsewhere(Link(fat, path[|path| - 1], spare), path + [spare], fat', ext)
    requires path[|path| - 1] !in ext
    ensures Elsewhere(fat, path, fat', [spare] + ext)
  {}

  lemma {:induction false} AppendContinues(fat: seq<int>, area: seq<char>, start: int, path: seq<int>, m: nat, off: int, bytes: seq<char>)
    returns (ext: seq<int>)
    requires |area| == BLOCK_SIZE * |fat| && |fat| <= END_OF_CHAIN && 0 <= off <= BLOCK_SIZE
    requires IsPath(fat, start, path) && Clear(fat, path, m)
    requires |bytes| <= BLOCK_SIZE - off + BLOCK_SIZE * FreeBelow(fat, m)
    ensures 0 <= path[|path| - 1] < |fat|
    ensures Continued(fat, area, start, path, off, bytes, Append(fat, area, path[|path| - 1], off, bytes), ext)
    decreases |bytes|, 1
  {
    hide IsPath, Clear, GrownArea, FillBlock, FindFree, FreeBelow;
    PathEnd(fat, start, path);
    ext := [];
    if bytes == [] {
      PathFits(fat, area, start, path);
      NothingGrows(area, path, off);
      assert path + [] == path;
    } else if off < BLOCK_SIZE {
      ext := FillContinues(fat, area, start, path, m, off, bytes);
    } else {
      LinkClear(fat, start, path, m);
      var spare := FindFree(fat, 0);
      var fat1 := Link(fat, path[|path| - 1], spare);
      ext := FillContinues(fat1, area, start, path + [spare], m, 0, bytes);
      var r := FillBlock(fat1, area, spare, 0, bytes);
      PathFits(fat, area, start, path);
      LinkArea(area, path, spare, bytes, r.area, ext);
      NotRepeated(r.fat, start, path, [spare], ext);
      LinkElsewhere(fat, path, spare, r.fat, ext);
      assert path + [spare] + ext == path + ([spare] + ext);
      ext := [spare] + ext;
    }
  }

  lemma NotRepeated(fat: seq<int>, start: int, path: seq<int>, mid: seq<int>, ext: seq<int>)
    requires path != [] && IsPath(fat, start, path + mid + ext)
    ensures path[|path| - 1] !in ext
  {
    var all := path + mid + ext;
    forall i | 0 <= i < |ext| ensures ext[i] != path[|path| - 1] {
      assert all[|path + mid| + i] == ext[i] && all[|path| - 1] == path[|path| - 1];
    }
  }

  lemma PathFits(fat: seq<int>, area: seq<char>, start: int, path: seq<int>)
    requires |area| == BLOCK_SIZE * |fat| && IsPath(fat, start, path)
    ensures path != [] && Distinct(path) && Fits(area, path)
  {
    ChainFits(fat, area, path);
  }

  lemma NothingGrows(area: seq<char>, path: seq<int>, off: int)
    requires path != [] && Fits(area, path) && 0 <= off <= BLOCK_SIZE
    ensures GrownArea(area, path, off, [], area, [])
  {
    assert path + [] == path;
  }

  lemma {:induction false} FillContinues(fat: seq<int>, area: seq<char>, start: int, path: seq<int>, m: nat, off: int, bytes: seq<char>)
    returns (ext: seq<int>)
    requires |area| == BLOCK_SIZE * |fat| && |fat| <= END_OF_CHAIN && 0 <= off < BLOCK_SIZE && bytes != []
    requires IsPath(fat, start, path) && Clear(fat, path, m)
    requires |bytes| <= BLOCK_SIZE - off + BLOCK_SIZE * FreeBelow(fat, m)
    ensures 0 <= path[|path| - 1] < |fat|
    ensures Continued(fat, area, start, path, off, bytes, FillBlock(fat, area, path[|path| - 1], off, bytes), ext)
    decreases |bytes|, 0
  {
    hide IsPath, Clear, GrownArea, Append, FreeBelow, Store;
    PathEnd(fat, start, path);
    var b, n := path[|path| - 1], Portion(off, bytes);
    var first, rest := bytes[..n], bytes[n..];
    var area1 := Store(area, BLOCK_SIZE * b + off, first);
    ext := AppendContinues(fat, area1, start, path, m, off + n, rest);
    var r := Append(fat, area1, b, off + n, rest);
    PathFits(fat, area, start, path);
    FillArea(area, path, off, first, rest, r.area, ext);
    assert first + rest == bytes;
  }

  // ---------------------------------------------------------------- an append that takes back a block of its own

  /** Block path[j], the one before block 0, is the only free one on the path. */
  ghost predicate CutAt(fat: seq<int>, path: seq<int>, j: nat) {
    && j < |path| - 1 && path[j + 1] == 0 && InDisk(|fat|, path) && fat[path[j]] == 0
    && forall i :: 0 <= i < |path| && i != j ==> fat[path[i]] != 0
  }

  /** It gets its turn: the path is cut back there, block 0 and what follows are lost, and it stays short for good. */
  lemma {:induction false} AppendCuts(fat: seq<int>, area: seq<char>, start: int, path: seq<int>, j: nat, off: int, bytes: seq<char>)
    returns (path': seq<int>)
    requires |area| == BLOCK_SIZE * |fat| && |fat| <= END_OF_CHAIN && 0 <= off <= BLOCK_SIZE
    requires IsPath(fat, start, path) && CutAt(fat, path, j)
    requires |bytes| > BLOCK_SIZE - off + BLOCK_SIZE * FreeBelow(fat, path[j])
    ensures 0 <= path[|path| - 1] < |fat|
    ensures var r := Append(fat, area, path[|path| - 1], off, bytes);
            IsPath(r.fat, start, path') && BLOCK_SIZE * |path'| < Position(path, off) + r.written && 0 !in path'
    decreases |bytes|, 1
  {
    hide FillBlock, FindFree, FreeBelow;
    if off < BLOCK_SIZE {
      path' := FillCuts(fat, area, start, path, j, off, bytes);
    } else {
      FindFreeLowest(fat, 0, path[j]);
      var spare, last := FindFree(fat, 0), path[|path| - 1];
      var fat1 := Link(fat, last, spare);
      var path1 := LinkPath(fat, start, path, spare);
      assert path[j + 1] == 0 && fat[0] != 0;
      if spare in path {
        var i :| 0 <= i < |path| && path[i] == spare;
        assert i == j;
        assert path1 == path[..j + 1] && 0 !in path1;
        path' := FillPath(fat1, area, start, path1, 0, bytes);
      } else {
        FreeBelowTaken(fat, fat1, path[j], spare);
        assert path1[j] == path[j];
        path' := FillCuts(fat1, area, start, path1, j, 0, bytes);
      }
    }
  }

  lemma {:induction false} FillCuts(fat: seq<int>, area: seq<char>, start: int, path: seq<int>, j: nat, off: int, bytes: seq<char>)
    returns (path': seq<int>)
    requires |area| == BLOCK_SIZE * |fat| && |fat| <= END_OF_CHAIN && 0 <= off < BLOCK_SIZE && bytes != []
    requires IsPath(fat, start, path) && CutAt(fat, path, j)
    requires |bytes| > BLOCK_SIZE - off + BLOCK_SIZE * FreeBelow(fat, path[j])
    ensures 0 <= path[|path| - 1] < |fat|
    ensures var r := FillBlock(fat, area, path[|path| - 1], off, bytes);
            IsPath(r.fat, start, path') && BLOCK_SIZE * |path'| < Position(path, off) + r.written && 0 !in path'
    decreases |bytes|, 0
  {
    hide Append, Store, FreeBelow;
    var b, n := path[|path| - 1], Portion(off, bytes);
    path' := AppendCuts(fat, Store(area, BLOCK_SIZE * b + off, bytes[..n]), start, path, j, off + n, bytes[n..]);
  }

  /** Linking block 0 frees the last block; an append that is long enough then takes it back. */
  lemma {:induction false} ZeroCuts(fat: seq<int>, area: seq<char>, start: int, path: seq<int>, off: int, bytes: seq<char>)
    returns (path': seq<int>)
    requires |area| == BLOCK_SIZE * |fat| && |fat| <= END_OF_CHAIN && 0 <= off <= BLOCK_SIZE
    requires IsPath(fat, start, path) && |fat| > 0 && fat[0] == 0
    requires forall b :: b in path ==> 0 <= b < |fat| && fat[b] != 0
    requires |bytes| > BLOCK_SIZE - off + BLOCK_SIZE * FreeBelow(fat, path[|path| - 1])
    ensures 0 <= path[|path| - 1] < |fat|
    ensures var r := Append(fat, area, path[|path| - 1], off, bytes);
            IsPath(r.fat, start, path') && BLOCK_SIZE * |path'| < Position(path, off) + r.written && 0 !in path'
    decreases |bytes|
  {
    hide FreeBelow, Store;
    var last := path[|path| - 1];
    assert last in path;
    if off < BLOCK_SIZE {
      var n := Portion(off, bytes);
      var area1 := Store(area, BLOCK_SIZE * last + off, bytes[..n]);
      path' := ZeroCuts(fat, area1, start, path, BLOCK_SIZE, bytes[n..]);
    } else {
      assert FindFree(fat, 0) == 0;
      var fat1 := Link(fat, last, 0);
      var path1 := LinkPath(fat, start, path, 0);
      FreeBelowTaken(fat, fat1, last, 0);
      path' := FillCuts(fat1, area, start, path1, |path| - 1, 0, bytes);
    }
  }

  // ---------------------------------------------------------------- what the written file shows

  /** Block 0 is free, and the data do not fit in the rest of the last block and the free blocks before it. */
  predicate TakesItself(fs: Fs, e: Entry, last: nat, data: string)
    requires last < |fs.fat|
  {
    fs.fat[0] == 0 && |data| > BLOCK_SIZE - e.size % BLOCK_SIZE + BLOCK_SIZE * FreeBelow(fs.fat, last)
  }

  /** The last block of the chain of a file. */
  ghost function LastOf(fs: Fs, chains: seq<seq<int>>, name: string): (last: nat)
    requires Inv(fs, chains) && name != "" && Find(fs.dir, name, 0) >= 0
    ensures last < |fs.fat|
  {
    WriteReady(fs, chains, name);
    var ch := chains[Find(fs.dir, name, 0)];
    ch[|ch| - 1]
  }

  /** Bytes the last block and the free blocks can take. */
  function RoomAfter(fs: Fs, e: Entry): int {
    BLOCK_SIZE - e.size % BLOCK_SIZE + BLOCK_SIZE * (|fs.fat| - InUse(fs.fat))
  }

  /** Read prints the content of the path, when that is as long as the size calls for. */
  lemma ReadShows(fs: Fs, name: string, i: nat, path: seq<int>)
    requires Shaped(fs) && name != "" && i == Find(fs.dir, name, 0)
    requires IsPath(fs.fat, fs.dir[i].start, path) && |path| == BlocksFor(fs.dir[i].size) && Fits(fs.area, path)
    requires NUL !in Content(fs.area, path, fs.dir[i].size)
    ensures Read(fs, name) == Reply(true, Content(fs.area, path, fs.dir[i].size))
  {
    hide ReadFrom, IsPath, Find, Flat;
    if fs.dir[i].size > 0 {
      ReadsContent(fs.fat, fs.area, fs.dir[i].start, path, fs.dir[i].size);
    }
  }

  /** As much as there is room for comes behind the old content, on a path no longer than needed. */
  ghost predicate Prolonged(fat: seq<int>, area: seq<char>, start: int, ch: seq<int>, off: int, data: string,
                            r: Appended, ext: seq<int>) {
    && r.written <= |data| && r.written == Min(|data|, BLOCK_SIZE - off + BLOCK_SIZE * (|fat| - InUse(fat)))
    && IsPath(r.fat, start, ch + ext) && GrownArea(area, ch, off, data[..r.written], r.area, ext)
    && (ext != [] ==> BLOCK_SIZE * (|ch + ext| - 1) < Position(ch, off) + r.written)
    && Elsewhere(fat, ch, r.fat, ext)
  }

  lemma AppendProlongs(fat: seq<int>, area: seq<char>, start: int, ch: seq<int>, off: int, data: string)
    returns (ext: seq<int>)
    requires Ready(fat, area, start, ch, off) && 0 <= ch[|ch| - 1] < |fat|
    requires fat[0] == 0 ==> |data| <= BLOCK_SIZE - off + BLOCK_SIZE * FreeBelow(fat, ch[|ch| - 1])
    ensures Prolonged(fat, area, start, ch, off, data, Append(fat, area, ch[|ch| - 1], off, data), ext)
  {
    hide Append, GrownFat, GrownArea, IsChain, IsPath, FreeBelow;
    ReadyLast(fat, area, start, ch, off);
    var last := ch[|ch| - 1];
    var r := Append(fat, area, last, off, data);
    if fat[0] != 0 {
      ext := AppendGrows(fat, area, start, ch, off, data);
      GrownIsChain(fat, start, ch, r.fat, ext);
      GrownElsewhere(fat, start, ch, r.fat, ext);
      ChainIsPath(r.fat, start, ch + ext);
    } else {
      ChainIsPath(fat, start, ch);
      ChainBusy(fat, start, ch);
      FreeBelowBound(fat, last);
      ext := AppendContinues(fat, area, start, ch, last, off, data);
      assert data[..r.written] == data;
    }
  }

  lemma GrownElsewhere(fat: seq<int>, start: int, ch: seq<int>, fat': seq<int>, ext: seq<int>)
    requires GrownFat(fat, start, ch, fat', ext)
    ensures Elsewhere(fat, ch, fat', ext)
  {}

  /** The path after a write that does not take its own block back. */
  lemma AppendedPath(fs: Fs, chains: seq<seq<int>>, name: string, data: string) returns (ext: seq<int>)
    requires Inv(fs, chains) && name != "" && Find(fs.dir, name, 0) >= 0
    requires !TakesItself(fs, fs.dir[Find(fs.dir, name, 0)], LastOf(fs, chains, name), data)
    ensures var i := Find(fs.dir, name, 0);
            && i < |chains| && chains[i] != [] && |fs.area| == BLOCK_SIZE * |fs.fat|
            && var e := fs.dir[i];
               var r := Append(fs.fat, fs.area, LastOf(fs, chains, name), e.size % BLOCK_SIZE, data);
               && Write(fs, name, data).fs == Fs(r.fat, fs.dir[i := e.(size := e.size + r.written)], r.area)
               && Prolonged(fs.fat, fs.area, e.start, chains[i], e.size % BLOCK_SIZE, data, r, ext)
  {
    hide Find, Append, Inv, Shaped, Seek, FileOk, FreeBelow, Prolonged;
    InvShaped(fs, chains);
    WriteReady(fs, chains, name);
    var i := Find(fs.dir, name, 0);
    var e, ch := fs.dir[i], chains[i];
    OwnPath(fs, e, ch);
    ext := AppendProlongs(fs.fat, fs.area, e.start, ch, e.size % BLOCK_SIZE, data);
  }

  lemma GrownHolds(area: seq<char>, ch: seq<int>, off: int, bytes: seq<char>, area': seq<char>, ext: seq<int>)
    requires GrownArea(area, ch, off, bytes, area', ext)
    ensures Position(ch, off) + |bytes| <= BLOCK_SIZE * |ch + ext|
  {}

  /** Then a read shows the old content and behind it as much of the data as fits. */
  lemma AppendReads(fs: Fs, chains: seq<seq<int>>, name: string, data: string)
    requires Inv(fs, chains) && name != "" && NUL !in data && Find(fs.dir, name, 0) >= 0
    requires var e := fs.dir[Find(fs.dir, name, 0)];
             data != [] && !Overlays(e, data) && !TakesItself(fs, e, LastOf(fs, chains, name), data)
    ensures var i, fs' := Find(fs.dir, name, 0), Write(fs, name, data).fs;
            && Shaped(fs') && |fs'.dir| == |fs.dir|
            && var w := fs'.dir[i].size - fs.dir[i].size;
               && 0 <= w == Min(|data|, RoomAfter(fs, fs.dir[i]))
               && Read(fs', name) == Reply(true, Content(fs.area, chains[i], fs.dir[i].size) + data[..w])
  {
    hide Find, Append, Inv, Shaped, GrownArea, IsPath, FileOk, TakesItself, Read, Ready, Seek;
    InvShaped(fs, chains);
    WriteReady(fs, chains, name);
    var ext := AppendedPath(fs, chains, name, data);
    WriteShaped(fs, name, data);
    var i, fs' := Find(fs.dir, name, 0), Write(fs, name, data).fs;
    var e, ch := fs.dir[i], chains[i];
    var w := fs'.dir[i].size - e.size;
    OwnPath(fs, e, ch);
    StartsAtEnd(e, ch);
    GrownContent(fs.area, ch, e.size, data[..w], fs'.area, ext, e.size % BLOCK_SIZE);
    GrownHolds(fs.area, ch, e.size % BLOCK_SIZE, data[..w], fs'.area, ext);
    GrownLength(e, ch, ext, w);
    ShapedArea(fs');
    PathFits(fs'.fat, fs'.area, e.start, ch + ext);
    SameFound(fs.dir, fs'.dir, name, 0);
    ReadShows(fs', name, i, ch + ext);
  }

  /** A read prints at most a block's worth for each block it goes through. */
  lemma {:induction false} ReadLength(fat: seq<int>, area: seq<char>, start: int, path: seq<int>, j: nat, left: int)
    requires |area| == BLOCK_SIZE * |fat| && 0 < |fat| <= END_OF_CHAIN && GoodLinks(fat)
    requires IsPath(fat, start, path) && j < |path|
    ensures |ReadFrom(fat, area, path[j], left)| <= BLOCK_SIZE * (|path| - j)
    decreases |path| - j
  {
    if left > 0 {
      PrintedLength(area[BLOCK_SIZE * path[j]..BLOCK_SIZE * path[j] + Min(left, BLOCK_SIZE)]);
      if j + 1 < |path| {
        assert FollowsAt(fat, path, j);
        ReadLength(fat, area, start, path, j + 1, left - BLOCK_SIZE);
      }
    }
  }

  lemma {:induction false} PrintedLength(s: string)
    ensures |UpToNul(s)| <= |s|
  {
    if s != [] {
      PrintedLength(s[1..]);
    }
  }

  /** A path too short for the recorded size makes the output too short. */
  lemma ShortRead(fs: Fs, name: string, i: nat, path: seq<int>)
    requires Shaped(fs) && name != "" && i == Find(fs.dir, name, 0)
    requires IsPath(fs.fat, fs.dir[i].start, path) && BLOCK_SIZE * |path| < fs.dir[i].size
    ensures |Read(fs, name).output| < fs.dir[i].size
  {
    hide ReadFrom, Find, IsPath;
    PathStart(fs.fat, fs.dir[i].start, path);
    ReadLength(fs.fat, fs.area, fs.dir[i].start, path, 0, fs.dir[i].size);
  }

  /** After every overlay the file reads shorter than it is said to be. */
  lemma OverlayLosesData(fs: Fs, chains: seq<seq<int>>, name: string, data: string)
    requires Inv(fs, chains) && name != "" && Find(fs.dir, name, 0) >= 0
    requires Overlays(fs.dir[Find(fs.dir, name, 0)], data)
    ensures var i, fs' := Find(fs.dir, name, 0), Write(fs, name, data).fs;
            && Shaped(fs') && |fs'.dir| == |fs.dir|
            && fs'.dir[i].size > fs.dir[i].size && |Read(fs', name).output| < fs'.dir[i].size
  {
    hide Write, Read, Shaped, Find, IsPath, Inv;
    InvShaped(fs, chains);
    WriteShaped(fs, name, data);
    var path := OverlayPath(fs, chains, name, data);
    SameEntries(fs, name, data);
    SameFound(fs.dir, Write(fs, name, data).fs.dir, name, 0);
    ShortRead(Write(fs, name, data).fs, name, Find(fs.dir, name, 0), path);
  }

  /** So does a file whose append takes its own block back. */
  lemma TakenBackLosesData(fs: Fs, chains: seq<seq<int>>, name: string, data: string)
    requires Inv(fs, chains) && name != "" && Find(fs.dir, name, 0) >= 0
    requires var e := fs.dir[Find(fs.dir, name, 0)];
             !Overlays(e, data) && TakesItself(fs, e, LastOf(fs, chains, name), data)
    ensures var i, fs' := Find(fs.dir, name, 0), Write(fs, name, data).fs;
            && Shaped(fs') && |fs'.dir| == |fs.dir| && |Read(fs', name).output| < fs'.dir[i].size
  {
    hide Read, Shaped, Find, IsPath, Inv, Append, Seek, FileOk, Ready, FreeBelow;
    InvShaped(fs, chains);
    ShapedArea(fs);
    WriteReady(fs, chains, name);
    WriteShaped(fs, name, data);
    var i := Find(fs.dir, name, 0);
    var e, ch := fs.dir[i], chains[i];
    OwnPath(fs, e, ch);
    SlotBusy(fs, chains, i);
    var path := ZeroCuts(fs.fat, fs.area, e.start, ch, e.size % BLOCK_SIZE, data);
    StartsAtEnd(e, ch);
    SameEntries(fs, name, data);
    SameFound(fs.dir, Write(fs, name, data).fs.dir, name, 0);
    ShortRead(Write(fs, name, data).fs, name, i, path);
  }

  lemma OwnPath(fs: Fs, e: Entry, ch: seq<int>)
    requires FileOk(fs, e, ch)
    ensures IsPath(fs.fat, e.start, ch) && ch != [] && Fits(fs.area, ch)
    ensures 0 <= e.size && |ch| == BlocksFor(e.size) && NUL !in Content(fs.area, ch, e.size)
  {
    hide Flat;
    ChainIsPath(fs.fat, e.start, ch);
    FileFits(fs, e, ch);
  }

  lemma PathStart(fat: seq<int>, start: int, path: seq<int>)
    requires IsPath(fat, start, path)
    ensures path != [] && path[0] == start
  {}

  lemma {:induction false} SameFound(dir: seq<Entry>, dir': seq<Entry>, name: string, i: nat)
    requires i <= |dir| == |dir'| && forall j :: 0 <= j < |dir| ==> dir'[j].name == dir[j].name
    ensures Find(dir', name, i) == Find(dir, name, i)
    decreases |dir| - i
  {
    if i < |dir| {
      SameFound(dir, dir', name, i + 1);
    }
  }

  /** What a read shows of a file in an undamaged file system. */
  lemma ReadBefore(fs: Fs, chains: seq<seq<int>>, name: string)
    requires Inv(fs, chains) && name != "" && Find(fs.dir, name, 0) >= 0
    ensures var i := Find(fs.dir, name, 0);
            && i < |chains| && FileOk(fs, fs.dir[i], chains[i]) && Shaped(fs)
            && Read(fs, name) == Reply(true, Content(fs.area, chains[i], fs.dir[i].size))
            && |Read(fs, name).output| == fs.dir[i].size
  {
    hide Find, Inv, Shaped, IsPath, Read, Ready;
    InvShaped(fs, chains);
    WriteReady(fs, chains, name);
    var i := Find(fs.dir, name, 0);
    OwnPath(fs, fs.dir[i], chains[i]);
    ReadShows(fs, name, i, chains[i]);
  }

  /**
   A write appends, and a read shows it, if and only if it neither overlays nor
   takes the file's own last block back; then as much is written as fits.
   */
  lemma WriteAppendsIff(fs: Fs, chains: seq<seq<int>>, name: string, data: string)
    requires Inv(fs, chains) && name != "" && NUL !in data && Find(fs.dir, name, 0) >= 0
    ensures var i, fs' := Find(fs.dir, name, 0), Write(fs, name, data).fs;
            var e, last := fs.dir[i], LastOf(fs, chains, name);
            && Shaped(fs') && |fs'.dir| == |fs.dir| && 0 <= fs'.dir[i].size - e.size <= |data|
            && var w := fs'.dir[i].size - e.size;
               && (Read(fs', name).output == Read(fs, name).output + data[..w]
                   <==> !Overlays(e, data) && !TakesItself(fs, e, last, data))
               && (!Overlays(e, data) && !TakesItself(fs, e, last, data) ==> w == Min(|data|, RoomAfter(fs, e)))
  {
    hide Find, Write, Inv, Shaped, Read, Content, FileOk, TakesItself, RoomAfter;
    InvShaped(fs, chains);
    WriteShaped(fs, name, data);
    WrittenSize(fs, name, data);
    ReadBefore(fs, chains, name);
    var i := Find(fs.dir, name, 0);
    var e, last := fs.dir[i], LastOf(fs, chains, name);
    if Overlays(e, data) {
      OverlayLosesData(fs, chains, name, data);
    } else if TakesItself(fs, e, last, data) {
      TakenBackLosesData(fs, chains, name, data);
    } else if data == [] {
      WriteNothing(fs, chains, name);
      RoomThere(fs, e);
    } else {
      AppendReads(fs, chains, name, data);
    }
  }

  /** The same in the numbers of the disk, for a disk whose block 0 is in use. */
  lemma AppendsIn32(fs: Fs, chains: seq<seq<int>>, name: string, data: string)
    requires Inv(fs, chains) && name != "" && NUL !in data && Find(fs.dir, name, 0) >= 0 && fs.fat[0] != 0
    ensures |fs.area| == 32 * |fs.fat| && fs.fat[LastOf(fs, chains, name)] == 0xFFFF
    ensures var i, fs' := Find(fs.dir, name, 0), Write(fs, name, data).fs;
            var e, free := fs.dir[i], |fs.fat| - InUse(fs.fat);
            && Shaped(fs') && |fs'.dir| == |fs.dir| && 0 <= fs'.dir[i].size - e.size <= |data|
            && var w := fs'.dir[i].size - e.size;
               if e.size > 0 && e.size % 32 == 0 && data != [] then
                 Read(fs', name).output != Read(fs, name).output + data[..w]
               else
                 && w == Min(|data|, 32 - e.size % 32 + 32 * free)
                 && Read(fs', name).output == Read(fs, name).output + data[..w]
  {
    hide Find, Write, Inv, Shaped, Read, FileOk, IsChain;
    InvShaped(fs, chains);
    ShapedArea(fs);
    WriteReady(fs, chains, name);
    LastMarked(fs, fs.dir[Find(fs.dir, name, 0)], chains[Find(fs.dir, name, 0)]);
    WriteAppendsIff(fs, chains, name, data);
  }

  lemma LastMarked(fs: Fs, e: Entry, ch: seq<int>)
    requires FileOk(fs, e, ch)
    ensures ch != [] && 0 <= ch[|ch| - 1] < |fs.fat| && fs.fat[ch[|ch| - 1]] == END_OF_CHAIN
  {}

  lemma WrittenSize(fs: Fs, name: string, data: string)
    requires Shaped(fs) && name != "" && Find(fs.dir, name, 0) >= 0
    ensures var i, fs' := Find(fs.dir, name, 0), Write(fs, name, data).fs;
            |fs'.dir| == |fs.dir| && 0 <= fs'.dir[i].size - fs.dir[i].size <= |data|
  {
    hide Find, Append, Seek;
  }

  lemma RoomThere(fs: Fs, e: Entry)
    ensures RoomAfter(fs, e) >= 0
  {
    BusyExact(fs.fat);
  }

  // ---------------------------------------------------------------- what the other files show

  /** An append changes only free blocks and the one it starts in. */
  lemma {:induction false} AppendFrame(fat: seq<int>, area: seq<char>, block: int, off: int, bytes: seq<char>, b: nat)
    requires |area| == BLOCK_SIZE * |fat| && 0 <= block < |fat| && 0 <= off <= BLOCK_SIZE
    requires b < |fat| && b != block && fat[b] != 0
    ensures var r := Append(fat, area, block, off, bytes); r.fat[b] == fat[b] && Block(r.area, b) == Block(area, b)
    decreases |bytes|, 1
  {
    hide FillBlock, FindFree, Block;
    if bytes != [] {
      if off < BLOCK_SIZE {
        FillFrame(fat, area, block, off, bytes, b);
      } else if FindFree(fat, 0) >= 0 {
        FillFrame(Link(fat, block, FindFree(fat, 0)), area, FindFree(fat, 0), 0, bytes, b);
      }
    }
  }

  lemma {:induction false} FillFrame(fat: seq<int>, area: seq<char>, block: int, off: int, bytes: seq<char>, b: nat)
    requires |area| == BLOCK_SIZE * |fat| && 0 <= block < |fat| && 0 <= off < BLOCK_SIZE && bytes != []
    requires b < |fat| && b != block && fat[b] != 0
    ensures var r := FillBlock(fat, area, block, off, bytes); r.fat[b] == fat[b] && Block(r.area, b) == Block(area, b)
    decreases |bytes|, 0
  {
    hide Append, Store, Block;
    var n := Portion(off, bytes);
    StoreElsewhere(area, block, off, bytes[..n], b);
    AppendFrame(fat, Store(area, BLOCK_SIZE * block + off, bytes[..n]), block, off + n, bytes[n..], b);
  }

  /** Any write, damaging or not, leaves what a read shows of every other name as it was. */
  lemma WriteKeepsOthers(fs: Fs, chains: seq<seq<int>>, name: string, data: string, other: string)
    requires Inv(fs, chains) && name != "" && other != "" && other != name
    ensures Shaped(fs) && Shaped(Write(fs, name, data).fs)
    ensures Read(Write(fs, name, data).fs, other) == Read(fs, other)
  {
    hide Find, Write, Read, Inv, Shaped;
    InvShaped(fs, chains);
    WriteShaped(fs, name, data);
    SameEntries(fs, name, data);
    SameFound(fs.dir, Write(fs, name, data).fs.dir, other, 0);
    if Find(fs.dir, other, 0) < 0 {
      NotThere(fs, other);
      NotThere(Write(fs, name, data).fs, other);
    } else if Find(fs.dir, name, 0) < 0 {
      NotWritten(fs, name, data);
    } else {
      OtherFile(fs, chains, name, data, other);
    }
  }

  lemma NotThere(fs: Fs, name: string)
    requires Shaped(fs) && name != "" && Find(fs.dir, name, 0) < 0
    ensures Read(fs, name) == Reply(false, "")
  {}

  lemma NotWritten(fs: Fs, name: string, data: string)
    requires Shaped(fs) && name != "" && Find(fs.dir, name, 0) < 0
    ensures Write(fs, name, data) == Outcome(false, fs)
  {}

  lemma OtherFile(fs: Fs, chains: seq<seq<int>>, name: string, data: string, other: string)
    requires Inv(fs, chains) && name != "" && other != "" && other != name
    requires Find(fs.dir, name, 0) >= 0 && Find(fs.dir, other, 0) >= 0
    ensures Shaped(fs) && Shaped(Write(fs, name, data).fs)
    ensures Read(Write(fs, name, data).fs, other) == Read(fs, other)
  {
    hide Find, Append, Read, Inv, Shaped, Seek, FileOk, Ready, IsPath, Content, Block;
    InvShaped(fs, chains);
    ShapedArea(fs);
    WriteShaped(fs, name, data);
    WriteReady(fs, chains, name);
    ReadBefore(fs, chains, other);
    var i, j, fs' := Find(fs.dir, name, 0), Find(fs.dir, other, 0), Write(fs, name, data).fs;
    var e, ch := fs.dir[j], chains[j];
    OwnPath(fs, fs.dir[i], chains[i]);
    Apart(fs, chains, i, j);
    SlotBusy(fs, chains, i);
    SlotBusy(fs, chains, j);
    forall b | 0 <= b < |fs.fat| && b in ch ensures BlockKept(fs, fs', b) {
      assert b in Elems(ch) && chains[i][|chains[i]| - 1] in Elems(chains[i]);
      AppendFrame(fs.fat, fs.area, chains[i][|chains[i]| - 1], fs.dir[i].size % BLOCK_SIZE, data, b);
    }
    SlotFrame(fs, fs', e, ch);
    OwnPath(fs', e, ch);
    SameEntries(fs, name, data);
    SameFound(fs.dir, fs'.dir, other, 0);
    ReadShows(fs', other, j, ch);
  }

  // ---------------------------------------------------------------- delete after a write

  /** Delete frees the path of the file, whatever it is, and nothing else. */
  lemma DeletePath(fs: Fs, name: string, i: nat, path: seq<int>)
    requires Shaped(fs) && name != "" && i == Find(fs.dir, name, 0) && IsPath(fs.fat, fs.dir[i].start, path)
    ensures var d := Delete(fs, name);
            && d.Deletion? && d.ok && Shaped(d.fs) && |d.fs.fat| == |fs.fat| && d.fs.area == fs.area
            && d.fs.dir == fs.dir[i := fs.dir[i].(name := "")]
            && forall b :: 0 <= b < |fs.fat| ==> d.fs.fat[b] == if b in path then 0 else fs.fat[b]
  {
    hide Find, Release, IsPath;
    ReleasePath(fs.fat, fs.dir[i].start, path);
    DeleteShaped(fs, name);
  }

  /** What an undamaged disk has lost, and no more, when the written file is deleted. */
  lemma DeleteSwapsAfter(fs: Fs, chains: seq<seq<int>>, name: string, data: string)
    requires Inv(fs, chains) && name != "" && Find(fs.dir, name, 0) >= 0
    requires !TakesItself(fs, fs.dir[Find(fs.dir, name, 0)], LastOf(fs, chains, name), data)
    ensures var i, fs' := Find(fs.dir, name, 0), Write(fs, name, data).fs;
            && Shaped(fs') && |fs'.dir| == |fs.dir|
            && var d := Delete(fs', name);
               && d.Deletion? && d.ok && i < |chains|
               && Swaps(fs, chains, i, d.fs, fs'.dir[i].(name := ""), [])
  {
    hide Find, Append, Delete, Inv, Shaped, Seek, FileOk, Ready, TakesItself, IsPath, GrownArea, Block;
    InvShaped(fs, chains);
    WriteReady(fs, chains, name);
    WriteShaped(fs, name, data);
    var ext := AppendedPath(fs, chains, name, data);
    var i, fs' := Find(fs.dir, name, 0), Write(fs, name, data).fs;
    var ch, last := chains[i], LastOf(fs, chains, name);
    SameFound(fs.dir, fs'.dir, name, 0);
    DeletePath(fs', name, i, ch + ext);
    var d := Delete(fs', name).fs;
    ShapedArea(fs);
    forall b | 0 <= b < |fs.fat| && b !in ch ensures BlockKept(fs, d, b) {
      assert last in ch;
      if fs.fat[b] != 0 {
        AppendFrame(fs.fat, fs.area, last, fs.dir[i].size % BLOCK_SIZE, data, b);
      }
    }
  }

  /** The other files and the free space are then as if the write had not been. */
  lemma DeleteRepairs(fs: Fs, chains: seq<seq<int>>, slots: seq<Slot>, name: string, data: string)
    requires Represents(fs, chains, slots) && name != "" && Find(fs.dir, name, 0) >= 0
    requires !TakesItself(fs, fs.dir[Find(fs.dir, name, 0)], LastOf(fs, chains, name), data)
    ensures var i, fs' := Find(fs.dir, name, 0), Write(fs, name, data).fs;
            && i < |chains| && i < |slots| && Shaped(fs')
            && var d := Delete(fs', name);
               d.Deletion? && d.ok && Represents(d.fs, chains[i := []], slots[i := Empty])
  {
    hide Find, Write, Delete, Inv, Shaped, Swaps, Shows, TakesItself;
    RepresentsInv(fs, chains, slots);
    InvShaped(fs, chains);
    DeleteSwapsAfter(fs, chains, name, data);
    var i, fs' := Find(fs.dir, name, 0), Write(fs, name, data).fs;
    var e := fs'.dir[i].(name := "");
    NothingShows(Delete(fs', name).fs, e);
    SwapShows(fs, chains, slots, i, Delete(fs', name).fs, e, [], Empty);
  }

  /** A block 0 that the write linked and then cut off stays in use for good. */
  lemma DeleteLeaks(fs: Fs, chains: seq<seq<int>>, name: string, data: string, chains': seq<seq<int>>)
    requires Inv(fs, chains) && name != "" && Find(fs.dir, name, 0) >= 0
    requires TakesItself(fs, fs.dir[Find(fs.dir, name, 0)], LastOf(fs, chains, name), data)
    ensures var fs' := Write(fs, name, data).fs;
            Shaped(fs') && Delete(fs', name).Deletion? && !Inv(Delete(fs', name).fs, chains')
  {
    hide Find, Delete, Inv, Shaped, Append, Seek, FileOk, Ready, IsPath, FreeBelow;
    InvShaped(fs, chains);
    ShapedArea(fs);
    WriteReady(fs, chains, name);
    WriteShaped(fs, name, data);
    var i, fs' := Find(fs.dir, name, 0), Write(fs, name, data).fs;
    var e, ch := fs.dir[i], chains[i];
    OwnPath(fs, e, ch);
    SlotBusy(fs, chains, i);
    var path := ZeroCuts(fs.fat, fs.area, e.start, ch, e.size % BLOCK_SIZE, data);
    assert ch[|ch| - 1] in ch;
    TakesZero(fs.fat, fs.area, ch[|ch| - 1], e.size % BLOCK_SIZE, data);
    SameEntries(fs, name, data);
    SameFound(fs.dir, fs'.dir, name, 0);
    DeletePath(fs', name, i, path);
    NobodyStartsAtFree(fs, chains);
    StillLeaked(fs, fs', Delete(fs', name).fs, i, chains');
  }

  lemma StillLeaked(fs: Fs, fs': Fs, d: Fs, i: nat, chains': seq<seq<int>>)
    requires |fs'.dir| == |fs.dir| && i < |fs.dir| && d.dir == fs'.dir[i := fs'.dir[i].(name := "")]
    requires forall j :: 0 <= j < |fs.dir| ==> fs'.dir[j].start == fs.dir[j].start && fs'.dir[j].name == fs.dir[j].name
    requires forall j :: 0 <= j < |fs.dir| && Used(fs.dir[j]) ==> fs.dir[j].start != 0
    requires d.fat != [] && d.fat[0] != 0
    ensures !Inv(d, chains')
  {
    hide Inv;
    if Inv(d, chains') {
      ZeroHeads(d, chains');
    }
  }

  /** Deleting the file undoes what its write did to the disk if and only if the write did not take its own block back. */
  lemma DeleteRepairsIff(fs: Fs, chains: seq<seq<int>>, name: string, data: string)
    requires Inv(fs, chains) && name != "" && Find(fs.dir, name, 0) >= 0
    ensures var fs' := Write(fs, name, data).fs;
            && Shaped(fs') && Delete(fs', name).Deletion?
            && ((exists chains' :: Inv(Delete(fs', name).fs, chains'))
                <==> !TakesItself(fs, fs.dir[Find(fs.dir, name, 0)], LastOf(fs, chains, name), data))
  {
    hide Find, Write, Delete, Inv, Shaped, Represents, TakesItself;
    InvShaped(fs, chains);
    var fs' := Write(fs, name, data).fs;
    if TakesItself(fs, fs.dir[Find(fs.dir, name, 0)], LastOf(fs, chains, name), data) {
      DeleteLeaks(fs, chains, name, data, chains);
      forall chains' ensures !Inv(Delete(fs', name).fs, chains') {
        DeleteLeaks(fs, chains, name, data, chains');
      }
    } else {
      var slots := Slots(fs, chains);
      DeleteRepairs(fs, chains, slots, name, data);
      var i := Find(fs.dir, name, 0);
      RepresentsInv(Delete(fs', name).fs, chains[i := []], slots[i := Empty]);
    }
  }
}
