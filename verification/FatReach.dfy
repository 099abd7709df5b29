/**
 What holds of every reachable disk, damaged or not.  A reference to a block is
 a used entry that starts there or a block that links there.  Every block in
 use has at most one and every free block none, up to a single surplus
 reference that exists only while block 0 is in use without any.
 */
module FatReach {
  import opened FatModel

  predicate GoodLinks(fat: seq<int>) {
    forall b :: 0 <= b < |fat| ==> GoodLink(fat[b], |fat|)
  }

  /** Used entries that start at block x. */
  function Starts(dir: seq<Entry>, x: int): nat {
    if dir == [] then 0
    else Starts(dir[..|dir| - 1], x) + if Used(dir[|dir| - 1]) && dir[|dir| - 1].start == x then 1 else 0
  }

  /** Blocks whose table entry is x. */
  function Holding(fat: seq<int>, x: int): nat {
    if fat == [] then 0 else Holding(fat[..|fat| - 1], x) + if fat[|fat| - 1] == x then 1 else 0
  }

  /** References to block x; an entry 0 in the table is the free mark, not a link. */
  function References(fat: seq<int>, dir: seq<Entry>, x: int): nat {
    Starts(dir, x) + if x == 0 then 0 else Holding(fat, x)
  }

  function Bit(b: bool): nat {
    if b then 1 else 0
  }

  lemma {:induction false} StartsUpdate(dir: seq<Entry>, i: nat, e: Entry, x: int)
    requires i < |dir|
    ensures Starts(dir[i := e], x)
         == Starts(dir, x) + Bit(Used(e) && e.start == x) - Bit(Used(dir[i]) && dir[i].start == x)
  {
    var n := |dir| - 1;
    if i < n {
      StartsUpdate(dir[..n], i, e, x);
      assert dir[i := e][..n] == dir[..n][i := e];
    } else {
      assert dir[i := e][..n] == dir[..n];
    }
  }

  lemma {:induction false} HoldingUpdate(fat: seq<int>, b: nat, y: int, x: int)
    requires b < |fat|
    ensures Holding(fat[b := y], x) == Holding(fat, x) + Bit(y == x) - Bit(fat[b] == x)
  {
    var n := |fat| - 1;
    if b < n {
      HoldingUpdate(fat[..n], b, y, x);
      assert fat[b := y][..n] == fat[..n][b := y];
    } else {
      assert fat[b := y][..n] == fat[..n];
    }
  }

  /** The bound at block x, with `at` one more reference held by a running loop. */
  predicate Bounded(fat: seq<int>, dir: seq<Entry>, surplus: int, at: int, x: int)
    requires 0 <= x < |fat|
  {
    References(fat, dir, x) + Bit(x == at) + Bit(x == 0) <= Bit(fat[x] != 0) + Bit(x == surplus)
  }

  /** With surplus 0 there is none; any other surplus needs block 0 in use and unreferenced. */
  ghost predicate Sane(fat: seq<int>, dir: seq<Entry>, surplus: int, at: int) {
    && 0 <= surplus < |fat|
    && forall x :: 0 <= x < |fat| ==> Bounded(fat, dir, surplus, at, x)
  }

  const NOWHERE: int := END_OF_CHAIN

  ghost predicate Coherent(fs: Fs) {
    Shaped(fs) && exists surplus :: Sane(fs.fat, fs.dir, surplus, NOWHERE)
  }

  // ---------------------------------------------------------------- the release loop

  /** Freeing the block at hand and following its link passes the reference on. */
  lemma FreeStep(fat: seq<int>, dir: seq<Entry>, surplus: int, block: int)
    requires |fat| <= END_OF_CHAIN && Sane(fat, dir, surplus, block) && 0 <= block < |fat| && fat[block] != 0
    ensures Sane(fat[block := 0], dir, surplus, fat[block])
  {
    var fat1, next := fat[block := 0], fat[block];
    forall x | 0 <= x < |fat1| ensures Bounded(fat1, dir, surplus, next, x) {
      assert Bounded(fat, dir, surplus, block, x);
      HoldingUpdate(fat, block, 0, x);
    }
  }

  /** Only the surplus reference leads to a free block, and going on at block 0 uses it up. */
  lemma JumpStep(fat: seq<int>, dir: seq<Entry>, surplus: int, block: int)
    requires |fat| <= END_OF_CHAIN && Sane(fat, dir, surplus, block) && 0 <= block < |fat| && fat[block] == 0
    ensures block != 0 && fat[0] != 0 && Sane(fat, dir, 0, 0)
  {
    assert Bounded(fat, dir, surplus, block, block);
    assert Bounded(fat, dir, surplus, block, 0);
    forall x | 0 <= x < |fat| ensures Bounded(fat, dir, 0, 0, x) {
      assert Bounded(fat, dir, surplus, block, x);
    }
  }

  /** The release loop always ends, and leaves a sane table. */
  lemma {:induction false} ReleaseEnds(fat: seq<int>, dir: seq<Entry>, surplus: int, block: int) returns (surplus': int)
    requires 0 < |fat| <= END_OF_CHAIN && GoodLinks(fat) && GoodLink(block, |fat|)
    requires Sane(fat, dir, surplus, block)
    ensures Release(fat, block).Released?
    ensures Sane(Release(fat, block).fat, dir, surplus', NOWHERE)
    decreases InUse(fat), block != 0
  {
    hide Sane;
    surplus' := surplus;
    if block != END_OF_CHAIN {
      if fat[block] != 0 {
        InUseUpdate(fat, block, 0);
        assert GoodLink(fat[block], |fat|);
        SetLink(fat, block, 0);
        FreeStep(fat, dir, surplus, block);
        surplus' := ReleaseEnds(fat[block := 0], dir, surplus, fat[block]);
      } else {
        JumpStep(fat, dir, surplus, block);
        surplus' := ReleaseEnds(fat, dir, 0, 0);
      }
    }
  }

  // ---------------------------------------------------------------- create

  lemma CreateSane(fs: Fs, name: string, surplus: int)
    requires |fs.fat| <= END_OF_CHAIN && Sane(fs.fat, fs.dir, surplus, NOWHERE)
    ensures Sane(Create(fs, name).fs.fat, Create(fs, name).fs.dir, surplus, NOWHERE)
  {
    hide FindFree, Find;
    var r := Create(fs, name);
    if r.ok {
      var i, b := Find(fs.dir, "", 0), FindFree(fs.fat, 0);
      forall x | 0 <= x < |fs.fat| ensures Bounded(r.fs.fat, r.fs.dir, surplus, NOWHERE, x) {
        assert Bounded(fs.fat, fs.dir, surplus, NOWHERE, x);
        HoldingUpdate(fs.fat, b, END_OF_CHAIN, x);
        StartsUpdate(fs.dir, i, Entry(name, b, 0), x);
      }
    }
  }

  // ---------------------------------------------------------------- write

  /** Linking the lowest free block behind any block, whatever that block held. */
  lemma LinkSane(fat: seq<int>, dir: seq<Entry>, surplus: int, block: nat) returns (surplus': int)
    requires |fat| <= END_OF_CHAIN && Sane(fat, dir, surplus, NOWHERE) && block < |fat| && FindFree(fat, 0) >= 0
    ensures Sane(Link(fat, block, FindFree(fat, 0)), dir, surplus', NOWHERE)
  {
    hide FindFree;
    var spare := FindFree(fat, 0);
    var fat1 := Link(fat, block, spare);
    assert Bounded(fat, dir, surplus, NOWHERE, 0);
    surplus' := if spare == 0 then block else surplus;
    forall x | 0 <= x < |fat1| ensures Bounded(fat1, dir, surplus', NOWHERE, x) {
      assert Bounded(fat, dir, surplus, NOWHERE, x);
      HoldingUpdate(fat, block, spare, x);
      HoldingUpdate(fat[block := spare], spare, END_OF_CHAIN, x);
    }
  }

  lemma {:induction false} AppendSane(fat: seq<int>, dir: seq<Entry>, surplus: int, area: seq<char>, block: int, off: int, bytes: seq<char>)
    returns (surplus': int)
    requires |area| == BLOCK_SIZE * |fat| && 0 <= block < |fat| <= END_OF_CHAIN && 0 <= off <= BLOCK_SIZE
    requires Sane(fat, dir, surplus, NOWHERE)
    ensures Sane(Append(fat, area, block, off, bytes).fat, dir, surplus', NOWHERE)
    decreases |bytes|, 1
  {
    hide Sane, FindFree, FillBlock;
    surplus' := surplus;
    if bytes != [] {
      if off < BLOCK_SIZE {
        surplus' := FillSane(fat, dir, surplus, area, block, off, bytes);
      } else if FindFree(fat, 0) >= 0 {
        var spare := FindFree(fat, 0);
        surplus' := LinkSane(fat, dir, surplus, block);
        surplus' := FillSane(Link(fat, block, spare), dir, surplus', area, spare, 0, bytes);
      }
    }
  }

  lemma {:induction false} FillSane(fat: seq<int>, dir: seq<Entry>, surplus: int, area: seq<char>, block: int, off: int, bytes: seq<char>)
    returns (surplus': int)
    requires |area| == BLOCK_SIZE * |fat| && 0 <= block < |fat| <= END_OF_CHAIN && 0 <= off < BLOCK_SIZE && bytes != []
    requires Sane(fat, dir, surplus, NOWHERE)
    ensures Sane(FillBlock(fat, area, block, off, bytes).fat, dir, surplus', NOWHERE)
    decreases |bytes|, 0
  {
    hide Sane, Append, Store;
    var n := Portion(off, bytes);
    surplus' := AppendSane(fat, dir, surplus, Store(area, BLOCK_SIZE * block + off, bytes[..n]), block, off + n, bytes[n..]);
  }

  /** Sizes play no part in what refers to what. */
  lemma ResizeSane(fat: seq<int>, dir: seq<Entry>, surplus: int, i: nat, size: int)
    requires Sane(fat, dir, surplus, NOWHERE) && i < |dir|
    ensures Sane(fat, dir[i := dir[i].(size := size)], surplus, NOWHERE)
  {
    var dir1 := dir[i := dir[i].(size := size)];
    forall x | 0 <= x < |fat| ensures Bounded(fat, dir1, surplus, NOWHERE, x) {
      assert Bounded(fat, dir, surplus, NOWHERE, x);
      StartsUpdate(dir, i, dir[i].(size := size), x);
    }
  }

  // ---------------------------------------------------------------- delete

  /** Clearing an entry hands its reference to the release loop. */
  lemma ClearSane(fat: seq<int>, dir: seq<Entry>, surplus: int, i: nat)
    requires |fat| <= END_OF_CHAIN && Sane(fat, dir, surplus, NOWHERE) && i < |dir| && Used(dir[i])
    ensures Sane(fat, dir[i := dir[i].(name := "")], surplus, dir[i].start)
  {
    var dir1 := dir[i := dir[i].(name := "")];
    forall x | 0 <= x < |fat| ensures Bounded(fat, dir1, surplus, dir[i].start, x) {
      assert Bounded(fat, dir, surplus, NOWHERE, x);
      StartsUpdate(dir, i, dir[i].(name := ""), x);
    }
  }

  // ---------------------------------------------------------------- links stay in range

  lemma SetLink(fat: seq<int>, b: nat, x: int)
    requires GoodLinks(fat) && b < |fat| && GoodLink(x, |fat|)
    ensures GoodLinks(fat[b := x])
  {
    var next := fat[b := x];
    forall c | 0 <= c < |next| ensures GoodLink(next[c], |next|) {
      assert GoodLink(fat[c], |fat|);
    }
  }

  lemma {:induction false} AppendLinks(fat: seq<int>, area: seq<char>, block: int, off: int, bytes: seq<char>)
    requires |area| == BLOCK_SIZE * |fat| && 0 <= block < |fat| && 0 <= off <= BLOCK_SIZE && GoodLinks(fat)
    ensures GoodLinks(Append(fat, area, block, off, bytes).fat)
    decreases |bytes|, 1
  {
    hide GoodLinks, GoodLink;
    if bytes != [] {
      if off < BLOCK_SIZE {
        FillLinks(fat, area, block, off, bytes);
      } else if FindFree(fat, 0) >= 0 {
        var spare := FindFree(fat, 0);
        LinkLinks(fat, block, spare);
        FillLinks(Link(fat, block, spare), area, spare, 0, bytes);
      }
    }
  }

  lemma LinkLinks(fat: seq<int>, block: nat, spare: nat)
    requires block < |fat| && spare < |fat| && GoodLinks(fat)
    ensures GoodLinks(Link(fat, block, spare))
  {
    SetLink(fat, block, spare);
    SetLink(fat[block := spare], spare, END_OF_CHAIN);
  }

  lemma {:induction false} FillLinks(fat: seq<int>, area: seq<char>, block: int, off: int, bytes: seq<char>)
    requires |area| == BLOCK_SIZE * |fat| && 0 <= block < |fat| && 0 <= off < BLOCK_SIZE && bytes != [] && GoodLinks(fat)
    ensures GoodLinks(FillBlock(fat, area, block, off, bytes).fat)
    decreases |bytes|, 0
  {
    hide GoodLinks, GoodLink;
    var n := Portion(off, bytes);
    AppendLinks(fat, Store(area, BLOCK_SIZE * block + off, bytes[..n]), block, off + n, bytes[n..]);
  }

  lemma {:induction false} ReleaseLinks(fat: seq<int>, block: int)
    requires 0 < |fat| <= END_OF_CHAIN && GoodLinks(fat) && GoodLink(block, |fat|)
    ensures Release(fat, block).Released? ==> GoodLinks(Release(fat, block).fat)
    decreases InUse(fat), block != 0
  {
    if block != END_OF_CHAIN {
      if fat[block] != 0 {
        InUseUpdate(fat, block, 0);
        SetLink(fat, block, 0);
        ReleaseLinks(fat[block := 0], fat[block]);
      } else if block != 0 {
        ReleaseLinks(fat, 0);
      }
    }
  }

  lemma CreatedShaped(fs: Fs, name: string)
    requires Shaped(fs)
    ensures Shaped(Create(fs, name).fs)
  {
    hide FindFree, Find;
    var fs' := Create(fs, name).fs;
    forall x | 0 <= x < |fs'.fat| ensures GoodLink(fs'.fat[x], |fs'.fat|) {
      assert GoodLink(fs.fat[x], |fs.fat|);
    }
  }

  lemma WriteShaped(fs: Fs, name: string, data: string)
    requires Shaped(fs) && name != ""
    ensures Shaped(Write(fs, name, data).fs)
  {
    hide Append, Find, Seek;
    var i := Find(fs.dir, name, 0);
    if i >= 0 {
      var e := fs.dir[i];
      assert Used(e);
      AppendLinks(fs.fat, fs.area, Seek(fs.fat, e.start, e.size), e.size % BLOCK_SIZE, data);
    }
  }

  lemma DeleteShaped(fs: Fs, name: string)
    requires Shaped(fs) && name != "" && Delete(fs, name).Deletion?
    ensures Shaped(Delete(fs, name).fs)
  {
    hide Release, Find;
    var i := Find(fs.dir, name, 0);
    if i >= 0 {
      assert Used(fs.dir[i]);
      ReleaseLinks(fs.fat, fs.dir[i].start);
    }
  }

  // ---------------------------------------------------------------- every operation

  lemma CreateCoherent(fs: Fs, name: string)
    requires Coherent(fs)
    ensures Coherent(Create(fs, name).fs)
  {
    hide Sane, Create, Shaped;
    ShapedSize(fs);
    var surplus :| Sane(fs.fat, fs.dir, surplus, NOWHERE);
    CreateSane(fs, name, surplus);
    CreatedShaped(fs, name);
  }

  lemma ShapedSize(fs: Fs)
    requires Shaped(fs)
    ensures 0 < |fs.fat| <= END_OF_CHAIN && |fs.area| == BLOCK_SIZE * |fs.fat| && GoodLinks(fs.fat)
    ensures forall i :: 0 <= i < |fs.dir| && Used(fs.dir[i]) ==> 0 <= fs.dir[i].start < |fs.fat| && 0 <= fs.dir[i].size
  {}

  lemma WriteCoherent(fs: Fs, name: string, data: string)
    requires Coherent(fs) && name != ""
    ensures Coherent(Write(fs, name, data).fs)
  {
    hide Sane, Append, Find, Seek;
    WriteShaped(fs, name, data);
    var surplus :| Sane(fs.fat, fs.dir, surplus, NOWHERE);
    var i := Find(fs.dir, name, 0);
    if i >= 0 {
      var e := fs.dir[i];
      assert Used(e);
      var block := Seek(fs.fat, e.start, e.size);
      var surplus' := AppendSane(fs.fat, fs.dir, surplus, fs.area, block, e.size % BLOCK_SIZE, data);
      var r := Append(fs.fat, fs.area, block, e.size % BLOCK_SIZE, data);
      ResizeSane(r.fat, fs.dir, surplus', i, e.size + r.written);
    }
  }

  /** Delete returns on every reachable disk, however damaged. */
  lemma DeleteCoherent(fs: Fs, name: string)
    requires Coherent(fs) && name != ""
    ensures Delete(fs, name).Deletion? && Coherent(Delete(fs, name).fs)
  {
    hide Sane, Release, Find;
    var surplus :| Sane(fs.fat, fs.dir, surplus, NOWHERE);
    var i := Find(fs.dir, name, 0);
    if i >= 0 {
      assert Used(fs.dir[i]);
      ClearSane(fs.fat, fs.dir, surplus, i);
      var surplus' := ReleaseEnds(fs.fat, fs.dir[i := fs.dir[i].(name := "")], surplus, fs.dir[i].start);
      DeleteShaped(fs, name);
    }
  }

  // ---------------------------------------------------------------- the zeroed disk

  ghost predicate Blank(fs: Fs) {
    && 0 < |fs.fat| <= END_OF_CHAIN && |fs.area| == BLOCK_SIZE * |fs.fat|
    && (forall b :: 0 <= b < |fs.fat| ==> fs.fat[b] == 0)
    && (forall i :: 0 <= i < |fs.dir| ==> fs.dir[i] == Entry("", 0, 0))
  }

  lemma {:induction false} NoStarts(dir: seq<Entry>, x: int)
    requires forall i :: 0 <= i < |dir| ==> !Used(dir[i])
    ensures Starts(dir, x) == 0
  {
    if dir != [] {
      NoStarts(dir[..|dir| - 1], x);
    }
  }

  lemma {:induction false} NoneHolding(fat: seq<int>, x: int)
    requires x != 0 && forall b :: 0 <= b < |fat| ==> fat[b] == 0
    ensures Holding(fat, x) == 0
  {
    if fat != [] {
      NoneHolding(fat[..|fat| - 1], x);
    }
  }

  lemma BlankCoherent(fs: Fs)
    requires Blank(fs)
    ensures Coherent(fs)
  {
    assert Sane(fs.fat, fs.dir, 0, NOWHERE) by {
      forall x | 0 <= x < |fs.fat| ensures Bounded(fs.fat, fs.dir, 0, NOWHERE, x) {
        NoStarts(fs.dir, x);
        if x != 0 {
          NoneHolding(fs.fat, x);
        }
      }
    }
  }
}
