/** Each operation against the invariant and against what the user sees. */
module FatOps {
  import opened Sets
  import opened FatModel
  import opened FatChains
  import opened FatAppend
  import opened FatFrame
  import opened FatSpec
  import opened FatReach

  // ---------------------------------------------------------------- create

  lemma FreeMeansRoom(fat: seq<int>)
    ensures FindFree(fat, 0) >= 0 <==> InUse(fat) < |fat|
  {
    var b := FindFree(fat, 0);
    if b < 0 {
      NoFreeBlock(fat);
    } else {
      InUseUpdate(fat, b, END_OF_CHAIN);
      BusyExact(fat[b := END_OF_CHAIN]);
    }
  }

  lemma NewNameIsNew(dir: seq<Entry>, name: string)
    requires Find(dir, name, 0) < 0
    ensures forall j :: 0 <= j < |dir| ==> dir[j].name != name
  {
    forall j | 0 <= j < |dir| ensures dir[j].name != name {
      if dir[j].name == name {
        FindFirst(dir, name, 0, j);
      }
    }
  }

  lemma CreatedFile(fs: Fs, name: string, b: nat)
    requires |fs.area| == BLOCK_SIZE * |fs.fat| && b < |fs.fat| && fs.fat[b] == END_OF_CHAIN && name != ""
    ensures Shows(fs, Entry(name, b, 0), [b], File(name, ""))
  {
    assert IsChain(fs.fat, b, [b]);
  }

  lemma CreateSwaps(fs: Fs, chains: seq<seq<int>>, name: string)
    requires Inv(fs, chains) && name != "" && Create(fs, name).ok
    ensures var i, b := Find(fs.dir, "", 0), FindFree(fs.fat, 0);
            && 0 <= i && Swaps(fs, chains, i, Create(fs, name).fs, Entry(name, b, 0), [b])
            && Shows(Create(fs, name).fs, Entry(name, b, 0), [b], File(name, ""))
  {
    hide Owned, FileOk, View, FindFree, Find, Shaped;
    var i, b := Find(fs.dir, "", 0), FindFree(fs.fat, 0);
    var fs' := Create(fs, name).fs;
    NewNameIsNew(fs.dir, name);
    ShapedArea(fs);
    CreatedShaped(fs, name);
    CreatedFile(fs', name, b);
    assert SlotOk(fs, fs.dir[i], chains[i]);
    assert chains[i] == [];
  }

  /** Create succeeds exactly when the name is new and a slot and a block are free. */
  lemma CreateRefines(fs: Fs, chains: seq<seq<int>>, slots: seq<Slot>, name: string) returns (chains': seq<seq<int>>)
    requires Represents(fs, chains, slots) && name != ""
    ensures var r, a := Create(fs, name), Spec(|fs.fat|, slots, DoCreate(name));
            r.ok == a.reply.ok && Represents(r.fs, chains', a.slots)
  {
    hide Inv, Shows, Swaps, FindFree, Find;
    FindAgrees(fs, chains, slots, name, 0);
    EmptyAgrees(fs, chains, slots, 0);
    FreeAgrees(fs, chains, slots);
    FreeMeansRoom(fs.fat);
    chains' := chains;
    var r := Create(fs, name);
    if r.ok {
      var i, b := Find(fs.dir, "", 0), FindFree(fs.fat, 0);
      CreateSwaps(fs, chains, name);
      SwapShows(fs, chains, slots, i, r.fs, Entry(name, b, 0), [b], File(name, ""));
      chains' := chains[i := [b]];
    }
  }

  // ---------------------------------------------------------------- write

  /** The file ends exactly at the end of its last block, which the append then overwrites. */
  predicate Overlays(e: Entry, data: string) {
    e.size > 0 && e.size % BLOCK_SIZE == 0 && data != []
  }

  /** The append needs another block and block 0 is the lowest free one. */
  predicate LinksZero(fs: Fs, e: Entry, data: string)
    requires |fs.fat| > 0
  {
    |data| > BLOCK_SIZE - e.size % BLOCK_SIZE && fs.fat[0] == 0
  }

  lemma {:induction false} SeekLast(fat: seq<int>, start: int, ch: seq<int>, j: nat, remain: int)
    requires IsChain(fat, start, ch) && j < |ch| && |fat| <= END_OF_CHAIN
    requires forall b :: 0 <= b < |fat| ==> GoodLink(fat[b], |fat|)
    requires 0 <= remain && |ch| - j == BlocksFor(remain)
    ensures Seek(fat, ch[j], remain) == ch[|ch| - 1]
    decreases remain
  {
    assert j < |ch| - 1 ==> LinkAt(fat, ch, j);
    if remain >= BLOCK_SIZE && fat[ch[j]] != END_OF_CHAIN {
      SeekLast(fat, start, ch, j + 1, remain - BLOCK_SIZE);
    }
  }

  /** The entry a write finds, ready for its append. */
  lemma WriteReady(fs: Fs, chains: seq<seq<int>>, name: string)
    requires Inv(fs, chains) && name != "" && Find(fs.dir, name, 0) >= 0
    ensures var i := Find(fs.dir, name, 0);
            && i < |chains| && Used(fs.dir[i]) && FileOk(fs, fs.dir[i], chains[i])
            && Ready(fs.fat, fs.area, fs.dir[i].start, chains[i], fs.dir[i].size % BLOCK_SIZE)
            && Seek(fs.fat, fs.dir[i].start, fs.dir[i].size) == chains[i][|chains[i]| - 1]
  {
    hide Owned;
    var i := Find(fs.dir, name, 0);
    assert SlotOk(fs, fs.dir[i], chains[i]);
    SeekLast(fs.fat, fs.dir[i].start, chains[i], 0, fs.dir[i].size);
  }

  lemma GrownLinks(fat: seq<int>, start: int, ch: seq<int>, fat': seq<int>, ext: seq<int>)
    requires IsChain(fat, start, ch) && GrownFat(fat, start, ch, fat', ext)
    requires forall b :: 0 <= b < |fat| ==> GoodLink(fat[b], |fat|)
    ensures forall b :: 0 <= b < |fat'| ==> GoodLink(fat'[b], |fat'|)
  {
    var all := ch + ext;
    forall b | 0 <= b < |fat'| ensures GoodLink(fat'[b], |fat'|) {
      if b in all {
        var j :| 0 <= j < |all| && all[j] == b;
        assert j < |all| - 1 ==> LinkAt(fat', all, j);
      } else {
        assert b !in ext && b != ch[|ch| - 1];
        assert GoodLink(fat[b], |fat|);
      }
    }
  }

  /** Without an overlay the append starts at the end of the file. */
  lemma StartsAtEnd(e: Entry, ch: seq<int>)
    requires 0 <= e.size && |ch| == BlocksFor(e.size) && !(e.size > 0 && e.size % BLOCK_SIZE == 0)
    ensures Position(ch, e.size % BLOCK_SIZE) == e.size
    ensures BLOCK_SIZE - e.size % BLOCK_SIZE == BLOCK_SIZE * BlocksFor(e.size) - e.size
  {}

  lemma GrownLength(e: Entry, ch: seq<int>, ext: seq<int>, written: nat)
    requires 0 <= e.size && |ch| == BlocksFor(e.size)
    requires e.size + written <= BLOCK_SIZE * |ch + ext|
    requires ext != [] ==> BLOCK_SIZE * (|ch + ext| - 1) < e.size + written
    ensures |ch + ext| == BlocksFor(e.size + written)
  {}

  lemma GrownContent(area: seq<char>, ch: seq<int>, size: int, bytes: string, area': seq<char>, ext: seq<int>, off: int)
    requires GrownArea(area, ch, off, bytes, area', ext) && Position(ch, off) == size >= 0
    requires NUL !in Content(area, ch, size) && NUL !in bytes
    ensures Content(area', ch + ext, size + |bytes|) == Content(area, ch, size) + bytes
    ensures NUL !in Content(area', ch + ext, size + |bytes|)
  {}

  /** The file after an append of `bytes`. */
  lemma GrownFile(fs: Fs, e: Entry, ch: seq<int>, data: string, r: Appended, ext: seq<int>)
    requires Used(e) && FileOk(fs, e, ch) && !(e.size > 0 && e.size % BLOCK_SIZE == 0) && NUL !in data
    requires Grown(fs.fat, fs.area, e.start, ch, e.size % BLOCK_SIZE, data, r, ext)
    ensures Shows(Fs(r.fat, fs.dir, r.area), e.(size := e.size + r.written), ch + ext,
                  File(e.name, Content(fs.area, ch, e.size) + data[..r.written]))
  {
    hide GrownFat, IsChain, Flat;
    StartsAtEnd(e, ch);
    GrownContent(fs.area, ch, e.size, data[..r.written], r.area, ext, e.size % BLOCK_SIZE);
    GrownLength(e, ch, ext, r.written);
    GrownIsChain(fs.fat, e.start, ch, r.fat, ext);
  }

  lemma GrownIsChain(fat: seq<int>, start: int, ch: seq<int>, fat': seq<int>, ext: seq<int>)
    requires GrownFat(fat, start, ch, fat', ext)
    ensures |fat'| == |fat| && IsChain(fat', start, ch + ext) && Distinct(ch + ext)
  {}

  lemma OtherNames(fs: Fs, chains: seq<seq<int>>, i: nat, name: string)
    requires Inv(fs, chains) && i < |fs.dir| && fs.dir[i].name == name != ""
    ensures forall j :: 0 <= j < |fs.dir| && j != i ==> fs.dir[j].name != name
  {
    forall j | 0 <= j < |fs.dir| && j != i ensures fs.dir[j].name != name {
      if j < i {
        assert Used(fs.dir[j]) ==> fs.dir[j].name != fs.dir[i].name;
      } else {
        assert Used(fs.dir[i]) && fs.dir[i].name != fs.dir[j].name;
      }
    }
  }

  lemma GrownSwaps(fs: Fs, chains: seq<seq<int>>, i: nat, r: Appended, ext: seq<int>, off: int, data: string)
    requires Inv(fs, chains) && i < |fs.dir| && Used(fs.dir[i]) && FileOk(fs, fs.dir[i], chains[i])
    requires Grown(fs.fat, fs.area, fs.dir[i].start, chains[i], off, data, r, ext)
    requires var e := fs.dir[i].(size := fs.dir[i].size + r.written);
             SlotOk(Fs(r.fat, fs.dir, r.area), e, chains[i] + ext)
    ensures var e := fs.dir[i].(size := fs.dir[i].size + r.written);
            Swaps(fs, chains, i, Fs(r.fat, fs.dir[i := e], r.area), e, chains[i] + ext)
  {
    hide Owned, Flat, Measured;
    var e, ch := fs.dir[i].(size := fs.dir[i].size + r.written), chains[i];
    var fs' := Fs(r.fat, fs.dir[i := e], r.area);
    GrownLinks(fs.fat, e.start, ch, r.fat, ext);
    OtherNames(fs, chains, i, e.name);
    SameSlot(Fs(r.fat, fs.dir, r.area), fs', e, ch + ext);
    assert ch[|ch| - 1] in ch;
    assert Shaped(fs') by {
      forall j | 0 <= j < |fs'.dir| && Used(fs'.dir[j]) ensures 0 <= fs'.dir[j].start < |fs'.fat| && 0 <= fs'.dir[j].size {
        assert Used(fs.dir[j]);
      }
    }
    ChainBusy(fs.fat, e.start, ch);
    forall b | 0 <= b < |fs.fat| && b !in ch && b !in ch + ext ensures BlockKept(fs, fs', b) {}
  }

  /** The directory plays no part in whether one file is in order. */
  lemma SameSlot(fs: Fs, fs': Fs, e: Entry, ch: seq<int>)
    requires SlotOk(fs, e, ch) && fs'.fat == fs.fat && fs'.area == fs.area
    ensures SlotOk(fs', e, ch) && View(fs', e, ch) == View(fs, e, ch)
  {}

  /** A safe write appends as much as fits; nothing else changes. */
  lemma WriteRefines(fs: Fs, chains: seq<seq<int>>, slots: seq<Slot>, name: string, data: string)
    returns (chains': seq<seq<int>>)
    requires Represents(fs, chains, slots) && name != "" && NUL !in data
    requires var i := Find(fs.dir, name, 0);
             i >= 0 ==> !Overlays(fs.dir[i], data) && !LinksZero(fs, fs.dir[i], data)
    ensures var r, a := Write(fs, name, data), Spec(|fs.fat|, slots, DoWrite(name, data));
            r.ok == a.reply.ok && Represents(r.fs, chains', a.slots)
  {
    hide Inv, Shows, Swaps, Find, Append, Shaped, FileOk, Ready, Grown, Seek;
    InvShaped(fs, chains);
    FindAgrees(fs, chains, slots, name, 0);
    chains' := chains;
    var i := Find(fs.dir, name, 0);
    if i >= 0 {
      if data == [] {
        WriteNothing(fs, chains, name);
        assert Shows(fs, fs.dir[i], chains[i], slots[i]);
        RoomNotNegative(fs, chains, slots, i);
        assert slots[i].content + [] == slots[i].content;
      } else {
        chains' := WriteSome(fs, chains, slots, name, data);
      }
    }
  }

  lemma InvShaped(fs: Fs, chains: seq<seq<int>>)
    requires Inv(fs, chains)
    ensures Shaped(fs) && |fs.fat| > 0
  {}

  lemma WriteNothing(fs: Fs, chains: seq<seq<int>>, name: string)
    requires Inv(fs, chains) && name != "" && Find(fs.dir, name, 0) >= 0
    ensures Write(fs, name, []) == Outcome(true, fs)
  {
    hide Owned, SlotOk, Find, Seek;
    var i := Find(fs.dir, name, 0);
    assert fs.dir[i := fs.dir[i]] == fs.dir;
  }

  lemma RoomNotNegative(fs: Fs, chains: seq<seq<int>>, slots: seq<Slot>, i: nat)
    requires Represents(fs, chains, slots) && i < |slots| && slots[i].File?
    ensures 0 <= Room(|fs.fat|, slots, slots[i].content)
  {
    hide Inv;
    FreeAgrees(fs, chains, slots);
    BusyExact(fs.fat);
    assert Shows(fs, fs.dir[i], chains[i], slots[i]);
  }

  lemma WriteSome(fs: Fs, chains: seq<seq<int>>, slots: seq<Slot>, name: string, data: string)
    returns (chains': seq<seq<int>>)
    requires Represents(fs, chains, slots) && name != "" && NUL !in data && data != []
    requires var i := Find(fs.dir, name, 0); i >= 0 && !Overlays(fs.dir[i], data)
    requires |fs.fat| > 0 && !LinksZero(fs, fs.dir[Find(fs.dir, name, 0)], data)
    ensures Shaped(fs) && FindSlot(slots, name, 0) == Find(fs.dir, name, 0)
    ensures Represents(Write(fs, name, data).fs, chains', Spec(|fs.fat|, slots, DoWrite(name, data)).slots)
  {
    hide Inv, Swaps, Find, Append, Shaped, Ready, GrownFat, GrownArea, Seek, SlotOk, FileOk, View, Content;
    InvShaped(fs, chains);
    FindAgrees(fs, chains, slots, name, 0);
    var i := Find(fs.dir, name, 0);
    var e, ch := fs.dir[i], chains[i];
    WriteReady(fs, chains, name);
    ReadyLast(fs.fat, fs.area, e.start, ch, e.size % BLOCK_SIZE);
    var ext := AppendGrows(fs.fat, fs.area, e.start, ch, e.size % BLOCK_SIZE, data);
    var r := Append(fs.fat, fs.area, ch[|ch| - 1], e.size % BLOCK_SIZE, data);
    GrownFile(fs, e, ch, data, r, ext);
    GrownSwaps(fs, chains, i, r, ext, e.size % BLOCK_SIZE, data);
    var e' := e.(size := e.size + r.written);
    var fs' := Fs(r.fat, fs.dir[i := e'], r.area);
    assert Write(fs, name, data).fs == fs';
    assert Shows(fs, e, ch, slots[i]);
    SameSlot(Fs(r.fat, fs.dir, r.area), fs', e', ch + ext);
    ShownFile(fs, e, ch, slots[i]);
    FreeAgrees(fs, chains, slots);
    StartsAtEnd(e, ch);
    SwapShows(fs, chains, slots, i, fs', e', ch + ext, File(name, slots[i].content + data[..r.written]));
    chains' := chains[i := ch + ext];
  }

  lemma ShownFile(fs: Fs, e: Entry, ch: seq<int>, slot: Slot)
    requires Shows(fs, e, ch, slot) && Used(e)
    ensures FileOk(fs, e, ch) && 0 <= e.size && |ch| == BlocksFor(e.size)
    ensures slot == File(e.name, Content(fs.area, ch, e.size)) && |slot.content| == e.size
  {}

  // ---------------------------------------------------------------- when a write does damage

  lemma {:induction false} KeepsZeroBusy(fat: seq<int>, area: seq<char>, block: int, off: int, bytes: seq<char>)
    requires |area| == BLOCK_SIZE * |fat| && 0 <= block < |fat| && 0 <= off <= BLOCK_SIZE && fat[0] != 0
    ensures Append(fat, area, block, off, bytes).fat[0] != 0
    decreases |bytes|, 1
  {
    if bytes != [] {
      if off < BLOCK_SIZE {
        KeepsZeroInBlock(fat, area, block, off, bytes);
      } else if FindFree(fat, 0) >= 0 {
        var spare := FindFree(fat, 0);
        KeepsZeroInBlock(Link(fat, block, spare), area, spare, 0, bytes);
      }
    }
  }

  lemma {:induction false} KeepsZeroInBlock(fat: seq<int>, area: seq<char>, block: int, off: int, bytes: seq<char>)
    requires |area| == BLOCK_SIZE * |fat| && 0 <= block < |fat| && 0 <= off < BLOCK_SIZE && bytes != [] && fat[0] != 0
    ensures FillBlock(fat, area, block, off, bytes).fat[0] != 0
    decreases |bytes|, 0
  {
    var n := Portion(off, bytes);
    KeepsZeroBusy(fat, Store(area, BLOCK_SIZE * block + off, bytes[..n]), block, off + n, bytes[n..]);
  }

  /** A linking append takes block 0 if it is free. */
  lemma TakesZero(fat: seq<int>, area: seq<char>, block: int, off: int, bytes: seq<char>)
    requires |area| == BLOCK_SIZE * |fat| && 0 <= block < |fat| && 0 <= off <= BLOCK_SIZE
    requires fat[0] == 0 && fat[block] != 0 && |bytes| > BLOCK_SIZE - off
    ensures Append(fat, area, block, off, bytes).fat[0] != 0
    decreases |bytes|
  {
    if off < BLOCK_SIZE {
      var n := Portion(off, bytes);
      TakesZero(fat, Store(area, BLOCK_SIZE * block + off, bytes[..n]), block, BLOCK_SIZE, bytes[n..]);
    } else {
      assert FindFree(fat, 0) == 0;
      KeepsZeroInBlock(Link(fat, block, 0), area, 0, 0, bytes);
    }
  }

  lemma ZeroOnlyFirst(fat: seq<int>, start: int, ch: seq<int>)
    requires IsChain(fat, start, ch)
    ensures forall j :: 1 <= j < |ch| ==> ch[j] != 0
  {
    forall j | 1 <= j < |ch| ensures ch[j] != 0 {
      assert LinkAt(fat, ch, j - 1);
    }
  }

  /** Block 0 can only head a chain. */
  lemma ZeroHeads(fs: Fs, chains: seq<seq<int>>)
    requires Inv(fs, chains) && fs.fat[0] != 0
    ensures exists i :: 0 <= i < |fs.dir| && Used(fs.dir[i]) && fs.dir[i].start == 0
  {
    assert Owned(chains, 0);
    var i :| 0 <= i < |chains| && 0 in chains[i];
    assert SlotOk(fs, fs.dir[i], chains[i]);
    var j :| 0 <= j < |chains[i]| && chains[i][j] == 0;
    ZeroOnlyFirst(fs.fat, fs.dir[i].start, chains[i]);
  }

  lemma NobodyStartsAtFree(fs: Fs, chains: seq<seq<int>>)
    requires Inv(fs, chains) && fs.fat[0] == 0
    ensures forall i :: 0 <= i < |fs.dir| && Used(fs.dir[i]) ==> fs.dir[i].start != 0
  {
    hide Owned;
    forall i | 0 <= i < |fs.dir| && Used(fs.dir[i]) ensures fs.dir[i].start != 0 {
      assert SlotOk(fs, fs.dir[i], chains[i]);
      ChainBusy(fs.fat, fs.dir[i].start, chains[i]);
      assert chains[i][0] in chains[i];
    }
  }

  lemma ChainAvoidsZero(fat: seq<int>, start: int, ch: seq<int>)
    requires IsChain(fat, start, ch) && start != 0
    ensures 0 !in ch
  {
    ZeroOnlyFirst(fat, start, ch);
  }

  /** Linking to block 0 leaks it: in use, but in no file's chain. */
  lemma LinkToZeroLeaks(fs: Fs, chains: seq<seq<int>>, name: string, data: string)
    requires Inv(fs, chains) && name != "" && Find(fs.dir, name, 0) >= 0
    requires LinksZero(fs, fs.dir[Find(fs.dir, name, 0)], data)
    ensures var fs' := Write(fs, name, data).fs;
            && |fs'.fat| == |fs.fat| && fs'.fat[0] != 0
            && forall j, ch :: 0 <= j < |fs'.dir| && Used(fs'.dir[j]) && IsChain(fs'.fat, fs'.dir[j].start, ch) ==> 0 !in ch
    ensures forall chains' :: !Inv(Write(fs, name, data).fs, chains')
  {
    hide Append, Find, Seek, IsChain, FileOk, Owned, Shaped, SlotOk;
    InvShaped(fs, chains);
    var i := Find(fs.dir, name, 0);
    var e, ch := fs.dir[i], chains[i];
    WriteReady(fs, chains, name);
    ReadyLast(fs.fat, fs.area, e.start, ch, e.size % BLOCK_SIZE);
    TakesZero(fs.fat, fs.area, ch[|ch| - 1], e.size % BLOCK_SIZE, data);
    NobodyStartsAtFree(fs, chains);
    ZeroLeaked(fs, name, data, i);
  }

  lemma ZeroLeaked(fs: Fs, name: string, data: string, i: nat)
    requires Shaped(fs) && name != "" && i == Find(fs.dir, name, 0)
    requires Write(fs, name, data).fs.fat != [] && Write(fs, name, data).fs.fat[0] != 0
    requires forall j :: 0 <= j < |fs.dir| && Used(fs.dir[j]) ==> fs.dir[j].start != 0
    ensures var fs' := Write(fs, name, data).fs;
            forall j, ch :: 0 <= j < |fs'.dir| && Used(fs'.dir[j]) && IsChain(fs'.fat, fs'.dir[j].start, ch) ==> 0 !in ch
    ensures forall chains' :: !Inv(Write(fs, name, data).fs, chains')
  {
    hide Append, Find, Seek, Shaped, IsChain, Inv;
    var fs' := Write(fs, name, data).fs;
    SameEntries(fs, name, data);
    forall j, ch | 0 <= j < |fs'.dir| && Used(fs'.dir[j]) && IsChain(fs'.fat, fs'.dir[j].start, ch) ensures 0 !in ch {
      assert Used(fs.dir[j]);
      ChainAvoidsZero(fs'.fat, fs'.dir[j].start, ch);
    }
    forall chains' ensures !Inv(fs', chains') {
      if Inv(fs', chains') {
        ZeroHeads(fs', chains');
      }
    }
  }

  /** A write changes no name and no start block. */
  lemma SameEntries(fs: Fs, name: string, data: string)
    requires Shaped(fs) && name != ""
    ensures var fs' := Write(fs, name, data).fs;
            && |fs'.dir| == |fs.dir|
            && forall j :: 0 <= j < |fs.dir| ==> fs'.dir[j].start == fs.dir[j].start && fs'.dir[j].name == fs.dir[j].name
  {
    hide Append, Find, Seek, Shaped;
  }

  // ---------------------------------------------------------------- overlays

  /** The blocks a read goes through: links as they stand, a free mark leading to block 0. */
  predicate FollowsAt(fat: seq<int>, path: seq<int>, j: nat)
    requires j + 1 < |path| && 0 <= path[j] < |fat|
  {
    fat[path[j]] == path[j + 1]
  }

  ghost predicate IsPath(fat: seq<int>, start: int, path: seq<int>) {
    && path != [] && path[0] == start && InDisk(|fat|, path) && Distinct(path)
    && (forall j :: 0 <= j < |path| - 1 ==> FollowsAt(fat, path, j))
    && fat[path[|path| - 1]] == END_OF_CHAIN
  }

  lemma ChainIsPath(fat: seq<int>, start: int, ch: seq<int>)
    requires IsChain(fat, start, ch) && Distinct(ch)
    ensures IsPath(fat, start, ch)
  {
    forall j | 0 <= j < |ch| - 1 ensures FollowsAt(fat, ch, j) {
      assert LinkAt(fat, ch, j);
    }
  }

  lemma {:induction false} PathPrefix(fat: seq<int>, start: int, a: seq<int>, b: seq<int>, j: nat)
    requires |fat| <= END_OF_CHAIN && IsPath(fat, start, a) && IsPath(fat, start, b) && j < |a| && j < |b|
    ensures a[j] == b[j]
  {
    if j > 0 {
      PathPrefix(fat, start, a, b, j - 1);
      assert FollowsAt(fat, a, j - 1) && FollowsAt(fat, b, j - 1);
    }
  }

  lemma PathGoesOn(fat: seq<int>, start: int, path: seq<int>)
    requires |fat| <= END_OF_CHAIN && IsPath(fat, start, path)
    ensures forall j :: 0 <= j < |path| - 1 ==> fat[path[j]] != END_OF_CHAIN
  {
    forall j | 0 <= j < |path| - 1 ensures fat[path[j]] != END_OF_CHAIN {
      assert FollowsAt(fat, path, j);
    }
  }

  /** Paths from one block to the end have one length. */
  lemma PathLength(fat: seq<int>, start: int, a: seq<int>, b: seq<int>)
    requires |fat| <= END_OF_CHAIN && IsPath(fat, start, a) && IsPath(fat, start, b)
    ensures |a| == |b|
  {
    PathGoesOn(fat, start, a);
    PathGoesOn(fat, start, b);
    var n := if |a| < |b| then |a| - 1 else |b| - 1;
    PathPrefix(fat, start, a, b, n);
  }

  /** Linking a free block: it extends the path, or cuts it back if it lies on it. */
  lemma LinkPath(fat: seq<int>, start: int, path: seq<int>, spare: nat) returns (path': seq<int>)
    requires |fat| <= END_OF_CHAIN && IsPath(fat, start, path) && spare < |fat| && fat[spare] == 0
    ensures IsPath(Link(fat, path[|path| - 1], spare), start, path') && path'[|path'| - 1] == spare
    ensures if spare in path then |path'| < |path| && path' == path[..|path'|] else path' == path + [spare]
  {
    var n := |path| - 1;
    var fat' := Link(fat, path[n], spare);
    if spare in path {
      var j :| 0 <= j < |path| && path[j] == spare;
      path' := path[..j + 1];
      forall k | 0 <= k < |path'| - 1 ensures FollowsAt(fat', path', k) {
        assert FollowsAt(fat, path, k);
        assert path[k] != path[n] && path[k] != path[j];
      }
    } else {
      path' := path + [spare];
      forall k | 0 <= k < |path'| - 1 ensures FollowsAt(fat', path', k) {
        if k < n {
          assert FollowsAt(fat, path, k);
          assert path[k] != path[n];
        }
      }
    }
  }

  /** However an append links, the path grows by no more blocks than it needs beyond the first. */
  lemma {:induction false} AppendPath(fat: seq<int>, area: seq<char>, start: int, path: seq<int>, off: int, bytes: seq<char>)
    returns (path': seq<int>)
    requires |area| == BLOCK_SIZE * |fat| && |fat| <= END_OF_CHAIN && IsPath(fat, start, path) && 0 <= off <= BLOCK_SIZE
    ensures 0 <= path[|path| - 1] < |fat|
    ensures var r := Append(fat, area, path[|path| - 1], off, bytes);
            && IsPath(r.fat, start, path')
            && (|path'| <= |path| || BLOCK_SIZE * (|path'| - |path|) < off + r.written)
            && (off < BLOCK_SIZE && bytes != [] ==> r.written >= 1)
            && (fat[0] != 0 && 0 !in path ==> 0 !in path')
    decreases |bytes|, 1
  {
    hide FindFree, FillBlock, IsPath;
    PathEnd(fat, start, path);
    path' := path;
    if bytes != [] {
      if off < BLOCK_SIZE {
        path' := FillPath(fat, area, start, path, off, bytes);
      } else if FindFree(fat, 0) >= 0 {
        var spare := FindFree(fat, 0);
        var longer := LinkPath(fat, start, path, spare);
        path' := FillPath(Link(fat, path[|path| - 1], spare), area, start, longer, 0, bytes);
      }
    }
  }

  lemma PathEnd(fat: seq<int>, start: int, path: seq<int>)
    requires IsPath(fat, start, path)
    ensures path != [] && 0 <= path[|path| - 1] < |fat| && fat[path[|path| - 1]] == END_OF_CHAIN
  {}

  lemma {:induction false} FillPath(fat: seq<int>, area: seq<char>, start: int, path: seq<int>, off: int, bytes: seq<char>)
    returns (path': seq<int>)
    requires |area| == BLOCK_SIZE * |fat| && |fat| <= END_OF_CHAIN && IsPath(fat, start, path) && 0 <= off < BLOCK_SIZE && bytes != []
    ensures 0 <= path[|path| - 1] < |fat|
    ensures var r := FillBlock(fat, area, path[|path| - 1], off, bytes);
            && IsPath(r.fat, start, path') && r.written >= 1
            && (|path'| <= |path| || BLOCK_SIZE * (|path'| - |path|) < off + r.written)
            && (fat[0] != 0 && 0 !in path ==> 0 !in path')
    decreases |bytes|, 0
  {
    hide Append, Store, IsPath;
    PathEnd(fat, start, path);
    var block, n := path[|path| - 1], Portion(off, bytes);
    path' := AppendPath(fat, Store(area, BLOCK_SIZE * block + off, bytes[..n]), start, path, off + n, bytes[n..]);
  }

  /** An overlay always leaves a read fewer blocks to go through than the recorded size calls for. */
  lemma OverlayPath(fs: Fs, chains: seq<seq<int>>, name: string, data: string) returns (path: seq<int>)
    requires Inv(fs, chains) && name != "" && Find(fs.dir, name, 0) >= 0
    requires Overlays(fs.dir[Find(fs.dir, name, 0)], data)
    ensures var i, fs' := Find(fs.dir, name, 0), Write(fs, name, data).fs;
            && |fs'.fat| == |fs.fat| && i < |fs'.dir| && fs'.dir[i].size > fs.dir[i].size
            && IsPath(fs'.fat, fs.dir[i].start, path) && BLOCK_SIZE * |path| < fs'.dir[i].size
  {
    hide Append, Find, Seek, Shaped, Owned, IsChain, IsPath, Flat;
    InvShaped(fs, chains);
    var i := Find(fs.dir, name, 0);
    var e, ch := fs.dir[i], chains[i];
    WriteReady(fs, chains, name);
    ReadyLast(fs.fat, fs.area, e.start, ch, 0);
    ChainIsPath(fs.fat, e.start, ch);
    ShapedArea(fs);
    path := AppendPath(fs.fat, fs.area, e.start, ch, 0, data);
  }

  lemma OverlayTooShort(fs: Fs, chains: seq<seq<int>>, name: string, data: string, chains': seq<seq<int>>)
    requires Inv(fs, chains) && name != "" && Find(fs.dir, name, 0) >= 0
    requires Overlays(fs.dir[Find(fs.dir, name, 0)], data)
    ensures !Inv(Write(fs, name, data).fs, chains')
  {
    hide Find, Write, Shaped, Owned, IsChain, IsPath, Flat;
    InvShaped(fs, chains);
    var i := Find(fs.dir, name, 0);
    var path := OverlayPath(fs, chains, name, data);
    SameEntries(fs, name, data);
    var fs' := Write(fs, name, data).fs;
    if Inv(fs', chains') {
      ShapedArea(fs');
      assert SlotOk(fs', fs'.dir[i], chains'[i]);
      ChainIsPath(fs'.fat, fs.dir[i].start, chains'[i]);
      PathLength(fs'.fat, fs.dir[i].start, path, chains'[i]);
    }
  }

  /** A write that finds its file keeps the invariant if and only if it neither overlays nor links to block 0. */
  lemma WriteKeepsInvIff(fs: Fs, chains: seq<seq<int>>, name: string, data: string)
    requires Inv(fs, chains) && name != "" && NUL !in data && Find(fs.dir, name, 0) >= 0
    ensures var e := fs.dir[Find(fs.dir, name, 0)];
            (exists chains' :: Inv(Write(fs, name, data).fs, chains')) <==> !Overlays(e, data) && !LinksZero(fs, e, data)
  {
    hide Inv, Write, Find, Represents;
    InvShaped(fs, chains);
    var e := fs.dir[Find(fs.dir, name, 0)];
    if !Overlays(e, data) && !LinksZero(fs, e, data) {
      var slots := Slots(fs, chains);
      var chains' := WriteRefines(fs, chains, slots, name, data);
      RepresentsInv(Write(fs, name, data).fs, chains', Spec(|fs.fat|, slots, DoWrite(name, data)).slots);
    } else {
      forall chains' ensures !Inv(Write(fs, name, data).fs, chains') {
        if Overlays(e, data) {
          OverlayTooShort(fs, chains, name, data, chains');
        } else {
          LinkToZeroLeaks(fs, chains, name, data);
        }
      }
    }
  }

  lemma RepresentsInv(fs: Fs, chains: seq<seq<int>>, slots: seq<Slot>)
    requires Represents(fs, chains, slots)
    ensures Inv(fs, chains)
  {}

  /** Every good state shows some slots. */
  lemma Slots(fs: Fs, chains: seq<seq<int>>) returns (slots: seq<Slot>)
    requires Inv(fs, chains)
    ensures Represents(fs, chains, slots)
  {
    hide Owned, Shaped, SlotOk;
    slots := [];
    while |slots| < |fs.dir|
      invariant |slots| <= |fs.dir|
      invariant forall i :: 0 <= i < |slots| ==> Shows(fs, fs.dir[i], chains[i], slots[i])
    {
      var i := |slots|;
      assert SlotOk(fs, fs.dir[i], chains[i]);
      slots := slots + [View(fs, fs.dir[i], chains[i])];
    }
  }

  // ---------------------------------------------------------------- delete

  /** The release loop goes through a path, block 0 behind a free mark included, and frees it and nothing else. */
  lemma {:induction false} ReleasePath(fat: seq<int>, start: int, path: seq<int>)
    requires 0 < |fat| <= END_OF_CHAIN && GoodLinks(fat) && IsPath(fat, start, path)
    ensures Release(fat, start).Released? && |Release(fat, start).fat| == |fat|
    ensures forall b :: 0 <= b < |fat| ==> Release(fat, start).fat[b] == if b in path then 0 else fat[b]
    decreases |path|
  {
    hide IsPath;
    PathStartsAt(fat, start, path);
    var fat1 := fat[start := 0];
    InUseUpdate(fat, start, 0);
    SetLink(fat, start, 0);
    if |path| > 1 {
      PathTail(fat, start, path);
      PathOff(fat, start, path);
      ReleasePath(fat1, path[1], path[1..]);
      assert path == [start] + path[1..];
      assert forall b :: b in path <==> b == start || b in path[1..];
      if fat[start] == 0 {
        assert fat1 == fat;
      }
    } else {
      assert path == [start];
    }
  }

  lemma PathStartsAt(fat: seq<int>, start: int, path: seq<int>)
    requires IsPath(fat, start, path) && |fat| > 0
    ensures path != [] && path[0] == start && 0 <= start < |fat|
    ensures |path| == 1 ==> fat[start] == END_OF_CHAIN
    ensures |path| > 1 ==> fat[start] == path[1] && path[1] != start
  {
    if |path| > 1 {
      assert FollowsAt(fat, path, 0);
    }
  }

  /** Freeing the first block leaves the rest of the path. */
  lemma PathOff(fat: seq<int>, start: int, path: seq<int>)
    requires IsPath(fat, start, path) && |path| > 1 && 0 <= start < |fat|
    ensures start !in path[1..] && IsPath(fat[start := 0], path[1], path[1..])
  {
    PathTail(fat, start, path);
    var fat1, rest := fat[start := 0], path[1..];
    forall j | 0 <= j < |rest| - 1 ensures FollowsAt(fat1, rest, j) {
      assert FollowsAt(fat, rest, j);
    }
  }

  /** The release loop ends, and frees the chain and nothing else. */
  lemma ReleaseChain(fat: seq<int>, start: int, ch: seq<int>)
    requires 0 < |fat| <= END_OF_CHAIN && GoodLinks(fat)
    requires IsChain(fat, start, ch) && Distinct(ch)
    ensures Release(fat, start).Released? && |Release(fat, start).fat| == |fat|
    ensures forall b :: 0 <= b < |fat| ==> Release(fat, start).fat[b] == if b in ch then 0 else fat[b]
  {
    hide Release;
    ChainIsPath(fat, start, ch);
    ReleasePath(fat, start, ch);
  }

  lemma DeleteSwaps(fs: Fs, chains: seq<seq<int>>, name: string)
    requires Inv(fs, chains) && name != "" && Find(fs.dir, name, 0) >= 0
    ensures var i, d := Find(fs.dir, name, 0), Delete(fs, name);
            && d.Deletion? && d.ok && i < |chains|
            && Swaps(fs, chains, i, d.fs, fs.dir[i].(name := ""), [])
  {
    hide Owned, Flat, Find, Release;
    var i := Find(fs.dir, name, 0);
    var e := fs.dir[i];
    assert SlotOk(fs, e, chains[i]);
    ReleaseChain(fs.fat, e.start, chains[i]);
    var fs' := Delete(fs, name).fs;
    forall b | 0 <= b < |fs'.fat| ensures GoodLink(fs'.fat[b], |fs'.fat|) {
      assert GoodLink(fs.fat[b], |fs.fat|);
    }
    forall j | 0 <= j < |fs'.dir| && Used(fs'.dir[j]) ensures 0 <= fs'.dir[j].start < |fs'.fat| && 0 <= fs'.dir[j].size {
      assert Used(fs.dir[j]);
    }
  }

  /** Delete always ends; the file is gone and its blocks are free again. */
  lemma DeleteRefines(fs: Fs, chains: seq<seq<int>>, slots: seq<Slot>, name: string) returns (chains': seq<seq<int>>)
    requires Represents(fs, chains, slots) && name != ""
    ensures var r, a := Delete(fs, name), Spec(|fs.fat|, slots, DoDelete(name));
            r.Deletion? && r.ok == a.reply.ok && Represents(r.fs, chains', a.slots)
  {
    hide Inv, Shows, Swaps, Find, Release, Shaped;
    InvShaped(fs, chains);
    FindAgrees(fs, chains, slots, name, 0);
    chains' := chains;
    var i := Find(fs.dir, name, 0);
    if i >= 0 {
      DeleteSwaps(fs, chains, name);
      var e, r := fs.dir[i].(name := ""), Delete(fs, name);
      NothingShows(r.fs, e);
      SwapShows(fs, chains, slots, i, r.fs, e, [], Empty);
      chains' := chains[i := []];
    }
  }

  lemma NothingShows(fs: Fs, e: Entry)
    requires !Used(e)
    ensures Shows(fs, e, [], Empty)
  {}

  // ---------------------------------------------------------------- read

  lemma {:induction false} UpToNulAll(s: string)
    requires NUL !in s
    ensures UpToNul(s) == s
  {
    if s != [] {
      UpToNulAll(s[1..]);
    }
  }

  lemma Assoc(a: seq<char>, b: seq<char>, c: seq<char>)
    ensures a + b + c == a + (b + c)
  {}

  lemma FlatOne(area: seq<char>, ch: seq<int>)
    requires |ch| == 1 && Fits(area, ch)
    ensures Flat(area, ch) == Block(area, ch[0]) + Flat(area, ch[1..])
  {
    hide Block;
    assert ch[..0] == [] == ch[1..];
  }

  lemma {:induction false} FlatCons(area: seq<char>, ch: seq<int>)
    requires ch != [] && Fits(area, ch)
    ensures Flat(area, ch) == Block(area, ch[0]) + Flat(area, ch[1..])
  {
    var n := |ch| - 1;
    if n == 0 {
      FlatOne(area, ch);
    } else {
      hide Flat, Block;
      var init, rest := ch[..n], ch[1..];
      FlatCons(area, init);
      assert init[1..] == rest[..n - 1] && init[0] == ch[0] && rest[n - 1] == ch[n];
      FlatLast(area, ch);
      FlatLast(area, rest);
      Assoc(Block(area, ch[0]), Flat(area, rest[..n - 1]), Block(area, ch[n]));
    }
  }

  /** The content begins with what is used of the first block. */
  lemma ContentHead(area: seq<char>, ch: seq<int>, size: int)
    requires Fits(area, ch) && 0 < size && |ch| == BlocksFor(size)
    ensures var n := Min(size, BLOCK_SIZE);
            Content(area, ch, size)
            == Block(area, ch[0])[..n] + if |ch| > 1 then Content(area, ch[1..], size - BLOCK_SIZE) else []
  {
    hide Flat, Block;
    FlatCons(area, ch);
  }

  /** A piece without NUL is printed as it is. */
  lemma PrintsBlock(area: seq<char>, b: int, n: int)
    requires 0 <= b && BLOCK_SIZE * b + BLOCK_SIZE <= |area| && 0 <= n <= BLOCK_SIZE
    requires NUL !in Block(area, b)[..n]
    ensures UpToNul(area[BLOCK_SIZE * b..BLOCK_SIZE * b + n]) == Block(area, b)[..n]
  {
    assert Block(area, b)[..n] == area[BLOCK_SIZE * b..BLOCK_SIZE * b + n];
    UpToNulAll(Block(area, b)[..n]);
  }

  lemma PathTail(fat: seq<int>, start: int, path: seq<int>)
    requires IsPath(fat, start, path) && |path| > 1
    ensures fat[start] == path[1] && IsPath(fat, path[1], path[1..])
  {
    assert FollowsAt(fat, path, 0);
    var rest := path[1..];
    forall j | 0 <= j < |rest| - 1 ensures FollowsAt(fat, rest, j) {
      assert FollowsAt(fat, path, j + 1);
    }
  }

  /** The read loop prints the content. */
  lemma {:induction false} ReadsContent(fat: seq<int>, area: seq<char>, start: int, path: seq<int>, size: int)
    requires |area| == BLOCK_SIZE * |fat| && 0 < |fat| <= END_OF_CHAIN
    requires forall b :: 0 <= b < |fat| ==> GoodLink(fat[b], |fat|)
    requires IsPath(fat, start, path) && 0 < size && |path| == BlocksFor(size)
    requires Fits(area, path) && NUL !in Content(area, path, size)
    ensures ReadFrom(fat, area, start, size) == Content(area, path, size)
    decreases |path|
  {
    hide UpToNul, Content, Block;
    ContentHead(area, path, size);
    var n := Min(size, BLOCK_SIZE);
    var content, first := Content(area, path, size), Block(area, start)[..n];
    assert forall x :: x in first ==> x in content;
    PrintsBlock(area, start, n);
    if |path| > 1 {
      PathTail(fat, start, path);
      var rest := Content(area, path[1..], size - BLOCK_SIZE);
      assert forall x :: x in rest ==> x in content;
      ReadsContent(fat, area, path[1], path[1..], size - BLOCK_SIZE);
    } else {
      assert fat[start] == END_OF_CHAIN;
    }
  }

  /** Read prints what was appended, all of it, and changes nothing. */
  lemma ReadRefines(fs: Fs, chains: seq<seq<int>>, slots: seq<Slot>, name: string)
    requires Represents(fs, chains, slots) && name != ""
    ensures Shaped(fs) && Read(fs, name) == Spec(|fs.fat|, slots, DoRead(name)).reply
  {
    hide Inv, Find, ReadFrom, IsChain, IsPath;
    InvShaped(fs, chains);
    FindAgrees(fs, chains, slots, name, 0);
    var i := Find(fs.dir, name, 0);
    if i >= 0 {
      var e, ch := fs.dir[i], chains[i];
      assert Shows(fs, e, ch, slots[i]);
      if e.size > 0 {
        FileFits(fs, e, ch);
        ChainIsPath(fs.fat, e.start, ch);
        ReadsContent(fs.fat, fs.area, e.start, ch, e.size);
      }
    }
  }

  lemma FileFits(fs: Fs, e: Entry, ch: seq<int>)
    requires FileOk(fs, e, ch)
    ensures Fits(fs.area, ch)
  {
    ChainFits(fs.fat, fs.area, ch);
  }
}
