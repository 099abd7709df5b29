/** Chains of blocks, what they hold, and the invariant that ties them to the directory. */
module FatChains {
  import opened Sets
  import opened FatModel

  /** Block ch[j] points to ch[j + 1], which cannot be block 0: that link would read as free. */
  predicate LinkAt(fat: seq<int>, ch: seq<int>, j: nat)
    requires j + 1 < |ch| && 0 <= ch[j] < |fat|
  {
    fat[ch[j]] == ch[j + 1] && ch[j + 1] != 0
  }

  predicate InDisk(blocks: int, ch: seq<int>) {
    forall j :: 0 <= j < |ch| ==> 0 <= ch[j] < blocks
  }

  ghost predicate IsChain(fat: seq<int>, start: int, ch: seq<int>) {
    && ch != [] && ch[0] == start && InDisk(|fat|, ch)
    && (forall j :: 0 <= j < |ch| - 1 ==> LinkAt(fat, ch, j))
    && fat[ch[|ch| - 1]] == END_OF_CHAIN
  }

  /** The bytes of one block. */
  function Block(area: seq<char>, b: int): (r: seq<char>)
    requires 0 <= b && BLOCK_SIZE * b + BLOCK_SIZE <= |area|
    ensures |r| == BLOCK_SIZE
  {
    area[BLOCK_SIZE * b..BLOCK_SIZE * b + BLOCK_SIZE]
  }

  /** The bytes of all blocks of a chain, in order. */
  function Flat(area: seq<char>, ch: seq<int>): (r: seq<char>)
    requires forall j :: 0 <= j < |ch| ==> 0 <= ch[j] && BLOCK_SIZE * ch[j] + BLOCK_SIZE <= |area|
    ensures |r| == BLOCK_SIZE * |ch|
  {
    if ch == [] then [] else Flat(area, ch[..|ch| - 1]) + Block(area, ch[|ch| - 1])
  }

  function BlocksFor(size: int): int {
    if size <= 0 then 1 else (size + BLOCK_SIZE - 1) / BLOCK_SIZE
  }

  function Content(area: seq<char>, ch: seq<int>, size: int): seq<char>
    requires forall j :: 0 <= j < |ch| ==> 0 <= ch[j] && BLOCK_SIZE * ch[j] + BLOCK_SIZE <= |area|
    requires 0 <= size <= BLOCK_SIZE * |ch|
  {
    Flat(area, ch)[..size]
  }

  /** One file: its chain is as long as its size calls for and holds no NUL. */
  ghost predicate FileOk(fs: Fs, e: Entry, ch: seq<int>) {
    && |fs.area| == BLOCK_SIZE * |fs.fat|
    && IsChain(fs.fat, e.start, ch) && Distinct(ch)
    && 0 <= e.size && |ch| == BlocksFor(e.size)
    && NUL !in Content(fs.area, ch, e.size)
  }

  ghost predicate SlotOk(fs: Fs, e: Entry, ch: seq<int>) {
    if Used(e) then FileOk(fs, e, ch) else ch == []
  }

  lemma SlotLength(fs: Fs, e: Entry, ch: seq<int>)
    requires SlotOk(fs, e, ch)
    ensures Distinct(ch) && |ch| == if Used(e) then BlocksFor(e.size) else 0
  {}

  predicate Owned(chains: seq<seq<int>>, b: int) {
    exists i :: 0 <= i < |chains| && b in chains[i]
  }

  ghost predicate Inv(fs: Fs, chains: seq<seq<int>>) {
    && Shaped(fs) && |chains| == |fs.dir|
    && (forall i :: 0 <= i < |chains| ==> SlotOk(fs, fs.dir[i], chains[i]))
    && (forall i, j :: 0 <= i < j < |fs.dir| && Used(fs.dir[i]) ==> fs.dir[i].name != fs.dir[j].name)
    && (forall i, j :: 0 <= i < j < |chains| ==> Elems(chains[i]) !! Elems(chains[j]))
    && (forall b :: 0 <= b < |fs.fat| ==> (fs.fat[b] != 0 <==> Owned(chains, b)))
  }

  // ---------------------------------------------------------------- chains

  /** A chain is determined by where it starts. */
  lemma ChainUnique(fat: seq<int>, start: int, a: seq<int>, b: seq<int>)
    requires |fat| <= END_OF_CHAIN && IsChain(fat, start, a) && IsChain(fat, start, b)
    ensures a == b
  {
    if |a| <= |b| {
      ChainPrefix(fat, start, a, b, |a| - 1);
    } else {
      ChainPrefix(fat, start, b, a, |b| - 1);
    }
  }

  lemma {:induction false} ChainPrefix(fat: seq<int>, start: int, a: seq<int>, b: seq<int>, j: nat)
    requires |fat| <= END_OF_CHAIN && IsChain(fat, start, a) && IsChain(fat, start, b)
    requires j < |a| <= |b|
    ensures a[..j + 1] == b[..j + 1]
    ensures j == |a| - 1 ==> |b| == |a|
  {
    if j > 0 {
      ChainPrefix(fat, start, a, b, j - 1);
      assert a[j - 1] == a[..j][j - 1] == b[..j][j - 1] == b[j - 1];
      assert LinkAt(fat, a, j - 1) && LinkAt(fat, b, j - 1);
    }
    assert a[j] == b[j];
    assert j < |b| - 1 ==> LinkAt(fat, b, j);
  }

  lemma ChainFrame(fat: seq<int>, fat': seq<int>, start: int, ch: seq<int>)
    requires IsChain(fat, start, ch) && |fat'| == |fat|
    requires forall b :: 0 <= b < |fat| && b in ch ==> fat'[b] == fat[b]
    ensures IsChain(fat', start, ch)
  {
    forall j | 0 <= j < |ch| - 1 ensures LinkAt(fat', ch, j) {
      assert LinkAt(fat, ch, j) && ch[j] in ch;
    }
    assert ch[|ch| - 1] in ch;
  }

  /** A free block can be linked behind the last one. */
  lemma ChainExtend(fat: seq<int>, start: int, ch: seq<int>, spare: int)
    requires IsChain(fat, start, ch) && Distinct(ch)
    requires 0 < spare < |fat| <= END_OF_CHAIN && fat[spare] == 0
    ensures spare !in ch
    ensures IsChain(Link(fat, ch[|ch| - 1], spare), start, ch + [spare]) && Distinct(ch + [spare])
  {
    ChainBusy(fat, start, ch);
    var n := |ch|;
    var fat', ch' := Link(fat, ch[n - 1], spare), ch + [spare];
    forall j | 0 <= j < n ensures LinkAt(fat', ch', j) {
      if j < n - 1 {
        assert LinkAt(fat, ch, j) && ch[j] in ch && ch[j] != ch[n - 1];
      }
    }
  }

  lemma ChainBusy(fat: seq<int>, start: int, ch: seq<int>)
    requires IsChain(fat, start, ch)
    ensures forall b :: b in ch ==> 0 <= b < |fat| && fat[b] != 0
  {
    forall b | b in ch ensures 0 <= b < |fat| && fat[b] != 0 {
      var j :| 0 <= j < |ch| && ch[j] == b;
      assert j < |ch| - 1 ==> LinkAt(fat, ch, j);
    }
  }

  // ---------------------------------------------------------------- contents

  lemma {:induction false} FlatFrame(area: seq<char>, area': seq<char>, ch: seq<int>)
    requires |area'| == |area|
    requires forall j :: 0 <= j < |ch| ==> 0 <= ch[j] && BLOCK_SIZE * ch[j] + BLOCK_SIZE <= |area|
    requires forall j :: 0 <= j < |ch| ==> Block(area, ch[j]) == Block(area', ch[j])
    ensures Flat(area, ch) == Flat(area', ch)
  {
    if ch != [] {
      FlatFrame(area, area', ch[..|ch| - 1]);
    }
  }

  lemma StoreElsewhere(area: seq<char>, b: int, off: int, bytes: seq<char>, x: int)
    requires 0 <= b && 0 <= off && off + |bytes| <= BLOCK_SIZE && BLOCK_SIZE * b + BLOCK_SIZE <= |area|
    requires 0 <= x && BLOCK_SIZE * x + BLOCK_SIZE <= |area| && x != b
    ensures Block(Store(area, BLOCK_SIZE * b + off, bytes), x) == Block(area, x)
  {}

  lemma StoreHere(area: seq<char>, b: int, off: int, bytes: seq<char>)
    requires 0 <= b && 0 <= off && off + |bytes| <= BLOCK_SIZE && BLOCK_SIZE * b + BLOCK_SIZE <= |area|
    ensures Block(Store(area, BLOCK_SIZE * b + off, bytes), b)[..off + |bytes|] == Block(area, b)[..off] + bytes
  {
    var at := BLOCK_SIZE * b;
    var next := Store(area, at + off, bytes);
    assert Block(next, b)[..off + |bytes|] == next[at..at + off + |bytes|];
    assert next[at..at + off] == area[at..at + off];
    assert next[at + off..at + off + |bytes|] == bytes;
  }

  lemma {:induction false} FlatPrefix(area: seq<char>, ch: seq<int>, j: nat)
    requires j <= |ch|
    requires forall j :: 0 <= j < |ch| ==> 0 <= ch[j] && BLOCK_SIZE * ch[j] + BLOCK_SIZE <= |area|
    ensures Flat(area, ch)[..BLOCK_SIZE * j] == Flat(area, ch[..j])
  {
    if j < |ch| {
      var init := ch[..|ch| - 1];
      FlatPrefix(area, init, j);
      assert init[..j] == ch[..j];
    } else {
      assert ch[..j] == ch;
    }
  }

  // ---------------------------------------------------------------- counting

  function Busy(fat: seq<int>): set<int> {
    if fat == [] then {} else Busy(fat[..|fat| - 1]) + if fat[|fat| - 1] != 0 then {|fat| - 1} else {}
  }

  lemma {:induction false} BusyExact(fat: seq<int>)
    ensures |Busy(fat)| == InUse(fat) <= |fat|
    ensures forall b :: b in Busy(fat) <==> 0 <= b < |fat| && fat[b] != 0
  {
    if fat != [] {
      BusyExact(fat[..|fat| - 1]);
    }
  }

  function Join(chains: seq<seq<int>>): seq<int> {
    if chains == [] then [] else Join(chains[..|chains| - 1]) + chains[|chains| - 1]
  }

  lemma {:induction false} JoinMember(chains: seq<seq<int>>, b: int)
    ensures b in Join(chains) <==> Owned(chains, b)
  {
    if chains != [] {
      var n := |chains| - 1;
      JoinMember(chains[..n], b);
      if Owned(chains, b) {
        var i :| 0 <= i < |chains| && b in chains[i];
        assert i < n ==> chains[..n][i] == chains[i];
      }
      if Owned(chains[..n], b) {
        var i :| 0 <= i < n && b in chains[..n][i];
        assert b in chains[i];
      }
    }
  }

  lemma {:induction false} JoinDistinct(chains: seq<seq<int>>)
    requires forall i :: 0 <= i < |chains| ==> Distinct(chains[i])
    requires forall i, j :: 0 <= i < j < |chains| ==> Elems(chains[i]) !! Elems(chains[j])
    ensures Distinct(Join(chains))
  {
    if chains != [] {
      var n := |chains| - 1;
      JoinDistinct(chains[..n]);
      forall b | b in chains[n] ensures b !in Join(chains[..n]) {
        JoinMember(chains[..n], b);
        assert b in Elems(chains[n]);
        assert forall i :: 0 <= i < n ==> chains[..n][i] == chains[i] && b !in Elems(chains[i]);
      }
      DistinctConcat(Join(chains[..n]), chains[n]);
    }
  }

  /** Blocks the directory accounts for. */
  function UsedBlocks(dir: seq<Entry>): int {
    if dir == [] then 0
    else UsedBlocks(dir[..|dir| - 1]) + if Used(dir[|dir| - 1]) then BlocksFor(dir[|dir| - 1].size) else 0
  }

  lemma {:induction false} JoinLength(fs: Fs, chains: seq<seq<int>>, n: nat)
    requires |chains| == |fs.dir| && n <= |chains|
    requires forall i :: 0 <= i < |chains| ==> SlotOk(fs, fs.dir[i], chains[i])
    ensures |Join(chains[..n])| == UsedBlocks(fs.dir[..n])
  {
    hide SlotOk, BlocksFor;
    if n > 0 {
      SlotLength(fs, fs.dir[n - 1], chains[n - 1]);
      JoinLength(fs, chains, n - 1);
      assert chains[..n][..n - 1] == chains[..n - 1] && fs.dir[..n][..n - 1] == fs.dir[..n - 1];
    }
  }

  /** Nothing leaks: the blocks in use are exactly those the file sizes call for. */
  lemma Conservation(fs: Fs, chains: seq<seq<int>>)
    requires Inv(fs, chains)
    ensures InUse(fs.fat) == UsedBlocks(fs.dir)
  {
    var all := Join(chains);
    forall i | 0 <= i < |chains| ensures Distinct(chains[i]) {
      assert SlotOk(fs, fs.dir[i], chains[i]);
    }
    JoinDistinct(chains);
    ElemsCard(all);
    BusyExact(fs.fat);
    OwnedAreBusy(fs, chains);
    JoinLength(fs, chains, |chains|);
    assert chains[..|chains|] == chains && fs.dir[..|fs.dir|] == fs.dir;
  }

  lemma OwnedAreBusy(fs: Fs, chains: seq<seq<int>>)
    requires Inv(fs, chains)
    ensures Elems(Join(chains)) == Busy(fs.fat)
  {
    BusyExact(fs.fat);
    forall b ensures b in Elems(Join(chains)) <==> b in Busy(fs.fat) {
      JoinMember(chains, b);
      if Owned(chains, b) {
        var i :| 0 <= i < |chains| && b in chains[i];
        assert SlotOk(fs, fs.dir[i], chains[i]);
        ChainBusy(fs.fat, fs.dir[i].start, chains[i]);
      }
    }
  }
}
