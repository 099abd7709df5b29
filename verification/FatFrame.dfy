/** Replacing one file's chain leaves all the others as they are. */
module FatFrame {
  import opened Sets
  import opened FatModel
  import opened FatChains

  /** What the outside sees of a directory entry. */
  datatype Slot = Empty | File(name: string, content: string)

  ghost function View(fs: Fs, e: Entry, ch: seq<int>): Slot
    requires SlotOk(fs, e, ch)
  {
    if Used(e) then File(e.name, Content(fs.area, ch, e.size)) else Empty
  }

  ghost predicate ViewKept(fs: Fs, fs': Fs, e: Entry, ch: seq<int>) {
    SlotOk(fs, e, ch) && SlotOk(fs', e, ch) && View(fs', e, ch) == View(fs, e, ch)
  }

  /** Same table entry and, if the block is in use, the same bytes. */
  ghost predicate BlockKept(fs: Fs, fs': Fs, b: int)
    requires |fs.area| == BLOCK_SIZE * |fs.fat| && |fs'.area| == |fs.area| && |fs'.fat| == |fs.fat| && 0 <= b < |fs.fat|
  {
    fs'.fat[b] == fs.fat[b] && (fs.fat[b] != 0 ==> Block(fs'.area, b) == Block(fs.area, b))
  }

  lemma SlotFrame(fs: Fs, fs': Fs, e: Entry, ch: seq<int>)
    requires |fs.area| == BLOCK_SIZE * |fs.fat| && |fs'.area| == |fs.area| && |fs'.fat| == |fs.fat|
    requires SlotOk(fs, e, ch)
    requires forall b :: 0 <= b < |fs.fat| && b in ch ==> BlockKept(fs, fs', b)
    ensures ViewKept(fs, fs', e, ch)
  {
    if Used(e) {
      ChainBusy(fs.fat, e.start, ch);
      ChainFrame(fs.fat, fs'.fat, e.start, ch);
      forall j | 0 <= j < |ch| ensures Block(fs.area, ch[j]) == Block(fs'.area, ch[j]) {
        assert ch[j] in ch && BlockKept(fs, fs', ch[j]);
      }
      FlatFrame(fs.area, fs'.area, ch);
    }
  }

  /** Entry i becomes `e` with chain `ch`; every block that leaves is freed, every one that joins was free. */
  ghost predicate Swaps(fs: Fs, chains: seq<seq<int>>, i: nat, fs': Fs, e: Entry, ch: seq<int>)
    requires Inv(fs, chains)
  {
    && i < |fs.dir| && Shaped(fs') && |fs'.fat| == |fs.fat| && fs'.dir == fs.dir[i := e]
    && SlotOk(fs', e, ch)
    && (forall j :: 0 <= j < |fs.dir| && j != i && Used(e) ==> fs.dir[j].name != e.name)
    && (forall b :: b in ch ==> 0 <= b < |fs.fat| && (b in chains[i] || fs.fat[b] == 0))
    && (forall b :: 0 <= b < |fs.fat| && b !in chains[i] && b !in ch ==> BlockKept(fs, fs', b))
    && (forall b :: 0 <= b < |fs.fat| && b in chains[i] && b !in ch ==> fs'.fat[b] == 0)
  }

  lemma SlotBusy(fs: Fs, chains: seq<seq<int>>, j: nat)
    requires Inv(fs, chains) && j < |chains|
    ensures forall b :: b in chains[j] ==> 0 <= b < |fs.fat| && fs.fat[b] != 0
  {
    assert SlotOk(fs, fs.dir[j], chains[j]);
    if Used(fs.dir[j]) {
      ChainBusy(fs.fat, fs.dir[j].start, chains[j]);
    }
  }

  lemma Apart(fs: Fs, chains: seq<seq<int>>, i: nat, j: nat)
    requires Inv(fs, chains) && i < |chains| && j < |chains| && i != j
    ensures Elems(chains[i]) !! Elems(chains[j])
  {
    if i < j {
      assert Elems(chains[i]) !! Elems(chains[j]);
    } else {
      assert Elems(chains[j]) !! Elems(chains[i]);
    }
  }

  lemma OthersApart(fs: Fs, chains: seq<seq<int>>, i: nat, fs': Fs, e: Entry, ch: seq<int>, j: nat)
    requires Inv(fs, chains) && Swaps(fs, chains, i, fs', e, ch) && j < |chains| && j != i
    ensures Elems(chains[j]) !! Elems(ch)
    ensures ViewKept(fs, fs', fs.dir[j], chains[j])
  {
    hide SlotOk, Shaped;
    SlotBusy(fs, chains, j);
    Apart(fs, chains, i, j);
    forall b | b in chains[j] ensures b !in chains[i] && b !in ch {
      assert b in Elems(chains[j]);
    }
    assert SlotOk(fs, fs.dir[j], chains[j]);
    ShapedArea(fs);
    ShapedArea(fs');
    SlotFrame(fs, fs', fs.dir[j], chains[j]);
  }

  lemma ShapedArea(fs: Fs)
    requires Shaped(fs)
    ensures |fs.area| == BLOCK_SIZE * |fs.fat| && 0 < |fs.fat| <= END_OF_CHAIN
  {}

  lemma OwnedAfter(chains: seq<seq<int>>, i: nat, ch: seq<int>, b: int)
    requires i < |chains|
    ensures b in ch ==> Owned(chains[i := ch], b)
    ensures b !in ch && b !in chains[i] ==> (Owned(chains[i := ch], b) <==> Owned(chains, b))
    ensures b in chains[i] ==> Owned(chains, b)
  {
    var chains' := chains[i := ch];
    if b in ch {
      assert b in chains'[i];
    }
    if b !in ch && b !in chains[i] {
      if Owned(chains', b) {
        var j :| 0 <= j < |chains'| && b in chains'[j];
        assert b in chains[j];
      }
      if Owned(chains, b) {
        var j :| 0 <= j < |chains| && b in chains[j];
        assert b in chains'[j];
      }
    }
  }

  lemma OwnedNoMore(fs: Fs, chains: seq<seq<int>>, i: nat, ch: seq<int>, b: int)
    requires Inv(fs, chains) && i < |chains| && b in chains[i] && b !in ch
    ensures !Owned(chains[i := ch], b)
  {
    forall j | 0 <= j < |chains| && j != i ensures b !in chains[j] {
      Apart(fs, chains, i, j);
      assert b in Elems(chains[i]);
      assert b !in Elems(chains[j]);
    }
  }

  lemma SwapUsage(fs: Fs, chains: seq<seq<int>>, i: nat, fs': Fs, e: Entry, ch: seq<int>, b: nat)
    requires Inv(fs, chains) && Swaps(fs, chains, i, fs', e, ch) && b < |fs.fat|
    ensures fs'.fat[b] != 0 <==> Owned(chains[i := ch], b)
  {
    ShapedArea(fs);
    ShapedArea(fs');
    OwnedAfter(chains, i, ch, b);
    if b in ch {
      ChainBusy(fs'.fat, e.start, ch);
    } else if b in chains[i] {
      OwnedNoMore(fs, chains, i, ch, b);
    } else {
      assert BlockKept(fs, fs', b);
    }
  }

  lemma SwapApart(fs: Fs, chains: seq<seq<int>>, i: nat, fs': Fs, e: Entry, ch: seq<int>)
    requires Inv(fs, chains) && Swaps(fs, chains, i, fs', e, ch)
    ensures var chains' := chains[i := ch];
            forall j, k :: 0 <= j < k < |chains'| ==> Elems(chains'[j]) !! Elems(chains'[k])
  {
    hide Shaped, SlotOk, BlockKept;
    var chains' := chains[i := ch];
    forall j, k | 0 <= j < k < |chains'| ensures Elems(chains'[j]) !! Elems(chains'[k]) {
      if j == i {
        OthersApart(fs, chains, i, fs', e, ch, k);
      } else if k == i {
        OthersApart(fs, chains, i, fs', e, ch, j);
      } else {
        Apart(fs, chains, j, k);
      }
    }
  }

  lemma SwapNames(fs: Fs, chains: seq<seq<int>>, i: nat, fs': Fs, e: Entry, ch: seq<int>)
    requires Inv(fs, chains) && Swaps(fs, chains, i, fs', e, ch)
    ensures forall j, k :: 0 <= j < k < |fs'.dir| && Used(fs'.dir[j]) ==> fs'.dir[j].name != fs'.dir[k].name
  {
    hide Shaped, SlotOk, BlockKept, Owned;
    forall j, k | 0 <= j < k < |fs'.dir| && Used(fs'.dir[j]) ensures fs'.dir[j].name != fs'.dir[k].name {
      if j != i && k != i {
        assert fs.dir[j].name != fs.dir[k].name;
      }
    }
  }

  /** The invariant survives such a replacement, and only that file looks different. */
  lemma SwapKeepsInv(fs: Fs, chains: seq<seq<int>>, i: nat, fs': Fs, e: Entry, ch: seq<int>)
    requires Inv(fs, chains) && Swaps(fs, chains, i, fs', e, ch)
    ensures Inv(fs', chains[i := ch])
    ensures forall j :: 0 <= j < |fs.dir| && j != i ==> ViewKept(fs, fs', fs.dir[j], chains[j])
  {
    hide SlotOk, Shaped, BlockKept;
    forall j | 0 <= j < |chains| && j != i
      ensures SlotOk(fs', fs.dir[j], chains[j]) && ViewKept(fs, fs', fs.dir[j], chains[j])
    {
      OthersApart(fs, chains, i, fs', e, ch, j);
    }
    forall b | 0 <= b < |fs'.fat| ensures fs'.fat[b] != 0 <==> Owned(chains[i := ch], b) {
      SwapUsage(fs, chains, i, fs', e, ch, b);
    }
    SwapNames(fs, chains, i, fs', e, ch);
    SwapApart(fs, chains, i, fs', e, ch);
  }
}
