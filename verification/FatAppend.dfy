/** What the append loop does to the chain it extends. */
module FatAppend {
  import opened Sets
  import opened FatModel
  import opened FatChains

  /** `fat'` links the formerly free blocks `ext` behind `ch` and changes nothing else. */
  ghost predicate GrownFat(fat: seq<int>, start: int, ch: seq<int>, fat': seq<int>, ext: seq<int>) {
    && |fat'| == |fat| && ch != []
    && IsChain(fat', start, ch + ext) && Distinct(ch + ext)
    && (forall b :: b in ext ==> 0 <= b < |fat| && fat[b] == 0)
    && (forall b :: 0 <= b < |fat| && b !in ext && b != ch[|ch| - 1] ==> fat'[b] == fat[b])
    && InUse(fat') == InUse(fat) + |ext|
  }

  ghost predicate Fits(area: seq<char>, ch: seq<int>) {
    forall j :: 0 <= j < |ch| ==> 0 <= ch[j] && BLOCK_SIZE * ch[j] + BLOCK_SIZE <= |area|
  }

  /** The byte position in the file of offset `off` of the last block. */
  function Position(ch: seq<int>, off: int): int {
    BLOCK_SIZE * (|ch| - 1) + off
  }

  /** `area'` holds `bytes` behind what was there before that position; other blocks are untouched. */
  ghost predicate GrownArea(area: seq<char>, ch: seq<int>, off: int, bytes: seq<char>, area': seq<char>, ext: seq<int>) {
    && |area'| == |area| && ch != [] && Fits(area, ch) && Fits(area, ch + ext)
    && 0 <= off <= BLOCK_SIZE && Position(ch, off) + |bytes| <= BLOCK_SIZE * |ch + ext|
    && (forall b :: 0 <= b && BLOCK_SIZE * b + BLOCK_SIZE <= |area| && b !in ext && b != ch[|ch| - 1]
          ==> Block(area', b) == Block(area, b))
    && Flat(area', ch + ext)[..Position(ch, off) + |bytes|] == Flat(area, ch)[..Position(ch, off)] + bytes
  }

  /** As much is written as fits, and no block is linked that is not needed. */
  predicate Measured(fat: seq<int>, ch: seq<int>, off: int, bytes: seq<char>, written: nat, ext: seq<int>) {
    && written == Min(|bytes|, BLOCK_SIZE - off + BLOCK_SIZE * (|fat| - InUse(fat)))
    && (ext != [] ==> BLOCK_SIZE * (|ch + ext| - 1) < Position(ch, off) + written)
  }

  ghost predicate Grown(fat: seq<int>, area: seq<char>, start: int, ch: seq<int>, off: int, bytes: seq<char>,
                        r: Appended, ext: seq<int>) {
    && GrownFat(fat, start, ch, r.fat, ext)
    && Measured(fat, ch, off, bytes, r.written, ext) && r.written <= |bytes|
    && GrownArea(area, ch, off, bytes[..r.written], r.area, ext)
  }

  ghost predicate Ready(fat: seq<int>, area: seq<char>, start: int, ch: seq<int>, off: int) {
    && |fat| <= END_OF_CHAIN && |area| == BLOCK_SIZE * |fat|
    && IsChain(fat, start, ch) && Distinct(ch) && 0 <= off <= BLOCK_SIZE
  }

  lemma ChainFits(fat: seq<int>, area: seq<char>, ch: seq<int>)
    requires |area| == BLOCK_SIZE * |fat| && InDisk(|fat|, ch)
    ensures Fits(area, ch)
  {
    forall j | 0 <= j < |ch| ensures 0 <= ch[j] && BLOCK_SIZE * ch[j] + BLOCK_SIZE <= |area| {
      assert 0 <= ch[j] < |fat|;
    }
  }

  lemma NothingWritten(fat: seq<int>, area: seq<char>, start: int, ch: seq<int>, off: int)
    requires Ready(fat, area, start, ch, off)
    ensures GrownFat(fat, start, ch, fat, []) && GrownArea(area, ch, off, [], area, [])
  {
    ChainFits(fat, area, ch);
    assert ch + [] == ch;
  }

  lemma FlatLast(area: seq<char>, ch: seq<int>)
    requires ch != [] && Fits(area, ch)
    ensures Flat(area, ch) == Flat(area, ch[..|ch| - 1]) + Block(area, ch[|ch| - 1])
  {}

  // ---------------------------------------------------------------- filling the last block

  lemma StoreContent(area: seq<char>, ch: seq<int>, off: int, bytes: seq<char>)
    requires ch != [] && Distinct(ch) && Fits(area, ch)
    requires 0 <= off && off + |bytes| <= BLOCK_SIZE
    ensures var area' := Store(area, BLOCK_SIZE * ch[|ch| - 1] + off, bytes);
            Flat(area', ch)[..Position(ch, off) + |bytes|] == Flat(area, ch)[..Position(ch, off)] + bytes
  {
    hide Flat, Store, Block;
    var n := |ch| - 1;
    var b, init := ch[n], ch[..n];
    var area' := Store(area, BLOCK_SIZE * b + off, bytes);
    FlatLast(area, ch);
    FlatLast(area', ch);
    forall j | 0 <= j < n ensures Block(area, init[j]) == Block(area', init[j]) {
      StoreElsewhere(area, b, off, bytes, init[j]);
    }
    FlatFrame(area, area', init);
    StoreHere(area, b, off, bytes);
    SplitAt(Flat(area, init), Block(area, b), off);
    SplitAt(Flat(area', init), Block(area', b), off + |bytes|);
    assert Flat(area, init) + (Block(area, b)[..off] + bytes) == Flat(area, init) + Block(area, b)[..off] + bytes;
  }

  lemma SplitAt(a: seq<char>, b: seq<char>, k: nat)
    requires k <= |b|
    ensures (a + b)[..|a| + k] == a + b[..k]
  {}

  /** Writing the rest after filling part of the block is writing all of it. */
  lemma FillArea(area: seq<char>, ch: seq<int>, off: int, first: seq<char>, rest: seq<char>, area': seq<char>, ext: seq<int>)
    requires ch != [] && Distinct(ch) && Fits(area, ch) && 0 <= off && off + |first| <= BLOCK_SIZE
    requires GrownArea(Store(area, BLOCK_SIZE * ch[|ch| - 1] + off, first), ch, off + |first|, rest, area', ext)
    ensures GrownArea(area, ch, off, first + rest, area', ext)
  {
    hide Flat, Store;
    var b := ch[|ch| - 1];
    var area1 := Store(area, BLOCK_SIZE * b + off, first);
    StoreContent(area, ch, off, first);
    forall x | 0 <= x && BLOCK_SIZE * x + BLOCK_SIZE <= |area| && x !in ext && x != b
      ensures Block(area', x) == Block(area, x)
    {
      StoreElsewhere(area, b, off, first, x);
    }
    var pos := Position(ch, off);
    assert Flat(area', ch + ext)[..pos + |first + rest|] == Flat(area1, ch)[..pos + |first|] + rest;
    assert Flat(area, ch)[..pos] + first + rest == Flat(area, ch)[..pos] + (first + rest);
  }

  lemma FillGrows(fat: seq<int>, area: seq<char>, start: int, ch: seq<int>, off: int, bytes: seq<char>)
    returns (ext: seq<int>)
    requires Ready(fat, area, start, ch, off) && off < BLOCK_SIZE && bytes != []
    requires |bytes| <= BLOCK_SIZE - off || fat[0] != 0
    ensures Grown(fat, area, start, ch, off, bytes, FillBlock(fat, area, ch[|ch| - 1], off, bytes), ext)
    decreases |bytes|, 0
  {
    hide GrownFat, GrownArea, IsChain, Store;
    ReadyLast(fat, area, start, ch, off);
    var b, n := ch[|ch| - 1], Portion(off, bytes);
    var first, rest := bytes[..n], bytes[n..];
    var area1 := Store(area, BLOCK_SIZE * b + off, first);
    ext := AppendGrows(fat, area1, start, ch, off + n, rest);
    var r := Append(fat, area1, b, off + n, rest);
    BusyExact(fat);
    ChainFits(fat, area, ch);
    FillArea(area, ch, off, first, rest[..r.written], r.area, ext);
    assert first + rest[..r.written] == bytes[..n + r.written];
  }

  lemma ReadyLast(fat: seq<int>, area: seq<char>, start: int, ch: seq<int>, off: int)
    requires Ready(fat, area, start, ch, off)
    ensures ch != [] && InDisk(|fat|, ch) && 0 <= ch[|ch| - 1] < |fat| && fat[ch[|ch| - 1]] != 0
  {}

  // ---------------------------------------------------------------- linking a block

  lemma LinkInUse(fat: seq<int>, block: int, spare: int)
    requires 0 <= block < |fat| && fat[block] != 0 && 0 < spare < |fat| && fat[spare] == 0
    ensures InUse(Link(fat, block, spare)) == InUse(fat) + 1
  {
    InUseUpdate(fat, block, spare);
    InUseUpdate(fat[block := spare], spare, END_OF_CHAIN);
  }

  lemma LinkFat(fat: seq<int>, start: int, ch: seq<int>, spare: int, fat': seq<int>, ext: seq<int>)
    requires IsChain(fat, start, ch) && Distinct(ch) && |fat| <= END_OF_CHAIN
    requires 0 < spare < |fat| && fat[spare] == 0
    requires GrownFat(Link(fat, ch[|ch| - 1], spare), start, ch + [spare], fat', ext)
    ensures GrownFat(fat, start, ch, fat', [spare] + ext)
  {
    var last := ch[|ch| - 1];
    LinkInUse(fat, last, spare);
    assert ch + [spare] + ext == ch + ([spare] + ext);
  }

  lemma LinkArea(area: seq<char>, ch: seq<int>, spare: int, bytes: seq<char>, area': seq<char>, ext: seq<int>)
    requires ch != [] && Fits(area, ch)
    requires GrownArea(area, ch + [spare], 0, bytes, area', ext)
    ensures GrownArea(area, ch, BLOCK_SIZE, bytes, area', [spare] + ext)
  {
    hide Flat, Block;
    assert ch + [spare] + ext == ch + ([spare] + ext);
    FlatPrefix(area, ch + [spare], |ch|);
    assert (ch + [spare])[..|ch|] == ch;
    assert Flat(area, ch)[..BLOCK_SIZE * |ch|] == Flat(area, ch);
  }

  lemma {:induction false} FullDisk(fat: seq<int>)
    requires forall b :: 0 <= b < |fat| ==> fat[b] != 0
    ensures InUse(fat) == |fat|
  {
    if fat != [] {
      FullDisk(fat[..|fat| - 1]);
    }
  }

  lemma NoFreeBlock(fat: seq<int>)
    requires FindFree(fat, 0) < 0
    ensures InUse(fat) == |fat|
  {
    forall b | 0 <= b < |fat| ensures fat[b] != 0 {
      if fat[b] == 0 {
        FindFreeLowest(fat, 0, b);
      }
    }
    FullDisk(fat);
  }

  lemma LinkGrows(fat: seq<int>, area: seq<char>, start: int, ch: seq<int>, bytes: seq<char>, spare: int)
    returns (ext: seq<int>)
    requires Ready(fat, area, start, ch, BLOCK_SIZE) && bytes != []
    requires fat[0] != 0 && spare == FindFree(fat, 0) && spare >= 0
    ensures Grown(fat, area, start, ch, BLOCK_SIZE, bytes,
                  FillBlock(Link(fat, ch[|ch| - 1], spare), area, spare, 0, bytes), [spare] + ext)
    decreases |bytes|, 1
  {
    hide GrownFat, GrownArea, FindFree, FillBlock;
    ReadyLast(fat, area, start, ch, BLOCK_SIZE);
    var last := ch[|ch| - 1];
    ChainExtend(fat, start, ch, spare);
    var fat1 := Link(fat, last, spare);
    ext := FillGrows(fat1, area, start, ch + [spare], 0, bytes);
    var r := FillBlock(fat1, area, spare, 0, bytes);
    LinkFat(fat, start, ch, spare, r.fat, ext);
    LinkInUse(fat, last, spare);
    BusyExact(fat1);
    ChainFits(fat, area, ch);
    LinkArea(area, ch, spare, bytes[..r.written], r.area, ext);
    assert ch + [spare] + ext == ch + ([spare] + ext);
  }

  /** The append loop, from any offset of the last block. */
  lemma {:induction false} AppendGrows(fat: seq<int>, area: seq<char>, start: int, ch: seq<int>, off: int, bytes: seq<char>)
    returns (ext: seq<int>)
    requires Ready(fat, area, start, ch, off)
    requires |bytes| <= BLOCK_SIZE - off || fat[0] != 0
    ensures 0 <= ch[|ch| - 1] < |fat|
    ensures Grown(fat, area, start, ch, off, bytes, Append(fat, area, ch[|ch| - 1], off, bytes), ext)
    decreases |bytes|, 2
  {
    hide GrownFat, GrownArea, FindFree, FillBlock;
    ReadyLast(fat, area, start, ch, off);
    BusyExact(fat);
    ext := [];
    if bytes == [] {
      NothingWritten(fat, area, start, ch, off);
    } else if off < BLOCK_SIZE {
      ext := FillGrows(fat, area, start, ch, off, bytes);
    } else {
      var spare := FindFree(fat, 0);
      if spare < 0 {
        NoFreeBlock(fat);
        NothingWritten(fat, area, start, ch, off);
        assert bytes[..0] == [];
      } else {
        ext := LinkGrows(fat, area, start, ch, bytes, spare);
        ext := [spare] + ext;
      }
    }
  }
}
