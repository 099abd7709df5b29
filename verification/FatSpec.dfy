/**
 The file system as its user sees it: directory slots that are empty or hold a
 name with a byte string, and a number of blocks that limits what fits.
 */
module FatSpec {
  import opened FatModel
  import opened FatChains
  import opened FatFrame

  function FindSlot(slots: seq<Slot>, name: string, i: nat): (r: int)
    requires i <= |slots|
    ensures -1 <= r < |slots|
    ensures r >= 0 ==> slots[r].File? && slots[r].name == name
    decreases |slots| - i
  {
    if i == |slots| then -1
    else if slots[i].File? && slots[i].name == name then i
    else FindSlot(slots, name, i + 1)
  }

  function FirstEmpty(slots: seq<Slot>, i: nat): (r: int)
    requires i <= |slots|
    ensures -1 <= r < |slots|
    decreases |slots| - i
  {
    if i == |slots| then -1 else if slots[i].Empty? then i else FirstEmpty(slots, i + 1)
  }

  function Occupied(slots: seq<Slot>): int {
    if slots == [] then 0
    else
      var last := slots[|slots| - 1];
      Occupied(slots[..|slots| - 1]) + if last.File? then BlocksFor(|last.content|) else 0
  }

  datatype Command =
    | DoCreate(name: string)
    | DoWrite(name: string, data: string)
    | DoRead(name: string)
    | DoDelete(name: string)

  datatype Effect = Effect(reply: Reply, slots: seq<Slot>)

  /** Bytes a file can still take. */
  function Room(blocks: int, slots: seq<Slot>, content: string): int {
    BLOCK_SIZE * BlocksFor(|content|) - |content| + BLOCK_SIZE * (blocks - Occupied(slots))
  }

  function Spec(blocks: int, slots: seq<Slot>, cmd: Command): Effect {
    var at := FindSlot(slots, cmd.name, 0);
    match cmd
    case DoCreate(name) =>
      var i := FirstEmpty(slots, 0);
      if at >= 0 || i < 0 || Occupied(slots) >= blocks then Effect(Reply(false, ""), slots)
      else Effect(Reply(true, ""), slots[i := File(name, "")])
    case DoWrite(name, data) =>
      if at < 0 then Effect(Reply(false, ""), slots)
      else
        var content := slots[at].content;
        var n := Min(|data|, Room(blocks, slots, content));
        Effect(Reply(true, ""), slots[at := File(name, content + if n < 0 then [] else data[..n])])
    case DoRead(name) =>
      Effect(if at < 0 then Reply(false, "") else Reply(true, slots[at].content), slots)
    case DoDelete(name) =>
      if at < 0 then Effect(Reply(false, ""), slots) else Effect(Reply(true, ""), slots[at := Empty])
  }

  // ---------------------------------------------------------------- the state behind it

  ghost predicate Shows(fs: Fs, e: Entry, ch: seq<int>, slot: Slot) {
    SlotOk(fs, e, ch) && View(fs, e, ch) == slot
  }

  ghost predicate Represents(fs: Fs, chains: seq<seq<int>>, slots: seq<Slot>) {
    && Inv(fs, chains) && |slots| == |fs.dir| == |chains|
    && forall i :: 0 <= i < |slots| ==> Shows(fs, fs.dir[i], chains[i], slots[i])
  }

  lemma {:induction false} FindAgrees(fs: Fs, chains: seq<seq<int>>, slots: seq<Slot>, name: string, i: nat)
    requires Represents(fs, chains, slots) && name != "" && i <= |slots|
    ensures Find(fs.dir, name, i) == FindSlot(slots, name, i)
    decreases |slots| - i
  {
    hide SlotOk, Inv;
    if i < |slots| {
      assert Shows(fs, fs.dir[i], chains[i], slots[i]);
      FindAgrees(fs, chains, slots, name, i + 1);
    }
  }

  lemma {:induction false} EmptyAgrees(fs: Fs, chains: seq<seq<int>>, slots: seq<Slot>, i: nat)
    requires Represents(fs, chains, slots) && i <= |slots|
    ensures Find(fs.dir, "", i) == FirstEmpty(slots, i)
    decreases |slots| - i
  {
    hide SlotOk, Inv;
    if i < |slots| {
      assert Shows(fs, fs.dir[i], chains[i], slots[i]);
      EmptyAgrees(fs, chains, slots, i + 1);
    }
  }

  lemma ShownBlocks(fs: Fs, e: Entry, ch: seq<int>, slot: Slot)
    requires Shows(fs, e, ch, slot)
    ensures Used(e) <==> slot.File?
    ensures Used(e) ==> |slot.content| == e.size && slot.name == e.name
  {}

  lemma {:induction false} OccupiedAgrees(fs: Fs, chains: seq<seq<int>>, slots: seq<Slot>, n: nat)
    requires Represents(fs, chains, slots) && n <= |slots|
    ensures Occupied(slots[..n]) == UsedBlocks(fs.dir[..n])
  {
    hide Shows, Inv, BlocksFor;
    if n > 0 {
      OccupiedAgrees(fs, chains, slots, n - 1);
      ShownBlocks(fs, fs.dir[n - 1], chains[n - 1], slots[n - 1]);
      assert slots[..n][..n - 1] == slots[..n - 1] && fs.dir[..n][..n - 1] == fs.dir[..n - 1];
    }
  }

  lemma FreeAgrees(fs: Fs, chains: seq<seq<int>>, slots: seq<Slot>)
    requires Represents(fs, chains, slots)
    ensures InUse(fs.fat) == Occupied(slots)
  {
    hide Shows, Inv;
    OccupiedAgrees(fs, chains, slots, |slots|);
    assert slots[..|slots|] == slots && fs.dir[..|slots|] == fs.dir;
    Conservation(fs, chains);
  }

  /** Replacing entry i replaces slot i. */
  lemma SwapShows(fs: Fs, chains: seq<seq<int>>, slots: seq<Slot>, i: nat, fs': Fs, e: Entry, ch: seq<int>, slot: Slot)
    requires Represents(fs, chains, slots) && Swaps(fs, chains, i, fs', e, ch) && Shows(fs', e, ch, slot)
    ensures Represents(fs', chains[i := ch], slots[i := slot])
  {
    hide Inv, Swaps, SlotOk, View;
    SwapKeepsInv(fs, chains, i, fs', e, ch);
    SwapDir(fs, chains, i, fs', e, ch);
    forall j | 0 <= j < |slots| ensures Shows(fs', fs'.dir[j], chains[i := ch][j], slots[i := slot][j]) {
      assert Shows(fs, fs.dir[j], chains[j], slots[j]);
      if j != i {
        assert ViewKept(fs, fs', fs.dir[j], chains[j]);
      }
    }
  }

  lemma SwapDir(fs: Fs, chains: seq<seq<int>>, i: nat, fs': Fs, e: Entry, ch: seq<int>)
    requires Inv(fs, chains) && Swaps(fs, chains, i, fs', e, ch)
    ensures |chains| == |fs.dir| && i < |fs.dir| && fs'.dir == fs.dir[i := e]
  {}
}
