/** Whole sessions, from a blank disk. */
module FatRuns {
  import opened FatModel
  import opened FatChains
  import opened FatFrame
  import opened FatSpec
  import opened FatOps
  import opened FatReadBack
  import opened FatReach

  datatype Progress = Stuck | Next(reply: Reply, fs: Fs)

  /** One command; a delete that never returns leaves the session stuck. */
  function Exec(fs: Fs, cmd: Command): Progress
    requires Shaped(fs) && cmd.name != ""
  {
    match cmd
    case DoCreate(name) =>
      var r := Create(fs, name);
      Next(Reply(r.ok, ""), r.fs)
    case DoWrite(name, data) =>
      var r := Write(fs, name, data);
      Next(Reply(r.ok, ""), r.fs)
    case DoRead(name) => Next(Read(fs, name), fs)
    case DoDelete(name) =>
      var r := Delete(fs, name);
      if r.Hangs? then Stuck else Next(Reply(r.ok, ""), r.fs)
  }

  lemma ExecShaped(fs: Fs, cmd: Command)
    requires Shaped(fs) && cmd.name != ""
    ensures Exec(fs, cmd).Next? ==> Shaped(Exec(fs, cmd).fs)
  {
    hide Create, Write, Read, Delete, Shaped;
    match cmd {
      case DoCreate(name) => CreatedShaped(fs, name);
      case DoWrite(name, data) => WriteShaped(fs, name, data);
      case DoRead(name) =>
      case DoDelete(name) =>
        if Delete(fs, name).Deletion? {
          DeleteShaped(fs, name);
        }
    }
  }

  // ---------------------------------------------------------------- no session gets stuck

  /** On a reachable disk every command returns, and leaves a reachable disk. */
  lemma ExecCoherent(fs: Fs, cmd: Command)
    requires Coherent(fs) && cmd.name != ""
    ensures Exec(fs, cmd).Next? && Coherent(Exec(fs, cmd).fs)
  {
    hide Create, Write, Read, Delete;
    match cmd {
      case DoCreate(name) => CreateCoherent(fs, name);
      case DoWrite(name, data) => WriteCoherent(fs, name, data);
      case DoRead(name) =>
      case DoDelete(name) => DeleteCoherent(fs, name);
    }
  }

  /** Every session is answered to its end, whatever its writes overlay or link. */
  lemma {:induction false} NeverStuck(fs: Fs, cmds: seq<Command>)
    requires Coherent(fs) && forall i :: 0 <= i < |cmds| ==> cmds[i].name != ""
    ensures |Replies(fs, cmds)| == |cmds|
    decreases |cmds|
  {
    hide Exec, Coherent;
    CoherentShaped(fs);
    if cmds != [] {
      ExecCoherent(fs, cmds[0]);
      NeverStuck(Exec(fs, cmds[0]).fs, cmds[1..]);
    }
  }

  lemma CoherentShaped(fs: Fs)
    requires Coherent(fs)
    ensures Shaped(fs)
  {}

  lemma SessionNeverStuck(fs: Fs, cmds: seq<Command>)
    requires Blank(fs) && forall i :: 0 <= i < |cmds| ==> cmds[i].name != ""
    ensures Shaped(fs) && |Replies(fs, cmds)| == |cmds|
  {
    BlankCoherent(fs);
    NeverStuck(fs, cmds);
  }

  // ---------------------------------------------------------------- refinement

  /** A command the code handles: a proper name, and a write that neither overlays nor links to block 0. */
  predicate Safe(fs: Fs, cmd: Command) {
    && GoodName(cmd.name) && |fs.fat| > 0
    && (cmd.DoWrite? ==>
          && NUL !in cmd.data
          && var i := Find(fs.dir, cmd.name, 0);
             i >= 0 ==> !Overlays(fs.dir[i], cmd.data) && !LinksZero(fs, fs.dir[i], cmd.data))
  }

  /** Every name the directory field can hold will do. */
  lemma NamesAllowed(fs: Fs, name: string)
    requires |fs.fat| > 0 && 0 < |name| < 100 && '\0' !in name
    ensures Safe(fs, DoCreate(name)) && Safe(fs, DoRead(name)) && Safe(fs, DoDelete(name))
  {}

  ghost predicate SafeRun(fs: Fs, cmds: seq<Command>)
    requires Shaped(fs)
    decreases |cmds|
  {
    cmds == [] ||
    (&& Safe(fs, cmds[0])
     && (Exec(fs, cmds[0]).Next? ==> (ExecShaped(fs, cmds[0]); SafeRun(Exec(fs, cmds[0]).fs, cmds[1..]))))
  }

  /** The replies of a session, up to where it gets stuck. */
  ghost function Replies(fs: Fs, cmds: seq<Command>): seq<Reply>
    requires Shaped(fs) && forall i :: 0 <= i < |cmds| ==> cmds[i].name != ""
    decreases |cmds|
  {
    if cmds == [] || Exec(fs, cmds[0]).Stuck? then []
    else
      ExecShaped(fs, cmds[0]);
      [Exec(fs, cmds[0]).reply] + Replies(Exec(fs, cmds[0]).fs, cmds[1..])
  }

  function SpecReplies(blocks: int, slots: seq<Slot>, cmds: seq<Command>): seq<Reply>
    decreases |cmds|
  {
    if cmds == [] then []
    else
      var a := Spec(blocks, slots, cmds[0]);
      [a.reply] + SpecReplies(blocks, a.slots, cmds[1..])
  }

  lemma ExecRefines(fs: Fs, chains: seq<seq<int>>, slots: seq<Slot>, cmd: Command) returns (chains': seq<seq<int>>)
    requires Represents(fs, chains, slots) && Safe(fs, cmd)
    ensures Shaped(fs)
    ensures var r, a := Exec(fs, cmd), Spec(|fs.fat|, slots, cmd);
            r.Next? && r.reply == a.reply && |r.fs.fat| == |fs.fat| && Represents(r.fs, chains', a.slots)
  {
    hide Represents, Spec, Create, Write, Read, Delete, Find, Shaped, Overlays, LinksZero, Inv;
    RepresentsInv(fs, chains, slots);
    InvShaped(fs, chains);
    SameBlockCount(fs, cmd);
    SpecQuiet(|fs.fat|, slots, cmd);
    match cmd {
      case DoCreate(name) => chains' := CreateRefines(fs, chains, slots, name);
      case DoWrite(name, data) => chains' := WriteRefines(fs, chains, slots, name, data);
      case DoRead(name) =>
        ReadRefines(fs, chains, slots, name);
        chains' := chains;
      case DoDelete(name) => chains' := DeleteRefines(fs, chains, slots, name);
    }
  }

  lemma SameBlockCount(fs: Fs, cmd: Command)
    requires Shaped(fs) && cmd.name != ""
    ensures Exec(fs, cmd).Next? ==> |Exec(fs, cmd).fs.fat| == |fs.fat|
  {}

  /** Only reads print, and they change nothing. */
  lemma SpecQuiet(blocks: int, slots: seq<Slot>, cmd: Command)
    ensures !cmd.DoRead? ==> Spec(blocks, slots, cmd).reply.output == ""
    ensures cmd.DoRead? ==> Spec(blocks, slots, cmd).slots == slots
  {}

  /** Every safe session gets exactly the replies of the slot machine, and never gets stuck. */
  lemma {:induction false} RunRefines(fs: Fs, chains: seq<seq<int>>, slots: seq<Slot>, cmds: seq<Command>)
    requires Represents(fs, chains, slots) && Shaped(fs) && SafeRun(fs, cmds)
    ensures forall i :: 0 <= i < |cmds| ==> cmds[i].name != ""
    ensures Replies(fs, cmds) == SpecReplies(|fs.fat|, slots, cmds)
    decreases |cmds|
  {
    hide Represents, Spec, Shaped, Exec;
    if cmds != [] {
      var chains' := ExecRefines(fs, chains, slots, cmds[0]);
      ExecShaped(fs, cmds[0]);
      var fs' := Exec(fs, cmds[0]).fs;
      RunRefines(fs', chains', Spec(|fs.fat|, slots, cmds[0]).slots, cmds[1..]);
      assert forall i :: 1 <= i < |cmds| ==> cmds[i] == cmds[1..][i - 1];
    }
  }

  lemma {:induction false} EmptyLists(n: nat) returns (chains: seq<seq<int>>, slots: seq<Slot>)
    ensures |chains| == |slots| == n
    ensures forall i :: 0 <= i < n ==> chains[i] == [] && slots[i] == Empty
  {
    chains, slots := [], [];
    if n > 0 {
      chains, slots := EmptyLists(n - 1);
      chains, slots := chains + [[]], slots + [Empty];
    }
  }

  lemma BlankRepresents(fs: Fs) returns (chains: seq<seq<int>>, slots: seq<Slot>)
    requires Blank(fs)
    ensures Represents(fs, chains, slots) && forall i :: 0 <= i < |slots| ==> slots[i] == Empty
  {
    chains, slots := EmptyLists(|fs.dir|);
  }

  /** From a blank disk, a safe session is a session with the slot machine. */
  lemma SessionRefines(fs: Fs, cmds: seq<Command>)
    requires Blank(fs)
    ensures Shaped(fs)
    ensures SafeRun(fs, cmds) ==>
              exists slots ::
                && |slots| == |fs.dir| && (forall i :: 0 <= i < |slots| ==> slots[i] == Empty)
                && (forall i :: 0 <= i < |cmds| ==> cmds[i].name != "")
                && Replies(fs, cmds) == SpecReplies(|fs.fat|, slots, cmds)
  {
    hide Replies, SpecReplies;
    var chains, slots := BlankRepresents(fs);
    if SafeRun(fs, cmds) {
      RunRefines(fs, chains, slots, cmds);
    }
  }

  // ---------------------------------------------------------------- what goes wrong otherwise

  function Bytes(n: nat): (s: string)
    ensures |s| == n && forall c :: c in s ==> c == 'x'
  {
    if n == 0 then [] else Bytes(n - 1) + ['x']
  }

  lemma FirstCreate(fs: Fs, name: string)
    requires Blank(fs) && |fs.dir| >= 1 && name != ""
    ensures Create(fs, name) == Outcome(true, Fs(fs.fat[0 := END_OF_CHAIN], fs.dir[0 := Entry(name, 0, 0)], fs.area))
  {
    FoundNone(fs.dir, name, 0);
    assert FindFree(fs.fat, 0) == 0 && Find(fs.dir, "", 0) == 0;
  }

  lemma {:induction false} FoundNone(dir: seq<Entry>, name: string, i: nat)
    requires i <= |dir| && forall j :: i <= j < |dir| ==> dir[j].name != name
    ensures Find(dir, name, i) == -1
    decreases |dir| - i
  {
    if i < |dir| {
      FoundNone(dir, name, i + 1);
    }
  }

  /** A block's worth of bytes goes into an empty file without linking. */
  lemma FillOneBlock(fs: Fs, name: string, data: string)
    requires Shaped(fs) && name != "" && |fs.dir| >= 1 && |data| == BLOCK_SIZE
    requires fs.dir[0] == Entry(name, 0, 0)
    ensures var r := Write(fs, name, data); r.fs.dir == fs.dir[0 := Entry(name, 0, BLOCK_SIZE)] && r.fs.fat == fs.fat
  {
    assert Find(fs.dir, name, 0) == 0;
    assert Seek(fs.fat, 0, 0) == 0;
    assert data[BLOCK_SIZE..] == [];
    var area := Store(fs.area, 0, data[..BLOCK_SIZE]);
    assert Append(fs.fat, area, 0, BLOCK_SIZE, []) == Appended(fs.fat, area, 0);
    assert Append(fs.fat, fs.area, 0, 0, data) == FillBlock(fs.fat, fs.area, 0, 0, data);
  }

  /** Reachable: one block filled exactly, then one byte more; a read shows less than the 33 bytes written. */
  lemma OverlayRun(fs: Fs)
    requires Blank(fs) && |fs.dir| >= 1
    ensures Safe(fs, DoCreate("a"))
    ensures var fs1 := Create(fs, "a").fs;
            Shaped(fs1) && Safe(fs1, DoWrite("a", Bytes(BLOCK_SIZE))) &&
            var fs2 := Write(fs1, "a", Bytes(BLOCK_SIZE)).fs;
            Shaped(fs2) &&
            var fs3 := Write(fs2, "a", "y").fs;
            Shaped(fs3) && |Read(fs3, "a").output| < BLOCK_SIZE + 1 == fs3.dir[0].size
  {
    hide Represents, Write, Read, Bytes, Inv, Create, Append, Shaped;
    var chains, slots := BlankRepresents(fs);
    var data := Bytes(BLOCK_SIZE);
    FirstCreate(fs, "a");
    var fs1 := Create(fs, "a").fs;
    var chains1 := CreateRefines(fs, chains, slots, "a");
    var slots1 := Spec(|fs.fat|, slots, DoCreate("a")).slots;
    RepresentsInv(fs1, chains1, slots1);
    InvShaped(fs1, chains1);
    assert Find(fs1.dir, "a", 0) == 0;
    var chains2 := WriteRefines(fs1, chains1, slots1, "a", data);
    var fs2 := Write(fs1, "a", data).fs;
    RepresentsInv(fs2, chains2, Spec(|fs1.fat|, slots1, DoWrite("a", data)).slots);
    InvShaped(fs2, chains2);
    FillOneBlock(fs1, "a", data);
    assert Find(fs2.dir, "a", 0) == 0;
    OverlayLosesData(fs2, chains2, "a", "y");
    OneMore(fs2, chains2);
  }

  lemma OneMore(fs: Fs, chains: seq<seq<int>>)
    requires Inv(fs, chains) && |fs.dir| >= 1 && Find(fs.dir, "a", 0) == 0
    requires Overlays(fs.dir[0], "y")
    ensures Write(fs, "a", "y").fs.dir[0].size == fs.dir[0].size + 1
  {
    hide Owned, Seek, Store;
    var e := fs.dir[0];
    var block := Seek(fs.fat, e.start, e.size);
    var area := Store(fs.area, BLOCK_SIZE * block, "y");
    assert "y"[1..] == [] && "y"[..1] == "y";
    assert Append(fs.fat, area, block, 1, []) == Appended(fs.fat, area, 0);
  }

  // ---------------------------------------------------------------- two files, one block

  /** Appending one byte more than a block when block 0 is free marks the file's own block as free. */
  lemma AppendFreesItself(fat: seq<int>, area: seq<char>, data: string)
    requires |area| == BLOCK_SIZE * |fat| && |fat| >= 2 && fat[0] == 0 && |data| == BLOCK_SIZE + 1
    ensures var r := Append(fat, area, 1, 0, data); r.fat == fat[1 := 0][0 := END_OF_CHAIN] && r.written == |data|
  {
    var rest := data[BLOCK_SIZE..];
    var area1 := Store(area, BLOCK_SIZE, data[..BLOCK_SIZE]);
    assert FindFree(fat, 0) == 0;
    var fat1 := Link(fat, 1, 0);
    var area2 := Store(area1, 0, rest[..1]);
    assert rest[1..] == [];
    assert Append(fat1, area2, 0, 1, []) == Appended(fat1, area2, 0);
    assert FillBlock(fat1, area1, 0, 0, rest) == Appended(fat1, area2, 1);
    assert Append(fat, area1, 1, BLOCK_SIZE, rest) == Appended(fat1, area2, 1);
    assert FillBlock(fat, area, 1, 0, data) == Appended(fat1, area2, BLOCK_SIZE + 1);
  }

  /** The disk after create a, create b, delete a. */
  lemma ZeroFreed(fs: Fs)
    requires Blank(fs) && |fs.fat| >= 2 && |fs.dir| >= 2
    ensures var fs2 := Create(Create(fs, "a").fs, "b").fs;
            && Shaped(fs2) && Delete(fs2, "a").Deletion?
            && var fs3 := Delete(fs2, "a").fs;
               && fs3.fat == fs.fat[1 := END_OF_CHAIN] && |fs3.area| == BLOCK_SIZE * |fs3.fat|
               && fs3.dir == fs.dir[1 := Entry("b", 1, 0)] && Shaped(fs3)
  {
    hide Release;
    FirstCreate(fs, "a");
    var fs1 := Create(fs, "a").fs;
    assert Blank(fs) && Shaped(fs);
    CreatedShaped(fs, "a");
    FoundNone(fs1.dir, "b", 0);
    assert Find(fs1.dir, "", 1) == 1 && Find(fs1.dir, "", 0) == 1;
    assert FindFree(fs1.fat, 1) == 1 && FindFree(fs1.fat, 0) == 1;
    var fs2 := Create(fs1, "b").fs;
    CreatedShaped(fs1, "b");
    assert Find(fs2.dir, "a", 0) == 0;
    ReleaseOne(fs2.fat, 0);
    ExecShaped(fs2, DoDelete("a"));
    var fs3 := Delete(fs2, "a").fs;
    assert fs3.fat == fs.fat[1 := END_OF_CHAIN];
    assert fs3.dir == fs.dir[1 := Entry("b", 1, 0)];
  }

  lemma ReleaseOne(fat: seq<int>, b: nat)
    requires 0 < |fat| <= END_OF_CHAIN && GoodLinks(fat) && b < |fat| && fat[b] == END_OF_CHAIN
    ensures Release(fat, b) == Released(fat[b := 0])
  {
    InUseUpdate(fat, b, 0);
    SetLink(fat, b, 0);
  }

  /** Nothing is damaged so far. */
  lemma ZeroFreedInv(fs: Fs) returns (chains: seq<seq<int>>)
    requires Blank(fs) && |fs.fat| >= 2 && |fs.dir| >= 2
    ensures var fs2 := Create(Create(fs, "a").fs, "b").fs;
            Shaped(fs2) && Delete(fs2, "a").Deletion? && Inv(Delete(fs2, "a").fs, chains)
  {
    hide Represents, Spec, Create, Delete, Shaped, Inv, Blank;
    var chains0, slots := BlankRepresents(fs);
    var chains1 := CreateRefines(fs, chains0, slots, "a");
    var fs1, slots1 := Create(fs, "a").fs, Spec(|fs.fat|, slots, DoCreate("a")).slots;
    var chains2 := CreateRefines(fs1, chains1, slots1, "b");
    var fs2, slots2 := Create(fs1, "b").fs, Spec(|fs1.fat|, slots1, DoCreate("b")).slots;
    RepresentsInv(fs2, chains2, slots2);
    InvShaped(fs2, chains2);
    chains := DeleteRefines(fs2, chains2, slots2, "a");
    RepresentsInv(Delete(fs2, "a").fs, chains, Spec(|fs2.fat|, slots2, DoDelete("a")).slots);
  }

  /** One free block before the file's only one: the long write is still read back. */
  lemma LongWriteReads(fs: Fs, chains: seq<seq<int>>, data: string)
    requires Inv(fs, chains) && |fs.fat| >= 2 && fs.fat[0] == 0 && |data| == BLOCK_SIZE + 1 && NUL !in data
    requires Find(fs.dir, "b", 0) == 1 && fs.dir[1] == Entry("b", 1, 0)
    ensures Shaped(Write(fs, "b", data).fs) && Read(Write(fs, "b", data).fs, "b").output == data
  {
    hide Write, Read, Find, Shaped, Inv, Flat, IsChain;
    WriteReady(fs, chains, "b");
    OwnPath(fs, fs.dir[1], chains[1]);
    PathStart(fs.fat, 1, chains[1]);
    assert FreeBelow(fs.fat, 1) == FreeBelow(fs.fat, 0) + 1;
    FreeMeansRoom(fs.fat);
    FindFreeLowest(fs.fat, 0, 0);
    ReadBefore(fs, chains, "b");
    WriteAppendsIff(fs, chains, "b", data);
    assert data[..BLOCK_SIZE + 1] == data && [] + data == data;
  }

  /** With entries 0 and 1 on the same block, what is written to one shows in the other. */
  lemma SharedBlockShows(fs: Fs)
    requires Shaped(fs) && |fs.fat| >= 2 && fs.fat[1] == END_OF_CHAIN && |fs.dir| >= 2
    requires fs.dir[0] == Entry("c", 1, 0) && fs.dir[1] == Entry("b", 1, BLOCK_SIZE + 1)
    ensures var fs' := Write(fs, "c", "y").fs;
            && Shaped(fs') && 'y' in Read(fs', "b").output && |Read(fs', "b").output| <= BLOCK_SIZE
  {
    hide Find, Shaped;
    WriteShaped(fs, "c", "y");
    ShapedSize(fs);
    FindFirst(fs.dir, "c", 0, 0);
    assert Seek(fs.fat, 1, 0) == 1;
    assert "y"[1..] == [] && "y"[..1] == "y";
    var area := Store(fs.area, BLOCK_SIZE, "y");
    assert Append(fs.fat, area, 1, 1, []) == Appended(fs.fat, area, 0);
    assert FillBlock(fs.fat, fs.area, 1, 0, "y") == Appended(fs.fat, area, 1);
    var fs' := Write(fs, "c", "y").fs;
    assert fs' == Fs(fs.fat, fs.dir[0 := Entry("c", 1, 1)], area);
    SecondFound(fs'.dir);
    ReadOneBlock(fs'.fat, area);
  }

  lemma SecondFound(dir: seq<Entry>)
    requires |dir| >= 2 && dir[0].name != "b" && dir[1].name == "b"
    ensures Find(dir, "b", 0) == 1
  {
    assert Find(dir, "b", 1) == 1;
  }

  lemma ReadOneBlock(fat: seq<int>, area: seq<char>)
    requires |area| == BLOCK_SIZE * |fat| && 2 <= |fat| <= END_OF_CHAIN && GoodLinks(fat)
    requires fat[1] == END_OF_CHAIN && area[BLOCK_SIZE] == 'y'
    ensures var out := ReadFrom(fat, area, 1, BLOCK_SIZE + 1); 'y' in out && |out| <= BLOCK_SIZE
  {
    var piece := area[BLOCK_SIZE..BLOCK_SIZE + BLOCK_SIZE];
    assert ReadFrom(fat, area, END_OF_CHAIN, 1) == [];
    PrintedLength(piece);
    assert UpToNul(piece)[0] == 'y';
    assert ReadFrom(fat, area, 1, BLOCK_SIZE + 1) == UpToNul(piece) + [];
  }

  /**
   Reachable: a long write to b while block 0 is free is still read back; after
   a create c starts at the same block, and a write to c shows in b.
   */
  lemma SharedBlockRun(fs: Fs)
    requires Blank(fs) && |fs.fat| >= 2 && |fs.dir| >= 2
    ensures var fs2 := Create(Create(fs, "a").fs, "b").fs;
            && Shaped(fs2) && Delete(fs2, "a").Deletion? && Shaped(Delete(fs2, "a").fs)
            && var fs4 := Write(Delete(fs2, "a").fs, "b", Bytes(BLOCK_SIZE + 1)).fs;
               var fs5 := Create(fs4, "c").fs;
               && Shaped(fs4) && Read(fs4, "b").output == Bytes(BLOCK_SIZE + 1)
               && Shaped(fs5) && |fs5.dir| == |fs.dir| && fs5.dir[0].name == "c" && fs5.dir[1].name == "b"
               && fs5.dir[0].start == fs5.dir[1].start
               && var fs6 := Write(fs5, "c", "y").fs;
                  Shaped(fs6) && 'y' in Read(fs6, "b").output && Read(fs6, "b").output != Bytes(BLOCK_SIZE + 1)
  {
    hide Bytes, Append, Shaped, Delete, Read, Inv, Find;
    ZeroFreed(fs);
    var fs3 := Delete(Create(Create(fs, "a").fs, "b").fs, "a").fs;
    var data := Bytes(BLOCK_SIZE + 1);
    SecondFound(fs3.dir);
    var chains := ZeroFreedInv(fs);
    LongWriteReads(fs3, chains, data);
    LongWrite(fs3, data);
    var fs4 := Write(fs3, "b", data).fs;
    ThirdCreate(fs4);
    CreatedShaped(fs4, "c");
    SharedBlockShows(Create(fs4, "c").fs);
  }

  lemma LongWrite(fs: Fs, data: string)
    requires Shaped(fs) && |fs.fat| >= 2 && fs.fat[0] == 0 && |data| == BLOCK_SIZE + 1
    requires Find(fs.dir, "b", 0) == 1 && fs.dir[1] == Entry("b", 1, 0)
    ensures var fs' := Write(fs, "b", data).fs;
            fs'.fat == fs.fat[1 := 0][0 := END_OF_CHAIN] && fs'.dir == fs.dir[1 := Entry("b", 1, BLOCK_SIZE + 1)]
  {
    hide Append, Find;
    assert Seek(fs.fat, 1, 0) == 1;
    AppendFreesItself(fs.fat, fs.area, data);
  }

  lemma ThirdCreate(fs: Fs)
    requires |fs.fat| >= 2 && fs.fat[0] != 0 && fs.fat[1] == 0 && |fs.dir| >= 2
    requires fs.dir[0].name == "" && forall i :: 0 <= i < |fs.dir| ==> fs.dir[i].name != "c"
    ensures Create(fs, "c") == Outcome(true, Fs(fs.fat[1 := END_OF_CHAIN], fs.dir[0 := Entry("c", 1, 0)], fs.area))
  {
    assert FindFree(fs.fat, 1) == 1 && FindFree(fs.fat, 0) == 1;
    FoundNone(fs.dir, "c", 0);
    assert Find(fs.dir, "", 0) == 0;
  }
}
