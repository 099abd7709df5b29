/** The file system in its arrays, each operation with its loops. */
module FatDisk {
  import opened FatModel
  import FatReach

  class Disk {
    const fat: array<int>
    const dir: array<Entry>
    const area: array<char>

    /** The zeroed state of a first start. */
    constructor (blocks: nat, entries: nat)
      requires 0 < blocks <= END_OF_CHAIN
      ensures Valid() && FatReach.Blank(Value()) && |Value().fat| == blocks && |Value().dir| == entries
      ensures fresh(fat) && fresh(dir) && fresh(area)
    {
      fat := new int[blocks](_ => 0);
      dir := new Entry[entries](_ => Entry("", 0, 0));
      area := new char[BLOCK_SIZE * blocks](_ => NUL);
      new;
      FatReach.BlankCoherent(Value());
    }

    /** What every operation keeps, safe or not: links in range and at most one surplus reference. */
    ghost predicate Valid()
      reads this, fat, dir, area
    {
      FatReach.Coherent(Value())
    }

    ghost function Value(): Fs
      reads this, fat, dir, area
    {
      Fs(fat[..], dir[..], area[..])
    }

    /** Index of the first entry with this name, or -1. */
    method Lookup(name: string) returns (i: int)
      ensures i == Find(dir[..], name, 0)
    {
      i := 0;
      while i < dir.Length
        invariant 0 <= i <= dir.Length && Find(dir[..], name, 0) == Find(dir[..], name, i)
      {
        if dir[i].name == name { return; }
        i := i + 1;
      }
      i := -1;
    }

    method FindFreeBlock() returns (b: int)
      ensures b == FindFree(fat[..], 0)
    {
      b := 0;
      while b < fat.Length
        invariant 0 <= b <= fat.Length && FindFree(fat[..], 0) == FindFree(fat[..], b)
      {
        if fat[b] == 0 { return; }
        b := b + 1;
      }
      b := -1;
    }

    method CreateFile(name: string) returns (ok: bool)
      requires Valid() && GoodName(name)
      modifies fat, dir
      ensures Valid() && Outcome(ok, Value()) == Create(old(Value()), name)
    {
      FatReach.CreateCoherent(Value(), name);
      var at := Lookup(name);
      if at >= 0 { return false; }
      for i := 0 to dir.Length
        invariant Value() == old(Value())
        invariant Find(dir[..], "", 0) == Find(dir[..], "", i) || FindFree(fat[..], 0) < 0
      {
        if dir[i].name == "" {
          for b := 0 to fat.Length
            invariant Value() == old(Value())
            invariant FindFree(fat[..], 0) == FindFree(fat[..], b)
          {
            if fat[b] == 0 {
              fat[b] := END_OF_CHAIN;
              dir[i] := Entry(name, b, 0);
              return true;
            }
          }
        }
      }
      ok := false;
    }

    /** memcpy into the data area. */
    method CopyIn(at: int, bytes: seq<char>)
      requires 0 <= at && at + |bytes| <= area.Length
      modifies area
      ensures area[..] == Store(old(area[..]), at, bytes)
    {
      hide Store;
      StoreNone(area[..], at, bytes);
      for k := 0 to |bytes|
        invariant area[..] == Store(old(area[..]), at, bytes[..k])
      {
        StoreNext(old(area[..]), at, bytes, k);
        ghost var before := area[..];
        area[at + k] := bytes[k];
        assert area[..] == before[at + k := bytes[k]];
      }
      assert bytes[..|bytes|] == bytes;
    }

    static lemma StoreNone(a: seq<char>, at: int, bytes: seq<char>)
      requires 0 <= at && at + |bytes| <= |a|
      ensures Store(a, at, bytes[..0]) == a
    {}

    static lemma StoreNext(a: seq<char>, at: int, bytes: seq<char>, k: nat)
      requires 0 <= at && at + |bytes| <= |a| && k < |bytes|
      ensures Store(a, at, bytes[..k + 1]) == Store(a, at, bytes[..k])[at + k := bytes[k]]
    {
      assert bytes[..k + 1] == bytes[..k] + [bytes[k]];
    }

    method LastBlock(start: int, size: int) returns (block: int)
      requires Shaped(Value()) && 0 <= start < fat.Length
      ensures 0 <= block < fat.Length && block == Seek(fat[..], start, size)
    {
      block := start;
      var remain := size;
      while remain >= BLOCK_SIZE && fat[block] != END_OF_CHAIN
        invariant 0 <= block < fat.Length && Seek(fat[..], start, size) == Seek(fat[..], block, remain)
        decreases remain
      {
        remain := remain - BLOCK_SIZE;
        block := fat[block];
      }
    }

    /** Link the lowest free block behind `block`; -1 when none is left. */
    method LinkFreeBlock(block: int) returns (spare: int)
      requires 0 <= block < fat.Length
      modifies fat
      ensures spare == FindFree(old(fat[..]), 0)
      ensures fat[..] == if spare < 0 then old(fat[..]) else Link(old(fat[..]), block, spare)
    {
      hide FindFree;
      spare := FindFreeBlock();
      if spare >= 0 {
        fat[block] := spare;
        fat[spare] := END_OF_CHAIN;
      }
    }

    /** The append loop. */
    method AppendBytes(block0: int, off0: int, data: string) returns (written: nat)
      requires area.Length == BLOCK_SIZE * fat.Length && 0 <= block0 < fat.Length && 0 <= off0 <= BLOCK_SIZE
      modifies fat, area
      ensures Appended(fat[..], area[..], written) == Append(old(fat[..]), old(area[..]), block0, off0, data)
    {
      hide Append, Store, FindFree;
      var block, off := block0, off0;
      written := 0;
      ghost var all := Append(fat[..], area[..], block, off, data);
      assert data[0..] == data;
      while written < |data|
        invariant written <= |data| && 0 <= block < fat.Length && 0 <= off <= BLOCK_SIZE
        invariant all == After(written, Append(fat[..], area[..], block, off, data[written..]))
      {
        if BLOCK_SIZE - off <= 0 {
          LinkStep(fat[..], area[..], block, data[written..]);
          var spare := LinkFreeBlock(block);
          if spare < 0 { return; }
          block, off := spare, 0;
        }
        var n := if |data| - written < BLOCK_SIZE - off then |data| - written else BLOCK_SIZE - off;
        FillStep(fat[..], area[..], block, off, data, written);
        CopyIn(BLOCK_SIZE * block + off, data[written..written + n]);
        written := written + n;
        off := off + n;
      }
      NothingLeft(fat[..], area[..], block, off);
      assert data[written..] == [];
    }

    static function After(written: nat, r: Appended): Appended {
      r.(written := written + r.written)
    }

    /** A full block: link the lowest free block and go on at its start, or stop. */
    static lemma LinkStep(f: seq<int>, a: seq<char>, block: int, rest: string)
      requires |a| == BLOCK_SIZE * |f| && 0 <= block < |f| && rest != []
      ensures var spare := FindFree(f, 0);
              Append(f, a, block, BLOCK_SIZE, rest)
              == if spare < 0 then Appended(f, a, 0) else Append(Link(f, block, spare), a, spare, 0, rest)
    {}

    /** Room in the block: store what fits and go on behind it. */
    static lemma FillStep(f: seq<int>, a: seq<char>, block: int, off: int, data: string, written: nat)
      requires |a| == BLOCK_SIZE * |f| && 0 <= block < |f| && written < |data| && 0 <= off < BLOCK_SIZE
      ensures var n := Portion(off, data[written..]);
              var a' := Store(a, BLOCK_SIZE * block + off, data[written..written + n]);
              Append(f, a, block, off, data[written..]) == After(n, Append(f, a', block, off + n, data[written + n..]))
    {
      hide Store;
      var rest := data[written..];
      var n := Portion(off, rest);
      assert rest[..n] == data[written..written + n] && rest[n..] == data[written + n..];
    }

    static lemma NothingLeft(f: seq<int>, a: seq<char>, block: int, off: int)
      requires |a| == BLOCK_SIZE * |f| && 0 <= block < |f| && 0 <= off <= BLOCK_SIZE
      ensures Append(f, a, block, off, []) == Appended(f, a, 0)
    {}

    method WriteFile(name: string, data: string) returns (ok: bool)
      requires Valid() && GoodName(name)
      modifies fat, dir, area
      ensures Valid() && Outcome(ok, Value()) == Write(old(Value()), name, data)
    {
      hide FatReach.Sane;
      FatReach.WriteCoherent(Value(), name, data);
      var i := Lookup(name);
      if i < 0 { return false; }
      assert Used(Value().dir[i]);
      var e := dir[i];
      var block := LastBlock(e.start, e.size);
      var written := AppendBytes(block, e.size % BLOCK_SIZE, data);
      dir[i] := e.(size := e.size + written);
      ok := true;
    }

    method Print(at: int, n: int) returns (out: string)
      requires 0 <= at && 0 <= n && at + n <= area.Length
      ensures out == UpToNul(area[at..at + n])
    {
      out := "";
      var k := 0;
      while k < n && area[at + k] != NUL
        invariant 0 <= k <= n && UpToNul(area[at..at + n]) == out + UpToNul(area[at + k..at + n])
      {
        assert area[at + k..at + n][1..] == area[at + k + 1..at + n];
        out := out + [area[at + k]];
        k := k + 1;
      }
    }

    method ReadFile(name: string) returns (reply: Reply)
      requires Valid() && GoodName(name)
      ensures reply == Read(Value(), name)
    {
      hide ReadFrom, UpToNul, Find;
      var i := Lookup(name);
      if i < 0 { return Reply(false, ""); }
      assert Used(Value().dir[i]);
      var total := dir[i].size;
      if total == 0 { return Reply(true, ""); }
      var block, bytesRead, out := dir[i].start, 0, "";
      ghost var all := ReadFrom(fat[..], area[..], block, total);
      while block != END_OF_CHAIN && bytesRead < total
        invariant GoodLink(block, fat.Length) && 0 <= bytesRead
        invariant all == out + ReadFrom(fat[..], area[..], block, total - bytesRead)
        decreases total - bytesRead
      {
        var left := total - bytesRead;
        var n := if left < BLOCK_SIZE then left else BLOCK_SIZE;
        var piece := Print(BLOCK_SIZE * block, n);
        ReadStep(fat[..], area[..], block, left);
        assert area[..][BLOCK_SIZE * block..BLOCK_SIZE * block + n] == area[BLOCK_SIZE * block..BLOCK_SIZE * block + n];
        ghost var rest := ReadFrom(fat[..], area[..], fat[block], left - n);
        assert out + (piece + rest) == out + piece + rest;
        out := out + piece;
        bytesRead := bytesRead + n;
        block := fat[block];
      }
      ReadEnd(fat[..], area[..], block, total - bytesRead);
      assert out + [] == out;
      reply := Reply(true, out);
    }

    static lemma ReadStep(f: seq<int>, a: seq<char>, block: int, left: int)
      requires |a| == BLOCK_SIZE * |f| && |f| <= END_OF_CHAIN && 0 <= block < |f| && left > 0
      requires forall b :: 0 <= b < |f| ==> GoodLink(f[b], |f|)
      ensures var n, at := Min(left, BLOCK_SIZE), BLOCK_SIZE * block;
              ReadFrom(f, a, block, left) == UpToNul(a[at..at + n]) + ReadFrom(f, a, f[block], left - n)
    {}

    static lemma ReadEnd(f: seq<int>, a: seq<char>, block: int, left: int)
      requires |a| == BLOCK_SIZE * |f| && |f| <= END_OF_CHAIN && GoodLink(block, |f|)
      requires forall b :: 0 <= b < |f| ==> GoodLink(f[b], |f|)
      requires block == END_OF_CHAIN || left <= 0
      ensures ReadFrom(f, a, block, left) == []
    {}

    /** Delete; the release loop ends on every reachable disk. */
    method DeleteFile(name: string) returns (ok: bool)
      requires Valid() && GoodName(name)
      modifies fat, dir
      ensures Valid() && Deletion(ok, Value()) == Delete(old(Value()), name)
    {
      hide FatReach.Sane;
      FatReach.DeleteCoherent(Value(), name);
      var i := Lookup(name);
      if i < 0 { return false; }
      assert Used(Value().dir[i]);
      var block := dir[i].start;
      while block != END_OF_CHAIN
        invariant GoodLink(block, fat.Length) && dir[..] == old(dir[..])
        invariant forall b :: 0 <= b < fat.Length ==> GoodLink(fat[..][b], fat.Length)
        invariant Release(fat[..], block) == Release(old(fat[..]), old(dir[..])[i].start)
        decreases InUse(fat[..]), block != 0
      {
        ghost var before := fat[..];
        InUseUpdate(before, block, 0);
        var next := fat[block];
        assert GoodLink(before[block], fat.Length);
        fat[block] := 0;
        assert fat[..] == before[block := 0];
        assert next == 0 ==> before[block := 0] == before;
        block := next;
      }
      dir[i] := dir[i].(name := "");
      ok := true;
    }
  }
}
