/**
 The file system state and the meaning of its four operations, on values.
 The number of blocks and of directory entries are those of the given state.
 */
module FatModel {
  const BLOCK_SIZE: int := 32
  const END_OF_CHAIN: int := 0xFFFF
  const MAX_FILE_NAME: int := 100
  const NUL: char := '\0'

  /** `name` is empty in an unused entry. */
  datatype Entry = Entry(name: string, start: int, size: int)

  datatype Fs = Fs(fat: seq<int>, dir: seq<Entry>, area: seq<char>)

  predicate Used(e: Entry) {
    e.name != ""
  }

  /** A name as a caller may pass it. */
  predicate GoodName(name: string) {
    0 < |name| < MAX_FILE_NAME && NUL !in name
  }

  predicate GoodLink(x: int, blocks: int) {
    0 <= x < blocks || x == END_OF_CHAIN
  }

  ghost predicate Shaped(fs: Fs) {
    && 0 < |fs.fat| <= END_OF_CHAIN
    && |fs.area| == BLOCK_SIZE * |fs.fat|
    && (forall b :: 0 <= b < |fs.fat| ==> GoodLink(fs.fat[b], |fs.fat|))
    && (forall i :: 0 <= i < |fs.dir| && Used(fs.dir[i]) ==> 0 <= fs.dir[i].start < |fs.fat| && 0 <= fs.dir[i].size)
  }

  // ---------------------------------------------------------------- scans

  /** The lowest free block from b on, or -1. */
  function FindFree(fat: seq<int>, b: nat): (r: int)
    requires b <= |fat|
    ensures -1 <= r < |fat|
    ensures r >= 0 ==> fat[r] == 0
    decreases |fat| - b
  {
    if b == |fat| then -1 else if fat[b] == 0 then b else FindFree(fat, b + 1)
  }

  lemma {:induction false} FindFreeLowest(fat: seq<int>, b: nat, x: nat)
    requires b <= x < |fat| && fat[x] == 0
    ensures b <= FindFree(fat, b) <= x
    decreases |fat| - b
  {
    if fat[b] != 0 {
      FindFreeLowest(fat, b + 1, x);
    }
  }

  /** The first entry from i on with this name, or -1; with "" the first unused one. */
  function Find(dir: seq<Entry>, name: string, i: nat): (r: int)
    requires i <= |dir|
    ensures -1 <= r < |dir|
    ensures r >= 0 ==> dir[r].name == name
    decreases |dir| - i
  {
    if i == |dir| then -1 else if dir[i].name == name then i else Find(dir, name, i + 1)
  }

  lemma {:induction false} FindFirst(dir: seq<Entry>, name: string, i: nat, x: nat)
    requires i <= x < |dir| && dir[x].name == name
    ensures i <= Find(dir, name, i) <= x
    decreases |dir| - i
  {
    if dir[i].name != name {
      FindFirst(dir, name, i + 1, x);
    }
  }

  // ---------------------------------------------------------------- create

  datatype Outcome = Outcome(ok: bool, fs: Fs)

  function Create(fs: Fs, name: string): Outcome {
    var i, b := Find(fs.dir, "", 0), FindFree(fs.fat, 0);
    if Find(fs.dir, name, 0) >= 0 || i < 0 || b < 0 then Outcome(false, fs)
    else Outcome(true, fs.(fat := fs.fat[b := END_OF_CHAIN], dir := fs.dir[i := Entry(name, b, 0)]))
  }

  // ---------------------------------------------------------------- write

  /** memcpy. */
  function Store(area: seq<char>, at: int, bytes: seq<char>): (r: seq<char>)
    requires 0 <= at && at + |bytes| <= |area|
    ensures |r| == |area|
  {
    area[..at] + bytes + area[at + |bytes|..]
  }

  datatype Appended = Appended(fat: seq<int>, area: seq<char>, written: nat)

  /** Write `bytes` from offset `off` of `block` on, linking free blocks as needed. */
  function Append(fat: seq<int>, area: seq<char>, block: int, off: int, bytes: seq<char>): (r: Appended)
    requires |area| == BLOCK_SIZE * |fat| && 0 <= block < |fat| && 0 <= off <= BLOCK_SIZE
    ensures |r.fat| == |fat| && |r.area| == |area| && r.written <= |bytes|
    decreases |bytes|, 1
  {
    if bytes == [] then Appended(fat, area, 0)
    else if off < BLOCK_SIZE then FillBlock(fat, area, block, off, bytes)
    else
      var spare := FindFree(fat, 0);
      if spare < 0 then Appended(fat, area, 0)
      else FillBlock(Link(fat, block, spare), area, spare, 0, bytes)
  }

  function Link(fat: seq<int>, block: int, spare: int): seq<int>
    requires 0 <= block < |fat| && 0 <= spare < |fat|
  {
    fat[block := spare][spare := END_OF_CHAIN]
  }

  function Portion(off: int, bytes: seq<char>): int {
    if |bytes| < BLOCK_SIZE - off then |bytes| else BLOCK_SIZE - off
  }

  function FillBlock(fat: seq<int>, area: seq<char>, block: int, off: int, bytes: seq<char>): (r: Appended)
    requires |area| == BLOCK_SIZE * |fat| && 0 <= block < |fat| && 0 <= off < BLOCK_SIZE && bytes != []
    ensures |r.fat| == |fat| && |r.area| == |area| && r.written <= |bytes|
    decreases |bytes|, 0
  {
    var n := Portion(off, bytes);
    var r := Append(fat, Store(area, BLOCK_SIZE * block + off, bytes[..n]), block, off + n, bytes[n..]);
    r.(written := n + r.written)
  }

  /** Follow the chain while whole blocks remain and it goes on. */
  function Seek(fat: seq<int>, block: int, remain: int): (r: int)
    requires 0 <= block < |fat| && forall b :: 0 <= b < |fat| ==> GoodLink(fat[b], |fat|)
    ensures 0 <= r < |fat|
    decreases remain
  {
    if remain >= BLOCK_SIZE && fat[block] != END_OF_CHAIN then
      assert GoodLink(fat[block], |fat|);
      Seek(fat, fat[block], remain - BLOCK_SIZE)
    else block
  }

  function Write(fs: Fs, name: string, data: string): Outcome
    requires Shaped(fs) && name != ""
  {
    var i := Find(fs.dir, name, 0);
    if i < 0 then Outcome(false, fs)
    else
      var e := fs.dir[i];
      var r := Append(fs.fat, fs.area, Seek(fs.fat, e.start, e.size), e.size % BLOCK_SIZE, data);
      Outcome(true, Fs(r.fat, fs.dir[i := e.(size := e.size + r.written)], r.area))
  }

  // ---------------------------------------------------------------- read

  /** What printf shows of a character array. */
  function UpToNul(s: string): string {
    if s == [] || s[0] == NUL then [] else [s[0]] + UpToNul(s[1..])
  }

  function Min(a: int, b: int): int {
    if a < b then a else b
  }

  /** Output of the read loop with `left` bytes to go. */
  function ReadFrom(fat: seq<int>, area: seq<char>, block: int, left: int): string
    requires |area| == BLOCK_SIZE * |fat| && |fat| <= END_OF_CHAIN
    requires GoodLink(block, |fat|) && forall b :: 0 <= b < |fat| ==> GoodLink(fat[b], |fat|)
    decreases left
  {
    if block == END_OF_CHAIN || left <= 0 then []
    else
      var at := BLOCK_SIZE * block;
      UpToNul(area[at..at + Min(left, BLOCK_SIZE)]) + ReadFrom(fat, area, fat[block], left - BLOCK_SIZE)
  }

  datatype Reply = Reply(ok: bool, output: string)

  function Read(fs: Fs, name: string): Reply
    requires Shaped(fs) && name != ""
  {
    var i := Find(fs.dir, name, 0);
    if i < 0 then Reply(false, "")
    else if fs.dir[i].size == 0 then Reply(true, "")
    else Reply(true, ReadFrom(fs.fat, fs.area, fs.dir[i].start, fs.dir[i].size))
  }

  // ---------------------------------------------------------------- delete

  datatype Released = Released(fat: seq<int>) | Diverges

  function InUse(fat: seq<int>): nat {
    if fat == [] then 0 else InUse(fat[..|fat| - 1]) + if fat[|fat| - 1] != 0 then 1 else 0
  }

  lemma {:induction false} InUseUpdate(fat: seq<int>, b: nat, x: int)
    requires b < |fat|
    ensures InUse(fat[b := x]) == InUse(fat) + (if x != 0 then 1 else 0) - if fat[b] != 0 then 1 else 0
  {
    var n := |fat| - 1;
    if b < n {
      InUseUpdate(fat[..n], b, x);
      assert fat[b := x][..n] == fat[..n][b := x];
    } else {
      assert fat[b := x][..n] == fat[..n];
    }
  }

  /**
   The release loop: free the block, go where it pointed.  From a block that
   is already free it goes to block 0, and from a free block 0 it would stay
   there for ever; no reachable disk lets it come to that.
   */
  function Release(fat: seq<int>, block: int): (r: Released)
    requires |fat| <= END_OF_CHAIN
    requires GoodLink(block, |fat|) && forall b :: 0 <= b < |fat| ==> GoodLink(fat[b], |fat|)
    ensures r.Released? ==> |r.fat| == |fat|
    decreases InUse(fat), block != 0
  {
    if block == END_OF_CHAIN then Released(fat)
    else if fat[block] != 0 then
      InUseUpdate(fat, block, 0);
      Release(fat[block := 0], fat[block])
    else if block != 0 then Release(fat, 0)
    else Diverges
  }

  datatype Deletion = Deletion(ok: bool, fs: Fs) | Hangs

  function Delete(fs: Fs, name: string): Deletion
    requires Shaped(fs) && name != ""
  {
    var i := Find(fs.dir, name, 0);
    if i < 0 then Deletion(false, fs)
    else
      match Release(fs.fat, fs.dir[i].start)
      case Diverges => Hangs
      case Released(fat) => Deletion(true, fs.(fat := fat, dir := fs.dir[i := fs.dir[i].(name := "")]))
  }
}
