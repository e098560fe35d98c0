/** The start of the heap: the argv block that is laid out before the program runs, and the regions that
    `sbrk` hands out above it. */
module Heap {
  import opened PyInt
  import opened Memory

  /** A command-line argument: its length in characters and its UTF-8 encoding. */
  datatype Arg = Arg(chars: nat, bytes: Bytes)

  function Round(n: nat, k: nat): nat
    requires k > 0
  {
    (n + k - 1) / k * k
  }

  lemma RoundIs4(n: nat)
    ensures n <= Round(n, 4) < n + 4 && Round(n, 4) % 4 == 0 && Round(n, 4) == n + 3 - (n + 3) % 4
  {
  }

  lemma RoundIs8(n: nat)
    ensures n <= Round(n, 8) < n + 8 && Round(n, 8) % 8 == 0 && Round(n, 8) == n + 7 - (n + 7) % 8
  {
  }

  /** Where argument i goes; for i == |args|, where the table goes. The source counts characters. */
  function Addr(start: nat, args: seq<Arg>, i: nat): nat
    requires i <= |args|
  {
    if i == 0 then start else Round(Addr(start, args, i - 1) + args[i - 1].chars + 1, 4)
  }

  function Put(mem: Bytes, addr: nat, data: Bytes): (mem': Bytes)
    ensures |mem'| == |mem|
  {
    if addr + |data| <= |mem| then Splice(mem, addr, data) else mem
  }

  /** Memory with the first i arguments in place. */
  function Strings(mem: Bytes, start: nat, args: seq<Arg>, i: nat): (mem': Bytes)
    requires i <= |args|
    ensures |mem'| == |mem|
  {
    if i == 0 then mem
    else Put(Strings(mem, start, args, i - 1), Addr(start, args, i - 1), args[i - 1].bytes + [0])
  }

  /** The words of the table: the addresses and a NULL. */
  function Entry(start: nat, args: seq<Arg>, i: nat): nat
    requires i <= |args|
  {
    if i < |args| then Addr(start, args, i) else 0
  }

  function PutWord(mem: Bytes, addr: nat, v: nat): (mem': Bytes)
    ensures |mem'| == |mem|
  {
    if addr + 4 <= |mem| then Memory.Write(mem, addr, 4, v) else mem
  }

  function Table(mem: Bytes, at: nat, start: nat, args: seq<Arg>, i: nat): (mem': Bytes)
    requires i <= |args| + 1
    ensures |mem'| == |mem|
  {
    if i == 0 then mem else PutWord(Table(mem, at, start, args, i - 1), at + 4 * (i - 1), Entry(start, args, i - 1))
  }

  function TableAddr(start: nat, args: seq<Arg>): nat { Addr(start, args, |args|) }

  function TableEnd(start: nat, args: seq<Arg>): nat { TableAddr(start, args) + 4 * (|args| + 1) }

  function HeapEnd(start: nat, args: seq<Arg>): nat { Round(TableEnd(start, args), 8) }

  /** Memory after `setup_argv`. */
  function Laid(mem: Bytes, start: nat, args: seq<Arg>): Bytes {
    Table(Strings(mem, start, args, |args|), TableAddr(start, args), start, args, |args| + 1)
  }

  /** The first i stores of arguments, and then the table, stay below `limit`. */
  predicate StringsFit(limit: nat, start: nat, args: seq<Arg>, i: nat)
    requires i <= |args|
  {
    i == 0 || (StringsFit(limit, start, args, i - 1) && Addr(start, args, i - 1) + |args[i - 1].bytes| + 1 <= limit)
  }

  predicate BlockFits(limit: nat, start: nat, args: seq<Arg>) {
    StringsFit(limit, start, args, |args|) && TableEnd(start, args) <= limit
  }

  /** One part that does not fit is enough. */
  lemma {:induction false} StringsFitBefore(limit: nat, start: nat, args: seq<Arg>, i: nat, n: nat)
    requires i <= n <= |args| && StringsFit(limit, start, args, n)
    ensures StringsFit(limit, start, args, i)
    decreases n
  {
    if i < n { StringsFitBefore(limit, start, args, i, n - 1); }
  }

  lemma StringTooBig(limit: nat, start: nat, args: seq<Arg>, i: nat)
    requires i < |args| && Addr(start, args, i) + |args[i].bytes| + 1 > limit
    ensures !StringsFit(limit, start, args, |args|)
  {
    hide Addr;
    if StringsFit(limit, start, args, |args|) { StringsFitBefore(limit, start, args, i + 1, |args|); }
  }

  /** For roomy arguments it is the table that counts. */
  lemma {:induction false} TableCounts(limit: nat, start: nat, args: seq<Arg>, i: nat)
    requires i <= |args| && Roomy(start, args) && TableEnd(start, args) <= limit
    ensures StringsFit(limit, start, args, i)
    decreases i
  {
    if i > 0 {
      TableCounts(limit, start, args, i - 1);
      assert RoomyAt(start, args, i - 1);
      AddrGrows(start, args, i, |args|);
    }
  }

  /** Every argument fits in the space that its length in characters makes for it. */
  predicate Roomy(start: nat, args: seq<Arg>) { forall i | 0 <= i < |args| :: RoomyAt(start, args, i) }

  predicate RoomyAt(start: nat, args: seq<Arg>, i: nat)
    requires i < |args|
  {
    Addr(start, args, i) + |args[i].bytes| + 1 <= Addr(start, args, i + 1)
  }

  /** ASCII arguments do. */
  lemma AsciiIsRoomy(start: nat, args: seq<Arg>)
    requires forall a | a in args :: a.chars == |a.bytes|
    ensures Roomy(start, args)
  {
    forall i | 0 <= i < |args| ensures RoomyAt(start, args, i) {
      RoundIs4(Addr(start, args, i) + args[i].chars + 1);
    }
  }

  // ----- What ends up where -----

  lemma {:induction false} AddrGrows(start: nat, args: seq<Arg>, i: nat, j: nat)
    requires i <= j <= |args|
    ensures start <= Addr(start, args, i) <= Addr(start, args, j)
    decreases j
  {
    hide Round;
    if j > 0 {
      RoundIs4(Addr(start, args, j - 1) + args[j - 1].chars + 1);
      if i < j { AddrGrows(start, args, i, j - 1); } else { AddrGrows(start, args, i - 1, j - 1); }
    }
  }

  lemma PutKeeps(mem: Bytes, addr: nat, data: Bytes, lo: nat, hi: nat)
    requires lo <= hi <= |mem| && (hi <= addr || addr + |data| <= lo)
    ensures Put(mem, addr, data)[lo..hi] == mem[lo..hi]
  {
  }

  /** Nothing outside the strings has changed. */
  lemma {:induction false} StringsFrame(mem: Bytes, start: nat, args: seq<Arg>, i: nat, lo: nat, hi: nat)
    requires i <= |args| && Roomy(start, args) && lo <= hi <= |mem| && (hi <= start || Addr(start, args, i) <= lo)
    ensures Strings(mem, start, args, i)[lo..hi] == mem[lo..hi]
    decreases i
  {
    hide Put; hide Round;
    if i > 0 {
      AddrGrows(start, args, i - 1, i);
      assert RoomyAt(start, args, i - 1);
      StringsFrame(mem, start, args, i - 1, lo, hi);
      PutKeeps(Strings(mem, start, args, i - 1), Addr(start, args, i - 1), args[i - 1].bytes + [0], lo, hi);
    }
  }

  lemma PutWordKeeps(mem: Bytes, addr: nat, v: nat, lo: nat, hi: nat)
    requires lo <= hi <= |mem| && (hi <= addr || addr + 4 <= lo)
    ensures PutWord(mem, addr, v)[lo..hi] == mem[lo..hi]
  {
    hide Memory.Write;
    if addr + 4 <= |mem| {
      forall j | lo <= j < hi ensures PutWord(mem, addr, v)[j] == mem[j] { WriteAt(mem, addr, 4, v, j); }
    }
  }

  lemma PutWordReads(mem: Bytes, addr: nat, v: nat)
    requires addr + 4 <= |mem|
    ensures Read(PutWord(mem, addr, v), addr, 4) == v % WORD
  {
    hide Memory.Write; hide Memory.Read;
    ReadOverWrite(mem, addr, 4, v);
    assert Pow256(2) == 0x1_0000 && Pow256(4) == 0x1_0000 * Pow256(2);
  }

  lemma {:induction false} TableFrame(mem: Bytes, at: nat, start: nat, args: seq<Arg>, i: nat, lo: nat, hi: nat)
    requires i <= |args| + 1 && lo <= hi <= |mem| && (hi <= at || at + 4 * i <= lo)
    ensures Table(mem, at, start, args, i)[lo..hi] == mem[lo..hi]
    decreases i
  {
    hide PutWord;
    if i > 0 {
      TableFrame(mem, at, start, args, i - 1, lo, hi);
      PutWordKeeps(Table(mem, at, start, args, i - 1), at + 4 * (i - 1), Entry(start, args, i - 1), lo, hi);
    }
  }

  lemma {:induction false} TableHolds(mem: Bytes, at: nat, start: nat, args: seq<Arg>, i: nat, k: nat)
    requires k < i <= |args| + 1 && at + 4 * i <= |mem|
    ensures Read(Table(mem, at, start, args, i), at + 4 * k, 4) == Entry(start, args, k) % WORD
    decreases i
  {
    hide PutWord; hide Memory.Read; hide Entry;
    var was, here, v := Table(mem, at, start, args, i - 1), at + 4 * (i - 1), Entry(start, args, i - 1);
    if k == i - 1 {
      PutWordReads(was, here, v);
    } else {
      TableHolds(mem, at, start, args, i - 1, k);
      PutWordApart(was, here, v, at + 4 * k);
    }
  }

  lemma PutWordApart(mem: Bytes, addr: nat, v: nat, at: nat)
    requires at + 4 <= addr && addr <= |mem|
    ensures Read(PutWord(mem, addr, v), at, 4) == Read(mem, at, 4)
  {
    hide Memory.Write; hide Memory.Read;
    if addr + 4 <= |mem| { ReadDisjoint(mem, addr, 4, v, at, 4); }
  }

  // ----- What is left of an argument -----

  /** What is stored for an argument. */
  function Argument(args: seq<Arg>, i: nat): Bytes
    requires i < |args|
  {
    args[i].bytes + [0]
  }

  /** The byte that the arguments from i to n - 1 leave at p, if any of them covers it. */
  function Covered(start: nat, args: seq<Arg>, i: nat, n: nat, p: nat): Option<byte>
    requires i <= n <= |args|
    decreases n
  {
    if n == i then None
    else if Addr(start, args, n - 1) <= p < Addr(start, args, n - 1) + |Argument(args, n - 1)|
    then Some(Argument(args, n - 1)[p - Addr(start, args, n - 1)])
    else Covered(start, args, i, n - 1, p)
  }

  /** The byte that is laid at p after argument i: by the table or else by the last argument that covers it. */
  function Later(start: nat, args: seq<Arg>, i: nat, p: nat): Option<byte>
    requires i < |args|
  {
    var at := TableAddr(start, args);
    if at <= p < TableEnd(start, args) then Some(ByteAt(Entry(start, args, (p - at) / 4), (p - at) % 4))
    else Covered(start, args, i + 1, |args|, p)
  }

  lemma PutAt(mem: Bytes, addr: nat, data: Bytes, p: nat)
    requires addr + |data| <= |mem| && p < |mem|
    ensures Put(mem, addr, data)[p] == if addr <= p < addr + |data| then data[p - addr] else mem[p]
  {
  }

  lemma {:induction false} StringsAt(mem: Bytes, start: nat, args: seq<Arg>, i: nat, n: nat, p: nat)
    requires i <= n <= |args| && StringsFit(|mem|, start, args, n) && p < |mem|
    ensures var b := Covered(start, args, i, n, p);
            Strings(mem, start, args, n)[p] == if b.Some? then b.value else Strings(mem, start, args, i)[p]
    decreases n
  {
    hide Put; hide Addr;
    if i < n {
      StringsAt(mem, start, args, i, n - 1, p);
      PutAt(Strings(mem, start, args, n - 1), Addr(start, args, n - 1), Argument(args, n - 1), p);
    }
  }

  lemma {:induction false} TableAt(mem: Bytes, at: nat, start: nat, args: seq<Arg>, n: nat, p: nat)
    requires n <= |args| + 1 && at + 4 * n <= |mem| && p < |mem|
    ensures Table(mem, at, start, args, n)[p] ==
            if at <= p < at + 4 * n then ByteAt(Entry(start, args, (p - at) / 4), (p - at) % 4) else mem[p]
    decreases n
  {
    hide Entry; hide Memory.Write; hide ByteAt;
    if n > 0 {
      TableAt(mem, at, start, args, n - 1, p);
      WriteAt(Table(mem, at, start, args, n - 1), at + 4 * (n - 1), 4, Entry(start, args, n - 1), p);
      if at + 4 * (n - 1) <= p < at + 4 * n { EuclidUnique(p - at, 4, n - 1, p - at - 4 * (n - 1)); }
    }
  }

  /** Every byte of the argument is as it was stored, or as it was laid later. */
  lemma ByteLaid(mem: Bytes, start: nat, args: seq<Arg>, i: nat, p: nat)
    requires i < |args| && BlockFits(|mem|, start, args)
    requires Addr(start, args, i) <= p < Addr(start, args, i) + |Argument(args, i)| <= |mem|
    ensures |Laid(mem, start, args)| == |mem|
    ensures var b := Later(start, args, i, p);
            Laid(mem, start, args)[p] == if b.Some? then b.value else Argument(args, i)[p - Addr(start, args, i)]
  {
    hide Table; hide Addr; hide Put; hide Entry; hide ByteAt;
    TableAt(Strings(mem, start, args, |args|), TableAddr(start, args), start, args, |args| + 1, p);
    hide Strings;
    StringsAt(mem, start, args, i, |args|, p);
    StringsAt(mem, start, args, i + 1, |args|, p);
    StringsFitBefore(|mem|, start, args, i + 1, |args|);
    StoredAt(mem, start, args, i, p);
  }

  lemma StoredAt(mem: Bytes, start: nat, args: seq<Arg>, i: nat, p: nat)
    requires i < |args| && Addr(start, args, i) <= p < Addr(start, args, i) + |Argument(args, i)| <= |mem|
    ensures Strings(mem, start, args, i + 1)[p] == Argument(args, i)[p - Addr(start, args, i)]
  {
    hide Addr; hide Put;
    assert Strings(mem, start, args, i + 1)
        == Put(Strings(mem, start, args, i), Addr(start, args, i), Argument(args, i));
    hide Strings; hide Argument;
    PutAt(Strings(mem, start, args, i), Addr(start, args, i), Argument(args, i), p);
  }

  lemma {:induction false} NothingLater(start: nat, args: seq<Arg>, i: nat, n: nat, p: nat)
    requires i <= n <= |args| && p < Addr(start, args, i)
    ensures Covered(start, args, i, n, p).None?
    decreases n
  {
    hide Addr;
    if i < n {
      AddrGrows(start, args, i, n - 1);
      NothingLater(start, args, i, n - 1, p);
    }
  }

  /** Wherever the argument runs over into what is laid after it, that happens to be the same byte. */
  predicate Spared(start: nat, args: seq<Arg>, i: nat)
    requires i < |args|
  {
    forall p: nat | Addr(start, args, i + 1) <= p < Addr(start, args, i) + |Argument(args, i)| ::
      var b := Later(start, args, i, p);
      b.Some? ==> b.value == Argument(args, i)[p - Addr(start, args, i)]
  }

  /** An argument can be read back if and only if it is spared, whether or not it or the others have room. */
  lemma SurvivesExactly(mem: Bytes, start: nat, args: seq<Arg>, i: nat)
    requires i < |args| && BlockFits(|mem|, start, args) && NulFree(args[i])
    ensures IsCString(Laid(mem, start, args), Addr(start, args, i), args[i].bytes) <==> Spared(start, args, i)
  {
    hide Laid; hide Addr; hide Later; hide NulFree;
    var addr, data, mem' := Addr(start, args, i), Argument(args, i), Laid(mem, start, args);
    ArgumentFits(|mem|, start, args, i);
    AddrGrows(start, args, i, i + 1);
    ByteLaid(mem, start, args, i, addr);
    forall p: nat | addr <= p < addr + |data|
      ensures mem'[p] == data[p - addr] <==>
              (var b := Later(start, args, i, p); b.Some? ==> b.value == data[p - addr])
      ensures p < Addr(start, args, i + 1) ==> mem'[p] == data[p - addr]
    {
      ByteLaid(mem, start, args, i, p);
      if p < Addr(start, args, i + 1) { NoneLater(start, args, i, p); }
    }
    StringBytes(mem', addr, args[i]);
  }

  lemma NoneLater(start: nat, args: seq<Arg>, i: nat, p: nat)
    requires i < |args| && p < Addr(start, args, i + 1)
    ensures Later(start, args, i, p).None?
  {
    hide Addr; hide Entry;
    AddrGrows(start, args, i + 1, |args|);
    NothingLater(start, args, i + 1, |args|, p);
  }

  lemma ArgumentFits(limit: nat, start: nat, args: seq<Arg>, i: nat)
    requires i < |args| && BlockFits(limit, start, args)
    ensures Addr(start, args, i) + |Argument(args, i)| <= limit
  {
    hide Addr;
    StringsFitBefore(limit, start, args, i + 1, |args|);
  }

  lemma StringBytes(mem: Bytes, addr: nat, a: Arg)
    requires NulFree(a) && addr + |a.bytes| < |mem|
    ensures IsCString(mem, addr, a.bytes) <==>
            forall p: nat | addr <= p < addr + |a.bytes| + 1 :: mem[p] == (a.bytes + [0])[p - addr]
  {
    var n := |a.bytes|;
    assert forall i | 0 <= i < n :: a.bytes[i] in a.bytes;
    if IsCString(mem, addr, a.bytes) {
      forall p: nat | addr <= p < addr + n + 1 ensures mem[p] == (a.bytes + [0])[p - addr] {
        if p < addr + n { assert mem[p] == mem[addr..addr + n][p - addr]; }
      }
    }
    if forall p: nat | addr <= p < addr + n + 1 :: mem[p] == (a.bytes + [0])[p - addr] {
      assert mem[addr + n] == (a.bytes + [0])[n];
      forall k | 0 <= k < n ensures mem[addr..addr + n][k] == a.bytes[k] {
        assert mem[addr + k] == (a.bytes + [0])[addr + k - addr];
      }
      assert mem[addr..addr + n] == a.bytes;
    }
  }

  /** For instance, an argument of which only the NUL runs over can be read back if and only if the next argument is
      empty or starts with a NUL, or, if it is the last one, the address of the first ends in a zero byte. */
  lemma OneByteOver(mem: Bytes, start: nat, args: seq<Arg>, i: nat)
    requires i < |args| && BlockFits(|mem|, start, args) && NulFree(args[i])
    requires Addr(start, args, i) + |args[i].bytes| == Addr(start, args, i + 1)
    ensures IsCString(Laid(mem, start, args), Addr(start, args, i), args[i].bytes) <==>
            if i + 1 < |args| then Argument(args, i + 1)[0] == 0 else start % 256 == 0
  {
    hide Laid; hide Addr; hide NulFree; hide BlockFits; hide Later;
    SurvivesExactly(mem, start, args, i);
    var p := Addr(start, args, i + 1);
    FirstLater(start, args, i);
    assert Argument(args, i)[p - Addr(start, args, i)] == 0;
  }

  lemma FirstLater(start: nat, args: seq<Arg>, i: nat)
    requires i < |args|
    ensures Later(start, args, i, Addr(start, args, i + 1)) ==
            Some(if i + 1 < |args| then Argument(args, i + 1)[0] else start % 256)
  {
    hide Addr;
    var p := Addr(start, args, i + 1);
    if i + 1 < |args| {
      SlotGrows(start, args, i + 1);
      AddrGrows(start, args, i + 2, |args|);
      CoveredFirst(start, args, i + 1, |args|);
    } else {
      assert Addr(start, args, 0) == start by { FirstAddr(start, args); }
    }
  }

  lemma FirstAddr(start: nat, args: seq<Arg>)
    ensures Addr(start, args, 0) == start
  {
  }

  /** The arguments are packed: each starts at the first multiple of four after the one before, by its length in
      characters, and its NUL. */
  lemma ArgumentsPacked(start: nat, args: seq<Arg>, i: nat)
    requires i < |args|
    ensures Addr(start, args, 0) == start && Addr(start, args, i + 1) % 4 == 0
    ensures Addr(start, args, i) + args[i].chars < Addr(start, args, i + 1) <= Addr(start, args, i) + args[i].chars + 4
  {
    hide Round;
    RoundIs4(Addr(start, args, i) + args[i].chars + 1);
  }

  lemma SlotGrows(start: nat, args: seq<Arg>, i: nat)
    requires i < |args|
    ensures Addr(start, args, i) < Addr(start, args, i + 1)
  {
    hide Round;
    RoundIs4(Addr(start, args, i) + args[i].chars + 1);
  }

  lemma {:induction false} CoveredFirst(start: nat, args: seq<Arg>, i: nat, n: nat)
    requires i < n <= |args|
    ensures Covered(start, args, i, n, Addr(start, args, i)) == Some(Argument(args, i)[0])
    decreases n
  {
    hide Addr;
    if i < n - 1 {
      SlotGrows(start, args, i);
      AddrGrows(start, args, i + 1, n - 1);
      CoveredFirst(start, args, i, n - 1);
    }
  }

  predicate NulFree(a: Arg) { 0 !in a.bytes }

  /** What a program finds: each argv entry points to its argument, the table ends in NULL, the heap starts
      8-aligned above the block, and no byte outside the block has changed. */
  predicate ArgvBlock(mem: Bytes, start: nat, args: seq<Arg>, mem': Bytes) {
    && |mem'| == |mem| && start <= TableEnd(start, args) <= |mem|
    && (forall i | 0 <= i < |args| :: EntryReads(mem', start, args, i))
    && Read(mem', TableAddr(start, args) + 4 * |args|, 4) == 0
    && HeapEnd(start, args) % 8 == 0 && TableEnd(start, args) <= HeapEnd(start, args) < TableEnd(start, args) + 8
    && mem'[..start] == mem[..start] && mem'[TableEnd(start, args)..] == mem[TableEnd(start, args)..]
  }

  predicate EntryReads(mem': Bytes, start: nat, args: seq<Arg>, i: nat)
    requires i < |args| && TableEnd(start, args) <= |mem'|
  {
    && Read(mem', TableAddr(start, args) + 4 * i, 4) == Addr(start, args, i) % WORD
    && IsCString(mem', Addr(start, args, i), args[i].bytes)
  }

  lemma EntryIsLaid(mem: Bytes, start: nat, args: seq<Arg>, i: nat)
    requires i < |args| && Roomy(start, args) && TableEnd(start, args) <= |mem| && NulFree(args[i])
    ensures |Laid(mem, start, args)| == |mem| && EntryReads(Laid(mem, start, args), start, args, i)
  {
    hide Strings; hide Table; hide Memory.Read; hide Addr; hide StringsFit; hide Later;
    TableHolds(Strings(mem, start, args, |args|), TableAddr(start, args), start, args, |args| + 1, i);
    TableCounts(|mem|, start, args, |args|);
    assert RoomyAt(start, args, i);
    SurvivesExactly(mem, start, args, i);
  }

  lemma LaidFrame(mem: Bytes, start: nat, args: seq<Arg>)
    requires Roomy(start, args) && TableEnd(start, args) <= |mem|
    ensures start <= TableEnd(start, args) && |Laid(mem, start, args)| == |mem|
    ensures Laid(mem, start, args)[..start] == mem[..start]
    ensures Laid(mem, start, args)[TableEnd(start, args)..] == mem[TableEnd(start, args)..]
  {
    hide Strings; hide Table; hide Roomy; hide Addr;
    var n, at, end := |args|, TableAddr(start, args), TableEnd(start, args);
    var mid, mem' := Strings(mem, start, args, n), Laid(mem, start, args);
    AddrGrows(start, args, 0, n);
    TableFrame(mid, at, start, args, n + 1, 0, start);
    TableFrame(mid, at, start, args, n + 1, end, |mem|);
    StringsFrame(mem, start, args, n, 0, start);
    StringsFrame(mem, start, args, n, end, |mem|);
    assert mem'[..start] == mem'[0..start] && mem[..start] == mem[0..start];
    assert mem'[end..] == mem'[end..|mem|] && mem[end..] == mem[end..|mem|];
  }

  lemma NullIsLaid(mem: Bytes, start: nat, args: seq<Arg>)
    requires TableEnd(start, args) <= |mem|
    ensures Read(Laid(mem, start, args), TableAddr(start, args) + 4 * |args|, 4) == 0
  {
    hide Strings; hide Table; hide Memory.Read; hide Addr;
    var n := |args|;
    TableHolds(Strings(mem, start, args, n), TableAddr(start, args), start, args, n + 1, n);
  }

  lemma ArgvIsLaidOut(mem: Bytes, start: nat, args: seq<Arg>)
    requires Roomy(start, args) && TableEnd(start, args) <= |mem| && forall a | a in args :: NulFree(a)
    ensures ArgvBlock(mem, start, args, Laid(mem, start, args))
  {
    hide Laid; hide Memory.Read; hide Roomy; hide Addr; hide EntryReads; hide NulFree;
    LaidFrame(mem, start, args);
    RoundIs8(TableEnd(start, args));
    NullIsLaid(mem, start, args);
    forall i | 0 <= i < |args| ensures EntryReads(Laid(mem, start, args), start, args, i) {
      assert args[i] in args;
      EntryIsLaid(mem, start, args, i);
    }
  }

  /** With a character of four bytes, an argument is not roomy, and the next one overwrites its NUL. */
  lemma WideCharacterBreaks(mem: Bytes, start: nat, wide: Bytes, next: Bytes)
    requires start % 4 == 0 && |wide| == 4 && 0 !in wide && next != [] && next[0] != 0
    requires BlockFits(|mem|, start, [Arg(1, wide), Arg(|next|, next)])
    ensures var args := [Arg(1, wide), Arg(|next|, next)];
            !Roomy(start, args) && !IsCString(Laid(mem, start, args), start, wide)
  {
    hide Laid; hide Roomy; hide BlockFits;
    var args := [Arg(1, wide), Arg(|next|, next)];
    SecondAddr(start, args);
    OneByteOver(mem, start, args, 0);
  }

  lemma SecondAddr(start: nat, args: seq<Arg>)
    requires start % 4 == 0 && |args| == 2 && args[0].chars == 1 && |args[0].bytes| == 4
    ensures Addr(start, args, 1) == start + 4 && !Roomy(start, args)
  {
    RoundIs4(start + 2);
    assert Addr(start, args, 0) == start;
    assert !RoomyAt(start, args, 0);
  }

  // ----- sbrk -----

  /** What `sbrk` grants: the old break, if the new one stays below the stack. */
  function Sbrk(heapEnd: nat, bottom: Word, inc: Word): Option<nat> {
    if heapEnd + inc >= bottom then None else Some(heapEnd)
  }

  function NewEnd(heapEnd: nat, bottom: Word, inc: Word): nat {
    if Sbrk(heapEnd, bottom, inc).Some? then heapEnd + inc else heapEnd
  }

  function EndAfter(heapEnd: nat, bottom: Word, incs: seq<Word>): nat {
    if incs == [] then heapEnd else NewEnd(EndAfter(heapEnd, bottom, incs[..|incs| - 1]), bottom, incs[|incs| - 1])
  }

  /** The answer to call i. */
  function Answer(heapEnd: nat, bottom: Word, incs: seq<Word>, i: nat): Option<nat>
    requires i < |incs|
  {
    Sbrk(EndAfter(heapEnd, bottom, incs[..i]), bottom, incs[i])
  }

  function Granted(heapEnd: nat, bottom: Word, incs: seq<Word>): nat {
    if incs == [] then 0
    else
      var p, last := incs[..|incs| - 1], |incs| - 1;
      Granted(heapEnd, bottom, p) + if Answer(heapEnd, bottom, incs, last).Some? then incs[last] else 0
  }

  /** The break is its start plus the sum of the granted increments. */
  lemma {:induction false} BreakIsSum(heapEnd: nat, bottom: Word, incs: seq<Word>)
    ensures EndAfter(heapEnd, bottom, incs) == heapEnd + Granted(heapEnd, bottom, incs)
    decreases |incs|
  {
    if incs != [] { BreakIsSum(heapEnd, bottom, incs[..|incs| - 1]); }
  }

  lemma {:induction false} BreakGrows(heapEnd: nat, bottom: Word, incs: seq<Word>, i: nat)
    requires i <= |incs|
    ensures heapEnd <= EndAfter(heapEnd, bottom, incs[..i]) <= EndAfter(heapEnd, bottom, incs)
    decreases |incs|
  {
    if i < |incs| {
      assert incs[..|incs| - 1][..i] == incs[..i];
      BreakGrows(heapEnd, bottom, incs[..|incs| - 1], i);
    } else {
      assert incs[..i] == incs;
      if incs != [] { BreakGrows(heapEnd, bottom, incs[..|incs| - 1], i - 1); }
    }
  }

  /** Every region granted lies above the first break and below the stack. */
  lemma RegionInBounds(heapEnd: nat, bottom: Word, incs: seq<Word>, i: nat)
    requires i < |incs| && Answer(heapEnd, bottom, incs, i).Some?
    ensures heapEnd <= Answer(heapEnd, bottom, incs, i).value
    ensures Answer(heapEnd, bottom, incs, i).value + incs[i] < bottom
  {
    BreakGrows(heapEnd, bottom, incs[..i], 0);
  }

  /** Of two regions granted over any sequence of calls the later lies above the earlier: all of them are
      pairwise disjoint. */
  lemma RegionsApart(heapEnd: nat, bottom: Word, incs: seq<Word>, i: nat, j: nat)
    requires i < j < |incs|
    requires Answer(heapEnd, bottom, incs, i).Some? && Answer(heapEnd, bottom, incs, j).Some?
    ensures Answer(heapEnd, bottom, incs, i).value + incs[i] <= Answer(heapEnd, bottom, incs, j).value
  {
    BreakGrows(heapEnd, bottom, incs[..j], i + 1);
    assert incs[..j][..i + 1] == incs[..i + 1] && incs[..i + 1][..i] == incs[..i];
  }

  function Sum(incs: seq<Word>): nat {
    if incs == [] then 0 else Sum(incs[..|incs| - 1]) + incs[|incs| - 1]
  }

  /** A call is granted if and only if the start of the heap, all that was granted before and the new increment
      together stay below the stack; it then returns the end of what was granted before. */
  lemma GrantedExactly(heapEnd: nat, bottom: Word, incs: seq<Word>, i: nat)
    requires i < |incs|
    ensures var before := heapEnd + Granted(heapEnd, bottom, incs[..i]);
            Answer(heapEnd, bottom, incs, i) == if before + incs[i] < bottom then Some(before) else None
  {
    BreakIsSum(heapEnd, bottom, incs[..i]);
  }

  /** As long as the sum of all increments stays below the stack, every call is granted. */
  lemma AllGranted(heapEnd: nat, bottom: Word, incs: seq<Word>, i: nat)
    requires i < |incs| && heapEnd + Sum(incs) < bottom
    ensures Answer(heapEnd, bottom, incs, i) == Some(heapEnd + Sum(incs[..i]))
  {
    SumGrows(incs, i + 1);
    assert incs[..i + 1][..i] == incs[..i];
    EndIsSum(heapEnd, bottom, incs[..i]);
  }

  lemma {:induction false} SumGrows(incs: seq<Word>, i: nat)
    requires i <= |incs|
    ensures Sum(incs[..i]) <= Sum(incs)
    decreases |incs|
  {
    if i < |incs| {
      assert incs[..|incs| - 1][..i] == incs[..i];
      SumGrows(incs[..|incs| - 1], i);
    } else {
      assert incs[..i] == incs;
    }
  }

  lemma {:induction false} EndIsSum(heapEnd: nat, bottom: Word, incs: seq<Word>)
    requires heapEnd + Sum(incs) < bottom
    ensures EndAfter(heapEnd, bottom, incs) == heapEnd + Sum(incs)
    decreases |incs|
  {
    if incs != [] { EndIsSum(heapEnd, bottom, incs[..|incs| - 1]); }
  }
}
