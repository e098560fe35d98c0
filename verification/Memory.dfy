/** Guest memory as a plain little-endian byte map, and what the RAM variants do with it. */
module Memory {
  import opened PyInt

  datatype Option<+T> = None | Some(value: T)

  type byte = x: int | 0 <= x < 256

  type Bytes = seq<byte>

  /** Bytes past `size` that every RAM variant allocates. */
  const PADDING := 4

  /** The number stored in `n` bytes from `addr` on, lowest byte first. */
  function Read(mem: Bytes, addr: nat, n: nat): (v: nat)
    requires addr + n <= |mem|
    decreases n
  {
    if n == 0 then 0 else mem[addr] + 256 * Read(mem, addr + 1, n - 1)
  }

  /** Byte `i` of a value, as `(v >> 8*i) & 0xFF` extracts it. */
  function ByteAt(v: int, i: nat): byte
    decreases i
  {
    if i == 0 then v % 256 else ByteAt(v / 256, i - 1)
  }

  /** `mem` with the low `n` bytes of `v` at `addr`. */
  function Write(mem: Bytes, addr: nat, n: nat, v: int): (mem': Bytes)
    requires addr + n <= |mem|
    ensures |mem'| == |mem|
    decreases n
  {
    if n == 0 then mem else Write(mem[addr := ByteAt(v, 0)], addr + 1, n - 1, v / 256)
  }

  function SignExtend(v: int, half: int): int {
    if v < half then v else v - 2 * half
  }

  /** Addresses an access of `n` bytes may start at: the checked variants stop at `size`,
      the unchecked one at the end of the padded array. */
  predicate Fits(checked: bool, mem: Bytes, addr: int, n: nat) {
    0 <= addr && addr + n <= if checked then |mem| - PADDING else |mem|
  }

  function Load(checked: bool, mem: Bytes, addr: int, n: nat): Option<nat> {
    if Fits(checked, mem, addr, n) then Some(Read(mem, addr, n)) else None
  }

  /** An unchecked store that runs off the end has written the bytes that still fitted before the
      index error is raised; a checked store that is rejected has written nothing. */
  function Store(checked: bool, mem: Bytes, addr: nat, n: nat, v: int): (r: (Bytes, bool))
    ensures |r.0| == |mem|
  {
    if Fits(checked, mem, addr, n) then (Write(mem, addr, n, v), true)
    else if checked || addr >= |mem| then (mem, false)
    else (Write(mem, addr, |mem| - addr, v), false)
  }

  function Splice(mem: Bytes, addr: nat, data: Bytes): (mem': Bytes)
    requires addr + |data| <= |mem|
    ensures |mem'| == |mem|
  {
    mem[..addr] + data + mem[addr + |data|..]
  }

  /** `s` is the NUL-terminated string at `addr`. */
  predicate IsCString(mem: Bytes, addr: nat, s: Bytes) {
    && addr + |s| < |mem|
    && mem[addr..addr + |s|] == s
    && mem[addr + |s|] == 0
    && forall i :: 0 <= i < |s| ==> s[i] != 0
  }

  /** A memory holds at most one string at an address: it is what `load_cstring` finds. */
  lemma CStringUnique(mem: Bytes, addr: nat, s: Bytes, t: Bytes)
    requires IsCString(mem, addr, s) && IsCString(mem, addr, t)
    ensures s == t
  {
    if |s| < |t| { HasNul(mem, addr, s, t); }
    if |t| < |s| { HasNul(mem, addr, t, s); }
    if |s| == |t| { assert s == mem[addr..addr + |s|] == t; }
  }

  lemma TheString(mem: Bytes, addr: nat, t: Bytes)
    requires IsCString(mem, addr, t)
    ensures forall s: Bytes | IsCString(mem, addr, s) :: s == t
  {
    hide IsCString;
    forall s: Bytes | IsCString(mem, addr, s) ensures s == t { CStringUnique(mem, addr, s, t); }
  }

  lemma HasNul(mem: Bytes, addr: nat, s: Bytes, t: Bytes)
    requires IsCString(mem, addr, s) && |s| < |t| && addr + |t| < |mem| && mem[addr..addr + |t|] == t
    ensures t[|s|] == 0
  {
    assert t[|s|] == mem[addr + |s|];
  }

  // ----- Write is a byte map update -----

  lemma {:induction false} WriteAt(mem: Bytes, addr: nat, n: nat, v: int, j: nat)
    requires addr + n <= |mem| && j < |mem|
    ensures Write(mem, addr, n, v)[j] == if addr <= j < addr + n then ByteAt(v, j - addr) else mem[j]
    decreases n
  {
    if n > 0 { WriteAt(mem[addr := ByteAt(v, 0)], addr + 1, n - 1, v / 256, j); }
  }

  function Pow256(n: nat): (p: int)
    ensures p >= 1
  {
    if n == 0 then 1 else 256 * Pow256(n - 1)
  }

  lemma {:induction false} ReadBytes(mem: Bytes, addr: nat, n: nat, v: int)
    requires addr + n <= |mem|
    requires forall i :: 0 <= i < n ==> mem[addr + i] == ByteAt(v, i)
    ensures Read(mem, addr, n) == v % Pow256(n)
    decreases n
  {
    if n > 0 {
      assert mem[addr + 0] == ByteAt(v, 0);
      forall i | 0 <= i < n - 1 ensures mem[addr + 1 + i] == ByteAt(v / 256, i) {
        assert mem[addr + (i + 1)] == ByteAt(v, i + 1);
      }
      ReadBytes(mem, addr + 1, n - 1, v / 256);
      SplitModulus(v, Pow256(n - 1));
    }
  }

  lemma SplitModulus(v: int, p: int)
    requires p > 0
    ensures v % (256 * p) == v % 256 + 256 * (v / 256 % p)
  {
    var q, r := v / 256 / p, v / 256 % p;
    assert v == (256 * p) * q + (256 * r + v % 256);
    EuclidUnique(v, 256 * p, q, 256 * r + v % 256);
  }

  /** Loading what was just stored gives the stored value back, cut to the access width. */
  lemma ReadOverWrite(mem: Bytes, addr: nat, n: nat, v: int)
    requires addr + n <= |mem|
    ensures Read(Write(mem, addr, n, v), addr, n) == v % Pow256(n)
  {
    forall i | 0 <= i < n ensures Write(mem, addr, n, v)[addr + i] == ByteAt(v, i) {
      WriteAt(mem, addr, n, v, addr + i);
    }
    ReadBytes(Write(mem, addr, n, v), addr, n, v);
  }

  lemma {:induction false} ReadSame(mem: Bytes, mem': Bytes, addr: nat, n: nat)
    requires |mem'| == |mem| && addr + n <= |mem|
    requires forall j :: addr <= j < addr + n ==> mem'[j] == mem[j]
    ensures Read(mem', addr, n) == Read(mem, addr, n)
    decreases n
  {
    if n > 0 { ReadSame(mem, mem', addr + 1, n - 1); }
  }

  /** A load that does not overlap a store is not affected by it. */
  lemma ReadDisjoint(mem: Bytes, addr: nat, n: nat, v: int, at: nat, k: nat)
    requires addr + n <= |mem| && at + k <= |mem|
    requires at + k <= addr || addr + n <= at
    ensures Read(Write(mem, addr, n, v), at, k) == Read(mem, at, k)
  {
    forall j | at <= j < at + k ensures Write(mem, addr, n, v)[j] == mem[j] {
      WriteAt(mem, addr, n, v, j);
    }
    ReadSame(mem, Write(mem, addr, n, v), at, k);
  }

  /** A word is its two halves, and a half is its two bytes: no alignment is involved. */
  lemma {:induction false} ReadSplit(mem: Bytes, addr: nat, k: nat, n: nat)
    requires addr + k + n <= |mem|
    ensures Read(mem, addr, k + n) == Read(mem, addr, k) + Pow256(k) * Read(mem, addr + k, n)
    decreases k
  {
    if k > 0 {
      ReadSplit(mem, addr + 1, k - 1, n);
      Distribute(Read(mem, addr + 1, k - 1), Pow256(k - 1), Read(mem, addr + k, n));
    }
  }

  lemma Distribute(a: int, p: int, b: int)
    ensures 256 * (a + p * b) == 256 * a + (256 * p) * b
  {
  }

  lemma {:induction false} ReadRange(mem: Bytes, addr: nat, n: nat)
    requires addr + n <= |mem|
    ensures Read(mem, addr, n) < Pow256(n)
    decreases n
  {
    if n > 0 { ReadRange(mem, addr + 1, n - 1); }
  }

  lemma WordRange(mem: Bytes, addr: nat)
    requires addr + 4 <= |mem|
    ensures Read(mem, addr, 4) < WORD
  {
    ReadRange(mem, addr, 4);
    assert Pow256(2) == 0x1_0000 && Pow256(4) == 0x1_0000 * Pow256(2);
  }

  // ----- Whole histories of stores -----

  datatype Access = Access(addr: nat, n: nat, v: int)

  function StoreAll(checked: bool, mem: Bytes, log: seq<Access>): (mem': Bytes)
    ensures |mem'| == |mem|
    decreases |log|
  {
    if log == [] then mem
    else
      var prefix := StoreAll(checked, mem, log[..|log| - 1]);
      var last := log[|log| - 1];
      Store(checked, prefix, last.addr, last.n, last.v).0
  }

  predicate Covers(a: Access, j: nat) { a.addr <= j < a.addr + a.n }

  /** What a store puts at an address that it covers. */
  function ByteFrom(a: Access, j: nat): byte
    requires Covers(a, j)
  {
    ByteAt(a.v, j - a.addr)
  }

  /** `i` is the last store of the history that covers address `j`. */
  predicate LastCovering(log: seq<Access>, i: nat, j: nat) {
    i < |log| && Covers(log[i], j) && forall k | i < k < |log| :: !Covers(log[k], j)
  }

  lemma LastByte(checked: bool, mem: Bytes, log: seq<Access>, j: nat)
    requires log != [] && j < |mem| && Fits(checked, mem, log[|log| - 1].addr, log[|log| - 1].n)
    ensures var init, last := log[..|log| - 1], log[|log| - 1];
            StoreAll(checked, mem, log)[j] ==
            if Covers(last, j) then ByteFrom(last, j) else StoreAll(checked, mem, init)[j]
  {
    hide Write;
    var init, last := log[..|log| - 1], log[|log| - 1];
    WriteAt(StoreAll(checked, mem, init), last.addr, last.n, last.v, j);
  }

  lemma NoStores(checked: bool, mem: Bytes)
    ensures StoreAll(checked, mem, []) == mem
  {
  }

  /** After any history of stores at any widths and alignments, overlapping or not, each byte is
      the one its last covering store put there, or the initial byte if no store covered it. */
  lemma {:induction false} ByteHistory(checked: bool, mem: Bytes, log: seq<Access>, j: nat)
    requires j < |mem|
    requires forall k | 0 <= k < |log| :: Fits(checked, mem, log[k].addr, log[k].n)
    ensures forall i: nat | LastCovering(log, i, j) :: StoreAll(checked, mem, log)[j] == ByteFrom(log[i], j)
    ensures (forall k | 0 <= k < |log| :: !Covers(log[k], j)) ==> StoreAll(checked, mem, log)[j] == mem[j]
    decreases |log|
  {
    hide StoreAll; hide ByteFrom; hide Covers; hide Fits;
    if log == [] {
      NoStores(checked, mem);
    } else {
      var m := |log| - 1;
      ByteHistory(checked, mem, log[..m], j);
      LastByte(checked, mem, log, j);
      forall i: nat | LastCovering(log, i, j) ensures StoreAll(checked, mem, log)[j] == ByteFrom(log[i], j)
      {
        if i < m { assert LastCovering(log[..m], i, j); }
      }
    }
  }

  /** On a history that the checked RAM accepts, the unchecked RAM ends in the same memory. */
  lemma {:induction false} CheckedAgrees(mem: Bytes, log: seq<Access>)
    requires forall k :: 0 <= k < |log| ==> Fits(true, mem, log[k].addr, log[k].n)
    ensures StoreAll(true, mem, log) == StoreAll(false, mem, log)
    decreases |log|
  {
    if log != [] { CheckedAgrees(mem, log[..|log| - 1]); }
  }

  /** The stores a checked RAM rejects can be struck from the history. */
  lemma {:induction false} RejectedStoresVanish(mem: Bytes, log: seq<Access>)
    ensures StoreAll(true, mem, log) == StoreAll(true, mem, Accepted(mem, log))
    decreases |log|
  {
    if log != [] {
      var m := |log| - 1;
      RejectedStoresVanish(mem, log[..m]);
      var kept := Accepted(mem, log[..m]);
      if Fits(true, mem, log[m].addr, log[m].n) {
        assert (kept + [log[m]])[..|kept|] == kept;
      } else {
        assert kept + [] == kept;
      }
    }
  }

  function Accepted(mem: Bytes, log: seq<Access>): seq<Access>
    decreases |log|
  {
    if log == [] then []
    else
      var last := log[|log| - 1];
      Accepted(mem, log[..|log| - 1]) + if Fits(true, mem, last.addr, last.n) then [last] else []
  }

  /** The unchecked RAM has no such luck: a halfword store at the last byte changes it and then fails. */
  lemma UncheckedPartialStore(mem: Bytes)
    requires |mem| > 0
    ensures var (mem', ok) := Store(false, mem, |mem| - 1, 2, Not(mem[|mem| - 1]));
            !ok && mem' != mem
  {
    var j := |mem| - 1;
    WriteAt(mem, j, 1, Not(mem[j]), j);
  }
}
