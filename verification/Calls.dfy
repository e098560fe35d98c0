/** System calls that the host serves. */
module Calls {
  import opened PyInt
  import opened Memory
  import opened Isa

  /** The byte that the blocks leave at j, if one of those that fit covers it: that of the last of them. */
  function LastBlock(checked: bool, mem: Bytes, writes: seq<(nat, Bytes)>, j: nat): Option<byte>
    decreases |writes|
  {
    if writes == [] then None
    else
      var (addr, data) := writes[|writes| - 1];
      if Fits(checked, mem, addr, |data|) && addr <= j < addr + |data| then Some(data[j - addr])
      else LastBlock(checked, mem, writes[..|writes| - 1], j)
  }

  lemma {:induction false} BlocksLand(checked: bool, mem: Bytes, writes: seq<(nat, Bytes)>, j: nat)
    requires j < |mem|
    ensures var b := LastBlock(checked, mem, writes, j);
            StoreBlocks(checked, mem, writes)[j] == if b.Some? then b.value else mem[j]
    decreases |writes|
  {
    if writes != [] {
      BlocksLand(checked, mem, writes[..|writes| - 1], j);
      var (addr, data) := writes[|writes| - 1];
      var before := StoreBlocks(checked, mem, writes[..|writes| - 1]);
      if data != [] && Fits(checked, mem, addr, |data|) { SpliceAt(before, addr, data, j); }
    }
  }

  lemma SpliceAt(mem: Bytes, addr: nat, data: Bytes, j: nat)
    requires addr + |data| <= |mem| && j < |mem|
    ensures Splice(mem, addr, data)[j] == if addr <= j < addr + |data| then data[j - addr] else mem[j]
  {
  }

  /** A served ECALL leaves the registers, the pc and the blocks of the host's answer, x0 apart, and goes on with the
      next instruction; the reservation and the timer are as before. */
  lemma Served(cfg: Config, s: State, raw: Word, size: nat)
    requires s.csr[MTVEC] == 0 && cfg.host.Some?
    ensures var next := (s.pc + size) % WORD;
            var a, e := cfg.host.value(s.(nextPc := next)), Perform(cfg, s, Ecall, raw, size);
            && e.halt == a.halt && e.s.pc == a.pc && e.s.nextPc == next && e.s.world == a.world
            && (forall r: Index | r != 0 :: e.s.x[r] == a.x[r]) && (e.halt == Running ==> e.s.x[0] == 0)
            && |e.s.mem| == |s.mem|
            && (forall j: nat | j < |s.mem| ::
                  var b := LastBlock(cfg.checked, s.mem, a.writes, j);
                  e.s.mem[j] == if b.Some? then b.value else s.mem[j])
            && e.s.timer == s.timer && e.s.reserved == s.reserved && e.s.reservedAddr == s.reservedAddr
  {
    hide Isa.StoreBlocks; hide Isa.On; hide LastBlock;
    var a := cfg.host.value(s.(nextPc := (s.pc + size) % WORD));
    forall j: nat | j < |s.mem|
      ensures var b := LastBlock(cfg.checked, s.mem, a.writes, j);
              StoreBlocks(cfg.checked, s.mem, a.writes)[j] == if b.Some? then b.value else s.mem[j]
    {
      BlocksLand(cfg.checked, s.mem, a.writes, j);
    }
  }
}
