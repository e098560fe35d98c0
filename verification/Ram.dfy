/** The RAM classes: one byte array, read and written either byte by byte or, when the address is a
    multiple of four, through a view of the same array as 32-bit words. A result of `None`, or
    `false` for a store, stands for the access error that the source raises. */
module Ram {
  import opened PyInt
  import opened Memory

  class RAM {
    const memory: array<byte>
    const size: nat
    const baseAddr: int
    /** SafeRAM rather than RAM, for the dispatching methods. */
    const checked: bool

    ghost predicate Valid() {
      memory.Length == size + PADDING && size % 4 == 0
    }

    function Contents(): Bytes
      reads memory
    {
      memory[..]
    }

    /** The word view can only be cast when the array length is a multiple of four. */
    constructor (size: nat, baseAddr: int, checked: bool)
      requires size % 4 == 0
      ensures Valid() && fresh(memory)
      ensures this.size == size && this.baseAddr == baseAddr && this.checked == checked
      ensures forall i :: 0 <= i < memory.Length ==> memory[i] == 0
    {
      memory := new byte[size + PADDING](_ => 0);
      this.size := size;
      this.baseAddr := baseAddr;
      this.checked := checked;
    }

    // ----- RAM: no address checks beyond the array's own bounds -----

    method LoadByte(addr: nat, signed: bool) returns (r: Option<int>)
      ensures r == match Load(false, Contents(), addr, 1)
                   case None => None
                   case Some(v) => Some(if signed then SignExtend(v, 0x80) else v)
    {
      if addr >= memory.Length { return None; }
      var val := memory[addr];
      return Some(if signed then SignExtend(val, 0x80) else val);
    }

    method LoadHalf(addr: nat, signed: bool) returns (r: Option<int>)
      ensures r == match Load(false, Contents(), addr, 2)
                   case None => None
                   case Some(v) => Some(if signed then SignExtend(v, 0x8000) else v)
    {
      if addr + 1 >= memory.Length { return None; }
      var val := Half(memory[addr], memory[addr + 1]);
      assert val == Read(Contents(), addr, 2);
      return Some(if signed then SignExtend(val, 0x8000) else val);
    }

    /** Element `i` of the word view. */
    method LoadView(i: nat) returns (r: Option<nat>)
      ensures r == if 4 * i + 4 <= memory.Length then Some(Read(Contents(), 4 * i, 4)) else None
    {
      if 4 * i + 4 > memory.Length { return None; }
      r := Some(Quad(memory[4 * i], memory[4 * i + 1], memory[4 * i + 2], memory[4 * i + 3]));
      WordBytes(Contents(), 4 * i);
    }

    method LoadWord(addr: nat) returns (r: Option<nat>)
      requires Valid()
      ensures r == Load(false, Contents(), addr, 4)
    {
      if addr % 4 == 0 {
        r := LoadView(addr / 4);
      } else if addr + 3 >= memory.Length {
        r := None;
      } else {
        r := Some(Quad(memory[addr], memory[addr + 1], memory[addr + 2], memory[addr + 3]));
        WordBytes(Contents(), addr);
      }
    }

    method StoreByte(addr: nat, value: int) returns (ok: bool)
      modifies memory
      ensures (Contents(), ok) == Memory.Store(false, old(Contents()), addr, 1, value)
    {
      ok := addr < memory.Length;
      if ok { memory[addr] := value % 0x100; }
    }

    method StoreHalf(addr: nat, value: int) returns (ok: bool)
      modifies memory
      ensures (Contents(), ok) == Memory.Store(false, old(Contents()), addr, 2, value)
    {
      var v := value % 0x10000;
      HalfOfLow(value);
      if addr >= memory.Length { return false; }
      memory[addr] := v % 0x100;
      if addr + 1 >= memory.Length {
        assert Contents() == Write(old(Contents()), addr, 1, value);
        return false;
      }
      memory[addr + 1] := v / 0x100 % 0x100;
      WriteTwoBytes(old(Contents()), addr, value);
      return true;
    }

    /** Assigns element `i` of the word view. */
    method StoreView(i: nat, v: nat) returns (ok: bool)
      requires v < WORD
      modifies memory
      ensures ok <==> 4 * i + 4 <= memory.Length
      ensures Contents() == if ok then Write(old(Contents()), 4 * i, 4, v) else old(Contents())
    {
      ok := 4 * i + 4 <= memory.Length;
      if ok {
        memory[4 * i] := v % 0x100;
        memory[4 * i + 1] := v / 0x100 % 0x100;
        memory[4 * i + 2] := v / 0x10000 % 0x100;
        memory[4 * i + 3] := v / 0x1000000 % 0x100;
        WriteWordBytes(old(Contents()), 4 * i, v);
      }
    }

    method StoreWord(addr: nat, value: int) returns (ok: bool)
      requires Valid()
      modifies memory
      ensures (Contents(), ok) == Memory.Store(false, old(Contents()), addr, 4, value)
    {
      var v := value % WORD;
      ghost var before := Contents();
      WriteLow(before, addr, value);
      if addr % 4 == 0 {
        ok := StoreView(addr / 4, v);
      } else {
        if addr >= memory.Length { return false; }
        memory[addr] := v % 0x100;
        if addr + 1 >= memory.Length {
          assert Contents() == Write(before, addr, 1, v);
          return false;
        }
        memory[addr + 1] := v / 0x100 % 0x100;
        if addr + 2 >= memory.Length {
          assert Contents() == Write(before, addr, 2, v);
          return false;
        }
        memory[addr + 2] := v / 0x10000 % 0x100;
        if addr + 3 >= memory.Length {
          WriteThreeBytes(before, addr, v);
          return false;
        }
        memory[addr + 3] := v / 0x1000000 % 0x100;
        WriteWordBytes(before, addr, v);
        return true;
      }
    }

    // ----- SafeRAM: every access is checked against `size` first -----

    predicate Check(addr: int, n: nat) {
      !(addr < 0 || addr + n > size)
    }

    method SafeLoadByte(addr: int, signed: bool) returns (r: Option<int>)
      requires Valid()
      ensures r == match Load(true, Contents(), addr, 1)
                   case None => None
                   case Some(v) => Some(if signed then SignExtend(v, 0x80) else v)
    {
      if Check(addr, 1) { r := LoadByte(addr, signed); } else { r := None; }
    }

    method SafeLoadHalf(addr: int, signed: bool) returns (r: Option<int>)
      requires Valid()
      ensures r == match Load(true, Contents(), addr, 2)
                   case None => None
                   case Some(v) => Some(if signed then SignExtend(v, 0x8000) else v)
    {
      if Check(addr, 2) { r := LoadHalf(addr, signed); } else { r := None; }
    }

    method SafeLoadWord(addr: int) returns (r: Option<nat>)
      requires Valid()
      ensures r == Load(true, Contents(), addr, 4)
    {
      if Check(addr, 4) { r := LoadWord(addr); } else { r := None; }
    }

    method SafeStoreByte(addr: int, value: int) returns (ok: bool)
      requires Valid()
      modifies memory
      ensures ok <==> Fits(true, old(Contents()), addr, 1)
      ensures Contents() == if ok then Write(old(Contents()), addr, 1, value) else old(Contents())
    {
      ok := Check(addr, 1);
      if ok { ok := StoreByte(addr, value); }
    }

    method SafeStoreHalf(addr: int, value: int) returns (ok: bool)
      requires Valid()
      modifies memory
      ensures ok <==> Fits(true, old(Contents()), addr, 2)
      ensures Contents() == if ok then Write(old(Contents()), addr, 2, value) else old(Contents())
    {
      ok := Check(addr, 2);
      if ok { ok := StoreHalf(addr, value); }
    }

    method SafeStoreWord(addr: int, value: int) returns (ok: bool)
      requires Valid()
      modifies memory
      ensures ok <==> Fits(true, old(Contents()), addr, 4)
      ensures Contents() == if ok then Write(old(Contents()), addr, 4, value) else old(Contents())
    {
      ok := Check(addr, 4);
      if ok { ok := StoreWord(addr, value); }
    }

    // ----- Whichever of the two the machine was built with -----

    method AnyLoadByte(addr: nat, signed: bool) returns (r: Option<int>)
      requires Valid()
      ensures r == match Load(checked, Contents(), addr, 1)
                   case None => None
                   case Some(v) => Some(if signed then SignExtend(v, 0x80) else v)
    {
      if checked { r := SafeLoadByte(addr, signed); } else { r := LoadByte(addr, signed); }
    }

    method AnyLoadHalf(addr: nat, signed: bool) returns (r: Option<int>)
      requires Valid()
      ensures r == match Load(checked, Contents(), addr, 2)
                   case None => None
                   case Some(v) => Some(if signed then SignExtend(v, 0x8000) else v)
    {
      if checked { r := SafeLoadHalf(addr, signed); } else { r := LoadHalf(addr, signed); }
    }

    method AnyLoadWord(addr: nat) returns (r: Option<nat>)
      requires Valid()
      ensures r == Load(checked, Contents(), addr, 4)
    {
      if checked { r := SafeLoadWord(addr); } else { r := LoadWord(addr); }
    }

    method AnyStoreByte(addr: nat, value: int) returns (ok: bool)
      requires Valid()
      modifies memory
      ensures (Contents(), ok) == Memory.Store(checked, old(Contents()), addr, 1, value)
    {
      if checked { ok := SafeStoreByte(addr, value); } else { ok := StoreByte(addr, value); }
    }

    method AnyStoreHalf(addr: nat, value: int) returns (ok: bool)
      requires Valid()
      modifies memory
      ensures (Contents(), ok) == Memory.Store(checked, old(Contents()), addr, 2, value)
    {
      if checked { ok := SafeStoreHalf(addr, value); } else { ok := StoreHalf(addr, value); }
    }

    method AnyStoreWord(addr: nat, value: int) returns (ok: bool)
      requires Valid()
      modifies memory
      ensures (Contents(), ok) == Memory.Store(checked, old(Contents()), addr, 4, value)
    {
      if checked { ok := SafeStoreWord(addr, value); } else { ok := StoreWord(addr, value); }
    }

    // ----- SafeRAMOffset: SafeRAM shifted by `base_addr` -----

    method OffsetLoadByte(addr: int, signed: bool) returns (r: Option<int>)
      requires Valid()
      ensures r == match Load(true, Contents(), addr - baseAddr, 1)
                   case None => None
                   case Some(v) => Some(if signed then SignExtend(v, 0x80) else v)
    {
      r := SafeLoadByte(addr - baseAddr, signed);
    }

    method OffsetLoadHalf(addr: int, signed: bool) returns (r: Option<int>)
      requires Valid()
      ensures r == match Load(true, Contents(), addr - baseAddr, 2)
                   case None => None
                   case Some(v) => Some(if signed then SignExtend(v, 0x8000) else v)
    {
      r := SafeLoadHalf(addr - baseAddr, signed);
    }

    method OffsetLoadWord(addr: int) returns (r: Option<nat>)
      requires Valid()
      ensures r == Load(true, Contents(), addr - baseAddr, 4)
    {
      r := SafeLoadWord(addr - baseAddr);
    }

    method OffsetStoreByte(addr: int, value: int) returns (ok: bool)
      requires Valid()
      modifies memory
      ensures ok <==> Fits(true, old(Contents()), addr - baseAddr, 1)
      ensures Contents() == if ok then Write(old(Contents()), addr - baseAddr, 1, value) else old(Contents())
    {
      ok := SafeStoreByte(addr - baseAddr, value);
    }

    method OffsetStoreHalf(addr: int, value: int) returns (ok: bool)
      requires Valid()
      modifies memory
      ensures ok <==> Fits(true, old(Contents()), addr - baseAddr, 2)
      ensures Contents() == if ok then Write(old(Contents()), addr - baseAddr, 2, value) else old(Contents())
    {
      ok := SafeStoreHalf(addr - baseAddr, value);
    }

    method OffsetStoreWord(addr: int, value: int) returns (ok: bool)
      requires Valid()
      modifies memory
      ensures ok <==> Fits(true, old(Contents()), addr - baseAddr, 4)
      ensures Contents() == if ok then Write(old(Contents()), addr - baseAddr, 4, value) else old(Contents())
    {
      ok := SafeStoreWord(addr - baseAddr, value);
    }

    // ----- Block accesses -----

    /** Slice assignment; it fails, changing nothing, when it would have to resize the array. */
    method StoreBinary(addr: nat, binary: Bytes) returns (ok: bool)
      modifies memory
      ensures ok <==> binary == [] || addr + |binary| <= memory.Length
      ensures Contents() == if ok && binary != [] then Splice(old(Contents()), addr, binary) else old(Contents())
    {
      ok := binary == [] || addr + |binary| <= memory.Length;
      if ok && binary != [] {
        forall i | 0 <= i < |binary| { memory[addr + i] := binary[i]; }
        assert Contents() == Splice(old(Contents()), addr, binary);
      }
    }

    /** `store_binary` of whichever variant this is. A checked RAM also refuses an empty block that
        starts past the end. */
    method AnyStoreBinary(addr: nat, binary: Bytes) returns (ok: bool)
      requires Valid()
      modifies memory
      ensures ok <==> if checked then addr + |binary| <= size else binary == [] || addr + |binary| <= memory.Length
      ensures Contents() == if ok && binary != [] then Splice(old(Contents()), addr, binary) else old(Contents())
    {
      ok := !checked || Check(addr, |binary|);
      if ok { ok := StoreBinary(addr, binary); }
    }

    /** The bytes from `addr` up to the first NUL, which must come within `max_len` bytes and
        before `size`. */
    method LoadCString(addr: nat, maxLen: nat) returns (r: Option<Bytes>)
      requires Valid()
      ensures r.Some? ==> IsCString(Contents(), addr, r.value) && |r.value| < maxLen && addr + |r.value| < size
      ensures r.None? ==> forall j :: addr <= j < addr + maxLen && j < size ==> memory[j] != 0
      ensures forall s: Bytes | IsCString(Contents(), addr, s) && |s| < maxLen && addr + |s| < size :: r == Some(s)
    {
      var i := addr;
      while i < addr + maxLen && i < size
        invariant addr <= i
        invariant i > addr ==> i <= addr + maxLen && i <= size
        invariant forall j :: addr <= j < i ==> memory[j] != 0
      {
        if memory[i] == 0 {
          TheString(Contents(), addr, memory[addr..i]);
          return Some(memory[addr..i]);
        }
        i := i + 1;
      }
      return None;
    }
  }

  // ----- Byte-by-byte forms of Read and Write -----

  function Half(b0: nat, b1: nat): nat { b0 + 0x100 * b1 }

  function Quad(b0: nat, b1: nat, b2: nat, b3: nat): nat {
    b0 + 0x100 * b1 + 0x10000 * b2 + 0x1000000 * b3
  }

  lemma WordBytes(mem: Bytes, addr: nat)
    requires addr + 4 <= |mem|
    ensures Read(mem, addr, 4) == Quad(mem[addr], mem[addr + 1], mem[addr + 2], mem[addr + 3])
  {
    assert Read(mem, addr + 2, 2) == Half(mem[addr + 2], mem[addr + 3]);
  }

  lemma WriteTwoBytes(mem: Bytes, addr: nat, v: int)
    requires addr + 2 <= |mem|
    ensures Write(mem, addr, 2, v) == mem[addr := v % 0x100][addr + 1 := v / 0x100 % 0x100]
  {
  }

  lemma HalfOfLow(v: int)
    ensures v % 0x10000 % 0x100 == v % 0x100 && v % 0x10000 / 0x100 % 0x100 == v / 0x100 % 0x100
  {
  }

  lemma WriteThreeBytes(mem: Bytes, addr: nat, v: int)
    requires addr + 3 <= |mem|
    ensures Write(mem, addr, 3, v)
         == mem[addr := v % 0x100][addr + 1 := v / 0x100 % 0x100][addr + 2 := v / 0x10000 % 0x100]
  {
    var m: Bytes := mem[addr := v % 0x100];
    assert Write(m, addr + 1, 2, v / 256) == m[addr + 1 := v / 256 % 256][addr + 2 := v / 256 / 256 % 256];
  }

  lemma WriteWordBytes(mem: Bytes, addr: nat, v: int)
    requires addr + 4 <= |mem|
    ensures Write(mem, addr, 4, v)
         == mem[addr := v % 0x100][addr + 1 := v / 0x100 % 0x100][addr + 2 := v / 0x10000 % 0x100]
               [addr + 3 := v / 0x1000000 % 0x100]
  {
    WriteThreeBytes(mem[addr := v % 0x100], addr + 1, v / 256);
  }

  /** Cutting the value to 32 bits first makes no difference to the bytes written. */
  lemma WriteLow(mem: Bytes, addr: nat, v: int)
    ensures forall n: nat {:trigger Write(mem, addr, n, v)} :: n <= 4 && addr + n <= |mem| ==>
              Write(mem, addr, n, v) == Write(mem, addr, n, v % WORD)
  {
    forall n: nat | n <= 4 && addr + n <= |mem|
      ensures Write(mem, addr, n, v) == Write(mem, addr, n, v % WORD)
    {
      forall j | 0 <= j < |mem|
        ensures Write(mem, addr, n, v)[j] == Write(mem, addr, n, v % WORD)[j]
      {
        WriteAt(mem, addr, n, v, j);
        WriteAt(mem, addr, n, v % WORD, j);
        if addr <= j < addr + n { ByteOfLow(v, j - addr); }
      }
    }
  }

  lemma ByteOfLow(v: int, i: nat)
    requires i < 4
    ensures ByteAt(v, i) == ByteAt(v % WORD, i)
  {
    hide Memory.ByteAt;
    ByteShift(v, i);
    ByteShift(v % WORD, i);
    if i == 0 { LowByte0(v); }
    if i == 1 { LowByte1(v); }
    if i == 2 { LowByte2(v); }
    if i == 3 { LowByte3(v); }
  }

  lemma LowByte0(v: int)
    ensures v % 256 == v % WORD % 256
  {
    var q, t := v / WORD, v % WORD;
    EuclidUnique(v, 256, 0x1000000 * q + t / 256, t % 256);
  }

  lemma LowByte1(v: int)
    ensures v / 0x100 % 256 == v % WORD / 0x100 % 256
  {
    var q, t := v / WORD, v % WORD / 0x100;
    EuclidUnique(v, 0x100, 0x1000000 * q + t, v % WORD % 0x100);
    EuclidUnique(0x1000000 * q + t, 256, 0x10000 * q + t / 256, t % 256);
  }

  lemma LowByte2(v: int)
    ensures v / 0x10000 % 256 == v % WORD / 0x10000 % 256
  {
    var q, t := v / WORD, v % WORD / 0x10000;
    EuclidUnique(v, 0x10000, 0x10000 * q + t, v % WORD % 0x10000);
    EuclidUnique(0x10000 * q + t, 256, 0x100 * q + t / 256, t % 256);
  }

  lemma LowByte3(v: int)
    ensures v / 0x1000000 % 256 == v % WORD / 0x1000000 % 256
  {
    var q, t := v / WORD, v % WORD / 0x1000000;
    EuclidUnique(v, 0x1000000, 0x100 * q + t, v % WORD % 0x1000000);
    EuclidUnique(0x100 * q + t, 256, q + t / 256, t % 256);
  }

  lemma ByteShift(v: int, i: nat)
    requires i < 4
    ensures ByteAt(v, i) == if i == 0 then v % 256
                            else if i == 1 then v / 0x100 % 256
                            else if i == 2 then v / 0x10000 % 256
                            else v / 0x1000000 % 256
  {
    if i >= 2 { assert ByteAt(v, i) == ByteAt(v / 256 / 256, i - 2); }
    DivDiv(v, 256, 256);
    DivDiv(v, 0x10000, 256);
  }
}
