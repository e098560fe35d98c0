/** The two decode caches, and why they cannot be seen from outside as long as 32-bit instruction words that
    share an entry decode alike, as they do when all of them end in 0b11. */
module Cache {
  import opened PyInt
  import opened Memory
  import opened Isa
  import opened Rvc

  /** Fields of 32-bit words, under the word without its two low bits; fields and expansion of
      16-bit words, under the word. */
  datatype Caches = Caches(wide: map<nat, Fields>, narrow: map<nat, (Fields, bv32)>)

  function Upper(w: bv32): bv32 { w >> 2 }

  function WideKey(w: bv32): nat { Val(Upper(w)) }

  function NarrowKey(h: bv16): nat { h as int }

  function CachedExecute32(cfg: Config, s: State, c: Caches, w: bv32): (Effect, Caches) {
    var f := if WideKey(w) in c.wide then c.wide[WideKey(w)] else Split(w);
    (Dispatch(cfg, s, f, w, 4), c.(wide := c.wide[WideKey(w) := f]))
  }

  function CachedExecute16(cfg: Config, s: State, c: Caches, h: bv16): (Effect, Caches) {
    var k := NarrowKey(h);
    if k in c.narrow then
      (Dispatch(cfg, s, c.narrow[k].0, c.narrow[k].1, 2), c)
    else match Expand(h)
         case None => (Trap(s, 2, h as int, true), c)
         case Some(w) => (Dispatch(cfg, s, Split(w), w, 2), c.(narrow := c.narrow[k := (Split(w), w)]))
  }

  /** The wrapper `execute`: 16-bit instructions only exist when RVC is enabled. */
  function CachedExecuteAny(cfg: Config, s: State, c: Caches, w: bv32): (Effect, Caches) {
    if !cfg.rvc || w & 0x3 == 0x3 then CachedExecute32(cfg, s, c, w)
    else CachedExecute16(cfg, s, c, (w & 0xFFFF) as bv16)
  }

  /** One call of `execute_32` or `execute_16`, and what may happen to the state before it: a timer
      tick, a jump, a system call, a debugger writing registers. */
  datatype Call = Wide(before: State -> State, w: bv32) | Narrow(before: State -> State, h: bv16)

  /** A history of calls, the last one first, without caches. It stops at the first exception. */
  function Plain(cfg: Config, s: State, calls: seq<Call>): Effect
    decreases |calls|
  {
    if calls == [] then Go(s)
    else
      var e := Plain(cfg, s, calls[..|calls| - 1]);
      if e.halt != Running then e
      else match calls[|calls| - 1]
           case Wide(before, w) => Execute32(cfg, before(e.s), w)
           case Narrow(before, h) => Execute16(cfg, before(e.s), h)
  }

  /** The same history with caches. */
  function Cached(cfg: Config, s: State, c: Caches, calls: seq<Call>): (Effect, Caches)
    decreases |calls|
  {
    if calls == [] then (Go(s), c)
    else
      var (e, c') := Cached(cfg, s, c, calls[..|calls| - 1]);
      if e.halt != Running then (e, c')
      else match calls[|calls| - 1]
           case Wide(before, w) => CachedExecute32(cfg, before(e.s), c', w)
           case Narrow(before, h) => CachedExecute16(cfg, before(e.s), c', h)
  }

  /** Every entry leads to the instruction that decoding afresh gives, for the 32-bit words of a family. */
  ghost predicate Coherent(c: Caches, family: bv32 -> bool) {
    && (forall w | family(w) && WideKey(w) in c.wide :: Decode(c.wide[WideKey(w)], w) == Decode(Split(w), w))
    && NarrowCoherent(c)
  }

  ghost predicate NarrowCoherent(c: Caches) {
    forall h: bv16 | NarrowKey(h) in c.narrow ::
      var (f, w) := c.narrow[NarrowKey(h)]; Expand(h) == Some(w) && f == Split(w)
  }

  /** The word w, run with the fields that v has left in the cache, is the same instruction. */
  predicate RunsAlike(v: bv32, w: bv32) { Decode(Split(v), w) == Decode(Split(w), w) }

  /** So do any two words of the family that share an entry, because they differ in their two low bits only. */
  ghost predicate Harmless(family: bv32 -> bool) {
    forall v, w :: family(v) && family(w) && WideKey(v) == WideKey(w) ==> RunsAlike(v, w)
  }

  predicate EndsIn11(w: bv32) { w & 0x3 == 0x3 }

  function OfVal(n: Word): bv32 { n as bv32 }

  lemma FromVal(w: bv32)
    ensures w == OfVal(Val(w))
  {
  }

  lemma WideKeyInjective(v: bv32, w: bv32)
    requires EndsIn11(v) && EndsIn11(w) && WideKey(v) == WideKey(w)
    ensures v == w
  {
    hide Isa.Val; hide OfVal;
    FromVal(Upper(v));
    FromVal(Upper(w));
  }

  lemma NarrowKeyInjective(g: bv16, h: bv16)
    requires NarrowKey(g) == NarrowKey(h)
    ensures g == h
  {
    assert g == NarrowKey(g) as bv16 && h == NarrowKey(h) as bv16;
  }

  /** The words the loops hand to `execute_32`, those that end in 0b11, do not share entries. */
  lemma EndsIn11Harmless()
    ensures Harmless(EndsIn11)
  {
    hide WideKey; hide EndsIn11; hide Isa.Decode; hide Isa.Split;
    forall v, w | EndsIn11(v) && EndsIn11(w) && WideKey(v) == WideKey(w) ensures RunsAlike(v, w) {
      WideKeyInjective(v, w);
    }
  }

  lemma WideStep(cfg: Config, s: State, c: Caches, w: bv32, family: bv32 -> bool)
    requires Coherent(c, family) && Harmless(family) && family(w)
    ensures var (e, c') := CachedExecute32(cfg, s, c, w); e == Execute32(cfg, s, w) && Coherent(c', family)
  {
    hide Isa.Perform; hide Isa.Decode; hide Isa.Val; hide Isa.Split; hide WideKey; hide NarrowKey; hide Rvc.Expand;
  }

  lemma NarrowStep(cfg: Config, s: State, c: Caches, h: bv16)
    requires NarrowCoherent(c)
    ensures var (e, c') := CachedExecute16(cfg, s, c, h);
            e == Execute16(cfg, s, h) && NarrowCoherent(c') && c'.wide == c.wide
  {
    hide Isa.Dispatch; hide Isa.Decode; hide Isa.Split; hide Rvc.Expand; hide Isa.Trap; hide WideKey; hide NarrowKey;
    forall g | NarrowKey(g) == NarrowKey(h) ensures g == h { NarrowKeyInjective(g, h); }
  }

  /** Over every history whose 32-bit words are of a harmless family, the cached run is the cache-free run. */
  lemma {:induction false} CacheTransparent(cfg: Config, s: State, c: Caches, calls: seq<Call>, family: bv32 -> bool)
    requires Coherent(c, family) && Harmless(family)
    requires forall i | 0 <= i < |calls| && calls[i].Wide? :: family(calls[i].w)
    ensures var (e, c') := Cached(cfg, s, c, calls); e == Plain(cfg, s, calls) && Coherent(c', family)
    decreases |calls|
  {
    hide CachedExecute32; hide CachedExecute16; hide Isa.Execute32; hide Rvc.Execute16; hide Harmless;
    hide NarrowCoherent; hide WideKey; hide Isa.Decode; hide Isa.Split;
    if calls != [] {
      var init, last := calls[..|calls| - 1], calls[|calls| - 1];
      CacheTransparent(cfg, s, c, init, family);
      var (e, c') := Cached(cfg, s, c, init);
      if e.halt == Running {
        match last
        case Wide(before, w) => WideStep(cfg, before(e.s), c', w, family);
        case Narrow(before, h) => NarrowStep(cfg, before(e.s), c', h);
      }
    }
  }

  /** From empty caches, that covers every history in which all 32-bit words end in 0b11. */
  lemma CacheTransparentFromReset(cfg: Config, s: State, calls: seq<Call>)
    requires forall i | 0 <= i < |calls| && calls[i].Wide? :: EndsIn11(calls[i].w)
    ensures Cached(cfg, s, Caches(map[], map[]), calls).0 == Plain(cfg, s, calls)
  {
    hide Cached; hide Plain; hide Harmless; hide EndsIn11;
    EndsIn11Harmless();
    CacheTransparent(cfg, s, Caches(map[], map[]), calls, EndsIn11);
  }
}
