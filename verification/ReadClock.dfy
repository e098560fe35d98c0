/** `read_mtime`, which reads a clock of two words while it runs. */
module ReadClock {
  import opened PyInt
  import opened Memory
  import opened Isa
  import opened Rvc
  import opened Steps
  import opened Clock
  import opened TimerRuns
  import opened Guest
  import Arithmetic

  // ----- Time in a run -----

  function Beat(loop: Loop): nat { if loop.Ticks() then 1 else 0 }

  /** n steps of a run in which nobody sets the clock. */
  predicate Undisturbed(cfg: Config, loop: Loop, s: State, n: nat) {
    && NoMeddling(cfg, loop, MTIME, s, n) && Run(cfg, loop, s, n).halt == Running
    && OnlyTicks(History(cfg, loop, MTIME, s, n))
  }

  /** There mtime counts the steps. */
  lemma TimePasses(cfg: Config, loop: Loop, s: State, n: nat)
    requires s.x[0] == 0 && Undisturbed(cfg, loop, s, n)
    ensures Run(cfg, loop, s, n).s.timer.mtime == s.timer.mtime + n * Beat(loop)
    ensures Run(cfg, loop, s, n).s.x[0] == 0
  {
    hide Steps.Run; hide History; hide NoMeddling;
    RunFollows(cfg, loop, MTIME, s, n);
    PlayTicks(LatchOf(MTIME, s), History(cfg, loop, MTIME, s, n));
    OneTickPerStep(cfg, loop, s, n);
    ZeroInRun(cfg, loop, s, n);
  }

  lemma {:induction false} ZeroInRun(cfg: Config, loop: Loop, s: State, n: nat)
    requires s.x[0] == 0 && Run(cfg, loop, s, n).halt == Running
    ensures Run(cfg, loop, s, n).s.x[0] == 0
    decreases n
  {
    hide Steps.Step;
    if n > 0 {
      ZeroStays(cfg, loop, s);
      ZeroInRun(cfg, loop, Step(cfg, loop, s).s, n - 1);
    }
  }

  lemma {:induction false} OneTickPerStep(cfg: Config, loop: Loop, s: State, n: nat)
    requires Run(cfg, loop, s, n).halt == Running && OnlyTicks(History(cfg, loop, MTIME, s, n))
    ensures |History(cfg, loop, MTIME, s, n)| == n * Beat(loop)
    decreases n
  {
    hide Steps.Step; hide StepEvents;
    if n > 0 {
      var e := Step(cfg, loop, s);
      var h, rest := StepEvents(cfg, loop, MTIME, s), History(cfg, loop, MTIME, e.s, n - 1);
      assert History(cfg, loop, MTIME, s, n) == h + rest;
      OneTickPerStep(cfg, loop, e.s, n - 1);
      OneTick(cfg, loop, s);
    }
  }

  lemma NoHalfWrite(s: State, i: Instr, rest: seq<Event>)
    ensures OnlyTicks(HalfWrites(MTIME, s, i) + rest) ==> HalfWrites(MTIME, s, i) == []
  {
    if HalfWrites(MTIME, s, i) != [] { assert HalfWrites(MTIME, s, i)[0] in HalfWrites(MTIME, s, i) + rest; }
  }

  lemma OneTick(cfg: Config, loop: Loop, s: State)
    requires Step(cfg, loop, s).halt == Running && OnlyTicks(StepEvents(cfg, loop, MTIME, s))
    ensures |StepEvents(cfg, loop, MTIME, s)| == Beat(loop)
  {
    hide Steps.Execute; hide Steps.Fetch; hide Steps.DecodeFetched; hide Isa.Tick;
    var f := Fetch(cfg, loop, s);
    NothingFetched(cfg, s, f);
    NoHalfWrite(s, DecodeFetched(f).i, TickEvents(loop, MTIME));
  }

  lemma {:induction false} PlayTicks(l: Latch, h: seq<Event>)
    requires OnlyTicks(h)
    ensures Play(l, h) == l.(now := l.now + |h|)
    decreases |h|
  {
    if h != [] {
      assert h[|h| - 1] in h;
      PlayTicks(l, h[..|h| - 1]);
    }
  }

  // ----- The loop, over the times of its reads -----

  /** A clock that nobody sets, seen at successive moments. */
  predicate Clocklike(ts: seq<nat>) {
    && (forall i, j | 0 <= i <= j < |ts| :: ts[i] <= ts[j])
    && (forall i | 0 <= i < |ts| :: ts[i] < WORD * WORD)
  }

  function HighHalf(t: nat): Word { t / WORD % WORD }

  lemma SameHigh(a: nat, b: nat, c: nat)
    requires a <= b <= c < WORD * WORD && HighHalf(a) == HighHalf(c)
    ensures HighHalf(c) * WORD + b % WORD == b
  {
    Arithmetic.TwoWords(b);
    Arithmetic.HighHalf(c, WORD);
  }

  /** Two retries need two changes of the high half. */
  lemma RetryOnce(a: nat, b: nat, c: nat, d: nat)
    requires a <= b <= c <= d < WORD * WORD && HighHalf(a) != HighHalf(b) && HighHalf(c) != HighHalf(d)
    ensures d - a >= WORD
  {
    Arithmetic.HighHalf(d, WORD);
    assert a / WORD < b / WORD <= c / WORD < d / WORD;
  }

  /** The high half changed during attempt k. */
  predicate Torn(ts: seq<nat>, k: nat)
    requires 3 * k + 2 < |ts|
  {
    HighHalf(ts[3 * k]) != HighHalf(ts[3 * k + 2])
  }

  /** The outcome of `read_mtime`: the time of the middle read of the first attempt that is not torn. */
  predicate Returns(ts: seq<nat>, tries: nat, v: nat) {
    && 0 < tries && 3 * tries <= |ts| && v == ts[3 * tries - 2]
    && !Torn(ts, tries - 1) && forall k | 0 <= k < tries - 1 :: Torn(ts, k)
  }

  /** `read_mtime`: `ts` are the times at which its successive CSR reads take place, however far apart. It
      returns the time of one of them, in the first attempt that is not torn; and unless 2^32 ticks go by,
      it retries at most once. */
  method ReadMtime(ts: seq<nat>) returns (r: Option<nat>, tries: nat)
    requires Clocklike(ts)
    ensures 3 * tries <= |ts|
    ensures match r
            case Some(t) => Returns(ts, tries, t)
            case None => |ts| < 3 * tries + 3 && forall k | 0 <= k < tries :: Torn(ts, k)
    ensures |ts| >= 6 && ts[5] - ts[0] < WORD ==> r.Some? && tries <= 2
  {
    hide HighHalf; hide PyInt.Or; hide PyInt.Pow2;
    tries := 0;
    while 3 * tries + 3 <= |ts|
      invariant 3 * tries <= |ts|
      invariant forall k | 0 <= k < tries :: Torn(ts, k)
    {
      var hi1 := HighHalf(ts[3 * tries]);
      var lo := ts[3 * tries + 1] % WORD;
      var hi2 := HighHalf(ts[3 * tries + 2]);
      tries := tries + 1;
      if hi1 == hi2 {
        SameHigh(ts[3 * tries - 3], ts[3 * tries - 2], ts[3 * tries - 1]);
        Pow32();
        JoinHalves(hi2, lo, 32);
        SoonDone(ts, tries);
        return Some(Or(hi2 * WORD, lo)), tries;
      }
    }
    SoonDone(ts, tries + 1);
    return None, tries;
  }

  lemma SoonDone(ts: seq<nat>, tries: nat)
    requires Clocklike(ts) && 0 < tries && 3 * tries - 3 <= |ts| && forall k | 0 <= k < tries - 1 :: Torn(ts, k)
    ensures |ts| >= 6 && ts[5] - ts[0] < WORD ==> tries <= 2
  {
    hide HighHalf;
    if tries > 2 {
      assert Torn(ts, 0) && Torn(ts, 1);
      RetryOnce(ts[0], ts[2], ts[3], ts[5]);
    }
  }

  // ----- The loop, on the CPU -----

  /** The registers it uses. */
  datatype Names = Names(hi1: Index, lo: Index, hi2: Index) {
    predicate Valid() { hi1 != 0 && lo != 0 && hi2 != 0 && hi1 != lo && hi1 != hi2 && lo != hi2 }
  }

  /** Three reads, and a branch back to the first if the high halves differ. */
  function Code(r: Names): seq<Instr> {
    [Csrr(r.hi1, TIME_HI), Csrr(r.lo, TIME_LO), Csrr(r.hi2, TIME_HI), Branch(NE, r.hi1, r.hi2, WORD - 12)]
  }

  function At(p: Word, k: nat): Word { (p + 4 * k) % WORD }

  predicate Fetches(cfg: Config, loop: Loop, s: State, i: Instr) {
    var d := DecodeFetched(Fetch(cfg, loop, s)); Checked(loop, s) && d.Decoded? && d.i == i && d.size == 4
  }

  /** The code is at p, as far as this state is about to execute it. */
  predicate InPlace(cfg: Config, loop: Loop, s: State, p: Word, r: Names) {
    forall k | 0 <= k < 4 && s.pc == At(p, k) :: Fetches(cfg, loop, s, Code(r)[k])
  }

  function Pair(s: State, r: Names): int { s.x[r.hi2] * WORD + s.x[r.lo] }

  /** One instruction, and whatever happens before the next: n steps of other code, an interrupt handler say,
      which does not set the clock, keeps the three registers and comes back to where the instruction has
      led. */
  predicate Leg(cfg: Config, loop: Loop, r: Names, s: State, n: nat, t: State) {
    var e := Step(cfg, loop, s);
    && e.halt == Running && Undisturbed(cfg, loop, e.s, n) && t == Run(cfg, loop, e.s, n).s
    && t.pc == Execute(cfg, s, Fetch(cfg, loop, s)).s.nextPc
    && t.x[r.hi1] == e.s.x[r.hi1] && t.x[r.lo] == e.s.x[r.lo] && t.x[r.hi2] == e.s.x[r.hi2]
  }

  /** What `csrr` reads from the CSRs of mtime, in any state. */
  lemma CsrrReadsTime(cfg: Config, s: State, rd: Index, n: CsrIndex, raw: Word, size: nat)
    requires rd != 0 && (n == TIME_LO || n == TIME_HI) && s.x[0] == 0
    ensures var v := if n == TIME_LO then s.timer.mtime % WORD else HighHalf(s.timer.mtime);
            var e := Perform(cfg, s, Csrr(rd, n), raw, size);
            && e.halt == Running && e.s.timer == s.timer && e.s.x == s.x[rd := v]
            && e.s.nextPc == (s.pc + size) % WORD && e.s.csr[MSTATUS] == s.csr[MSTATUS]
  {
    hide Isa.NewCsr; hide Isa.On;
  }

  lemma BranchBack(cfg: Config, s: State, a: Index, b: Index, raw: Word)
    requires s.x[0] == 0 && !Misaligned(cfg, (s.pc + (WORD - 12)) % WORD)
    ensures var e := Perform(cfg, s, Branch(NE, a, b, WORD - 12), raw, 4);
            && e.halt == Running && e.s.timer == s.timer && e.s.x == s.x && e.s.csr == s.csr
            && e.s.nextPc == (if s.x[a] != s.x[b] then (s.pc + (WORD - 12)) % WORD else (s.pc + 4) % WORD)
  {
    assert s.x[0 := 0] == s.x;
  }

  /** The end of a step changes no register, and advances the clock. */
  lemma FinishKeeps(loop: Loop, e: Effect)
    requires Finish(loop.Ticks(), e).halt == Running
    ensures var f := Finish(loop.Ticks(), e);
            e.halt == Running && f.s.x == e.s.x && f.s.timer.mtime == e.s.timer.mtime + Beat(loop)
  {
    hide Isa.On; hide Isa.Off; hide Isa.EnterTrap; hide PyInt.Bit;
  }

  /** A leg, in terms of the instruction that it starts with. */
  lemma LegPerforms(cfg: Config, loop: Loop, r: Names, s: State, n: nat, t: State, i: Instr)
    requires s.x[0] == 0 && Fetches(cfg, loop, s, i) && Leg(cfg, loop, r, s, n, t)
    ensures var d := DecodeFetched(Fetch(cfg, loop, s));
            var e := Perform(cfg, s, i, d.raw, 4);
            && e.halt == Running && t.pc == e.s.nextPc && t.x[0] == 0
            && t.x[r.hi1] == e.s.x[r.hi1] && t.x[r.lo] == e.s.x[r.lo] && t.x[r.hi2] == e.s.x[r.hi2]
            && t.timer.mtime == e.s.timer.mtime + Beat(loop) + n * Beat(loop)
  {
    hide Steps.Execute; hide Steps.Fetch; hide Steps.DecodeFetched; hide Isa.Perform; hide Steps.Run; hide Undisturbed;
    hide Steps.Finish;
    var f := Fetch(cfg, loop, s);
    NothingFetched(cfg, s, f);
    ExecuteDecoded(cfg, s, f);
    FinishKeeps(loop, Execute(cfg, s, f));
    ZeroStays(cfg, loop, s);
    TimePasses(cfg, loop, Step(cfg, loop, s).s, n);
  }

  /** What the k-th instruction of the loop leaves in the registers. */
  predicate AfterLeg(cfg: Config, p: Word, r: Names, k: nat, s: State, t: State) {
    && t.x[0] == 0 && s.timer.mtime <= t.timer.mtime
    && t.x[r.hi1] == (if k == 0 then HighHalf(s.timer.mtime) else s.x[r.hi1])
    && t.x[r.lo] == (if k == 1 then s.timer.mtime % WORD else s.x[r.lo])
    && t.x[r.hi2] == (if k == 2 then HighHalf(s.timer.mtime) else s.x[r.hi2])
    && t.pc == if k == 3 && s.x[r.hi1] != s.x[r.hi2] then p else At(p, k + 1)
  }

  lemma NextAt(p: Word, k: nat)
    ensures (At(p, k) + 4) % WORD == At(p, k + 1) && (At(p, 3) + (WORD - 12)) % WORD == p && At(p, 0) == p
  {
    ModPlus(p + 4 * k, 4);
    ModPlus(p + 12, WORD - 12);
    EuclidUnique(p + WORD, WORD, 1, p);
  }

  lemma ModPlus(x: int, y: int)
    ensures (x % WORD + y) % WORD == (x + y) % WORD
  {
    var q := (x % WORD + y) / WORD;
    EuclidUnique(x + y, WORD, x / WORD + q, (x % WORD + y) % WORD);
  }

  lemma LegEffect(cfg: Config, loop: Loop, p: Word, r: Names, k: nat, s: State, n: nat, t: State)
    requires r.Valid() && k < 4 && s.pc == At(p, k) && s.x[0] == 0 && !Misaligned(cfg, p)
    requires InPlace(cfg, loop, s, p, r) && Leg(cfg, loop, r, s, n, t)
    ensures AfterLeg(cfg, p, r, k, s, t)
  {
    hide Leg; hide Isa.Perform; hide HighHalf; hide At; hide Steps.DecodeFetched; hide Steps.Fetch;
    var i := Code(r)[k];
    assert Fetches(cfg, loop, s, i);
    var raw := DecodeFetched(Fetch(cfg, loop, s)).raw;
    LegPerforms(cfg, loop, r, s, n, t, i);
    NextAt(p, k);
    if k == 0 { CsrrReadsTime(cfg, s, r.hi1, TIME_HI, raw, 4); }
    else if k == 1 { CsrrReadsTime(cfg, s, r.lo, TIME_LO, raw, 4); }
    else if k == 2 { CsrrReadsTime(cfg, s, r.hi2, TIME_HI, raw, 4); }
    else { BranchBack(cfg, s, r.hi1, r.hi2, raw); }
  }

  /** An execution of the loop, from its first instruction, with detours between the instructions: `path` are
      the states in which they are executed, `lens` the lengths of the detours. It stops at the exit. */
  ghost predicate Execution(cfg: Config, loop: Loop, p: Word, r: Names, path: seq<State>, lens: seq<nat>) {
    && |path| == |lens| + 1 && path[0].pc == p && path[0].x[0] == 0
    && forall k | 0 <= k < |lens| :: Onward(cfg, loop, p, r, path[k], lens[k], path[k + 1])
  }

  predicate Onward(cfg: Config, loop: Loop, p: Word, r: Names, s: State, n: nat, t: State) {
    s.pc != At(p, 4) && InPlace(cfg, loop, s, p, r) && Leg(cfg, loop, r, s, n, t)
  }

  /** The times of the first m reads: three in each attempt of four instructions. */
  function Index4(i: nat): nat { i / 3 * 4 + i % 3 }

  ghost function Reads(path: seq<State>, m: nat): (ts: seq<nat>)
    requires 4 * m <= |path|
    ensures |ts| == 3 * m
  {
    seq(3 * m, (i: nat) requires i < 3 * m => path[Index4(i)].timer.mtime)
  }

  /** Where the execution is after k legs. */
  predicate Place(p: Word, k: nat, last: nat, pc: Word) {
    pc == At(p, k % 4) || (0 < k == last && k % 4 == 0 && pc == At(p, 4))
  }

  lemma Places(p: Word)
    ensures At(p, 0) == p && forall k | 0 <= k < 4 :: At(p, k) != At(p, 4)
    ensures forall j, k | 0 <= j < k < 4 :: At(p, j) != At(p, k)
  {
  }

  lemma {:induction false} Progress(cfg: Config, loop: Loop, p: Word, r: Names, path: seq<State>, lens: seq<nat>,
      k: nat)
    requires r.Valid() && !Misaligned(cfg, p) && Execution(cfg, loop, p, r, path, lens) && k <= |lens|
    ensures path[k].x[0] == 0 && Place(p, k, |lens|, path[k].pc)
    ensures k < |lens| ==> AfterLeg(cfg, p, r, k % 4, path[k], path[k + 1])
    decreases k
  {
    hide InPlace; hide Leg; hide At; hide HighHalf;
    Places(p);
    if k > 0 {
      Progress(cfg, loop, p, r, path, lens, k - 1);
      assert Onward(cfg, loop, p, r, path[k - 1], lens[k - 1], path[k]);
      RoundTheLoop(k - 1);
    }
    if k < |lens| {
      assert Onward(cfg, loop, p, r, path[k], lens[k], path[k + 1]);
      LegEffect(cfg, loop, p, r, k % 4, path[k], lens[k], path[k + 1]);
    }
  }

  lemma RoundTheLoop(k: nat)
    ensures if k % 4 == 3 then (k + 1) % 4 == 0 else (k + 1) % 4 == k % 4 + 1
  {
  }

  lemma {:induction false} ClockGoesOn(cfg: Config, loop: Loop, p: Word, r: Names, path: seq<State>, lens: seq<nat>,
      i: nat, j: nat)
    requires r.Valid() && !Misaligned(cfg, p) && Execution(cfg, loop, p, r, path, lens) && i <= j <= |lens|
    ensures path[i].timer.mtime <= path[j].timer.mtime
    decreases j
  {
    hide Execution;
    if i < j {
      ExecutionShape(cfg, loop, p, r, path, lens);
      ClockGoesOn(cfg, loop, p, r, path, lens, i, j - 1);
      Progress(cfg, loop, p, r, path, lens, j - 1);
    }
  }

  lemma ExecutionShape(cfg: Config, loop: Loop, p: Word, r: Names, path: seq<State>, lens: seq<nat>)
    requires Execution(cfg, loop, p, r, path, lens)
    ensures |path| == |lens| + 1
  {
  }

  /** One attempt: what is in the registers after it, and where it leads. */
  lemma Attempt(cfg: Config, loop: Loop, p: Word, r: Names, path: seq<State>, lens: seq<nat>, j: nat)
    requires r.Valid() && !Misaligned(cfg, p) && Execution(cfg, loop, p, r, path, lens) && 4 * j + 4 <= |lens|
    ensures var a, b, c, t := path[4 * j], path[4 * j + 1], path[4 * j + 2], path[4 * j + 4];
            && t.x[r.hi1] == HighHalf(a.timer.mtime) && t.x[r.lo] == b.timer.mtime % WORD
            && t.x[r.hi2] == HighHalf(c.timer.mtime)
            && t.pc == if HighHalf(a.timer.mtime) != HighHalf(c.timer.mtime) then p else At(p, 4)
  {
    hide Execution; hide HighHalf; hide At; hide Place;
    ExecutionShape(cfg, loop, p, r, path, lens);
    FourLegs(j);
    Progress(cfg, loop, p, r, path, lens, 4 * j);
    Progress(cfg, loop, p, r, path, lens, 4 * j + 1);
    Progress(cfg, loop, p, r, path, lens, 4 * j + 2);
    Progress(cfg, loop, p, r, path, lens, 4 * j + 3);
  }

  lemma FourLegs(j: nat)
    ensures (4 * j) % 4 == 0 && (4 * j + 1) % 4 == 1 && (4 * j + 2) % 4 == 2 && (4 * j + 3) % 4 == 3
  {
  }

  lemma ReadsAt(path: seq<State>, m: nat, j: nat)
    requires 4 * m <= |path| && j < m
    ensures var ts := Reads(path, m);
            && ts[3 * j] == path[4 * j].timer.mtime && ts[3 * j + 1] == path[4 * j + 1].timer.mtime
            && ts[3 * j + 2] == path[4 * j + 2].timer.mtime
  {
    ThreeReads(j);
  }

  lemma ThreeReads(j: nat)
    ensures Index4(3 * j) == 4 * j && Index4(3 * j + 1) == 4 * j + 1 && Index4(3 * j + 2) == 4 * j + 2
  {
  }

  lemma Index4Grows(i: nat, j: nat, m: nat)
    requires i <= j < 3 * m
    ensures Index4(i) <= Index4(j) < 4 * m
  {
  }

  lemma ReadsAreClocklike(cfg: Config, loop: Loop, p: Word, r: Names, path: seq<State>, lens: seq<nat>, m: nat)
    requires r.Valid() && !Misaligned(cfg, p) && Execution(cfg, loop, p, r, path, lens) && 4 * m <= |lens|
    requires path[|lens|].timer.mtime < WORD * WORD
    ensures Clocklike(Reads(path, m))
  {
    hide Execution; hide Index4;
    ExecutionShape(cfg, loop, p, r, path, lens);
    forall i, j | 0 <= i <= j < 3 * m ensures Reads(path, m)[i] <= Reads(path, m)[j] < WORD * WORD {
      Index4Grows(i, j, m);
      ClockGoesOn(cfg, loop, p, r, path, lens, Index4(i), Index4(j));
      ClockGoesOn(cfg, loop, p, r, path, lens, Index4(j), |lens|);
    }
  }

  /** The whole loop: when it falls through, the pair of registers is what `ReadMtime` returns for the times of
      its reads, the time that mtime had at the second read of the last attempt. */
  lemma ReadMtimeOnCpu(cfg: Config, loop: Loop, p: Word, r: Names, path: seq<State>, lens: seq<nat>)
    requires r.Valid() && !Misaligned(cfg, p) && Execution(cfg, loop, p, r, path, lens)
    requires path[|lens|].pc == At(p, 4) && path[|lens|].timer.mtime < WORD * WORD
    ensures var tries := |lens| / 4;
            && |lens| == 4 * tries && tries > 0 && Clocklike(Reads(path, tries))
            && Returns(Reads(path, tries), tries, Pair(path[|lens|], r))
            && Pair(path[|lens|], r) == path[|lens| - 3].timer.mtime
            && (tries <= 2 || path[6].timer.mtime - path[0].timer.mtime >= WORD)
  {
    hide Execution; hide HighHalf; hide At; hide Reads; hide Clocklike;
    ExecutionShape(cfg, loop, p, r, path, lens);
    Places(p);
    Progress(cfg, loop, p, r, path, lens, |lens|);
    var tries := |lens| / 4;
    ReadsAreClocklike(cfg, loop, p, r, path, lens, tries);
    var ts := Reads(path, tries);
    forall k | 0 <= k < tries ensures Torn(ts, k) == (k < tries - 1) {
      ReadsAt(path, tries, k);
      Attempt(cfg, loop, p, r, path, lens, k);
      if k < tries - 1 { GoesOn(cfg, loop, p, r, path, lens, 4 * k + 4); }
    }
    ReadsAt(path, tries, tries - 1);
    Attempt(cfg, loop, p, r, path, lens, tries - 1);
    LastRead(cfg, loop, p, r, path, lens, tries - 1);
    SoonDone(ts, tries);
    if tries > 2 {
      ReadsAt(path, tries, 0);
      ReadsAt(path, tries, 1);
    }
  }

  lemma GoesOn(cfg: Config, loop: Loop, p: Word, r: Names, path: seq<State>, lens: seq<nat>, k: nat)
    requires Execution(cfg, loop, p, r, path, lens) && k < |lens|
    ensures path[k].pc != At(p, 4)
  {
    assert Onward(cfg, loop, p, r, path[k], lens[k], path[k + 1]);
  }

  lemma LastRead(cfg: Config, loop: Loop, p: Word, r: Names, path: seq<State>, lens: seq<nat>, j: nat)
    requires r.Valid() && !Misaligned(cfg, p) && Execution(cfg, loop, p, r, path, lens) && 4 * j + 4 == |lens|
    requires path[|lens|].pc == At(p, 4) && path[|lens|].timer.mtime < WORD * WORD
    ensures Pair(path[|lens|], r) == path[4 * j + 1].timer.mtime
  {
    hide Execution; hide HighHalf; hide At;
    ExecutionShape(cfg, loop, p, r, path, lens);
    Attempt(cfg, loop, p, r, path, lens, j);
    Places(p);
    ClockGoesOn(cfg, loop, p, r, path, lens, 4 * j, 4 * j + 1);
    ClockGoesOn(cfg, loop, p, r, path, lens, 4 * j + 1, 4 * j + 2);
    ClockGoesOn(cfg, loop, p, r, path, lens, 4 * j + 2, |lens|);
    SameHigh(path[4 * j].timer.mtime, path[4 * j + 1].timer.mtime, path[4 * j + 2].timer.mtime);
  }

  /** How many steps of the run go by before the k-th instruction of the loop. */
  function Offset(lens: seq<nat>, k: nat): nat
    requires k <= |lens|
  {
    if k == 0 then 0 else Offset(lens, k - 1) + 1 + lens[k - 1]
  }

  /** The execution is a run of the machine. */
  lemma {:induction false} OnTheRun(cfg: Config, loop: Loop, p: Word, r: Names, path: seq<State>, lens: seq<nat>,
      k: nat)
    requires Execution(cfg, loop, p, r, path, lens) && k <= |lens|
    ensures Run(cfg, loop, path[0], Offset(lens, k)) == Go(path[k])
    decreases k
  {
    hide Steps.Step; hide InPlace; hide Leg; hide At; hide Steps.Run;
    if k == 0 {
      RunNone(cfg, loop, path[0]);
    } else {
      OnTheRun(cfg, loop, p, r, path, lens, k - 1);
      assert Onward(cfg, loop, p, r, path[k - 1], lens[k - 1], path[k]);
      LegRuns(cfg, loop, r, path[k - 1], lens[k - 1], path[k]);
      RunSplit(cfg, loop, path[0], Offset(lens, k - 1), 1 + lens[k - 1]);
    }
  }

  lemma LegRuns(cfg: Config, loop: Loop, r: Names, s: State, n: nat, t: State)
    requires Leg(cfg, loop, r, s, n, t)
    ensures Run(cfg, loop, s, 1 + n) == Go(t)
  {
    hide Steps.Step; hide NoMeddling; hide History;
  }

  /** So the value read is one that mtime has held during the call. */
  lemma ReadMtimeIsTrue(cfg: Config, loop: Loop, p: Word, r: Names, path: seq<State>, lens: seq<nat>)
    requires r.Valid() && !Misaligned(cfg, p) && Execution(cfg, loop, p, r, path, lens)
    requires path[|lens|].pc == At(p, 4) && path[|lens|].timer.mtime < WORD * WORD
    ensures Run(cfg, loop, path[0], Offset(lens, |lens|)) == Go(path[|lens|]) && |lens| >= 4
    ensures Pair(path[|lens|], r) == Run(cfg, loop, path[0], Offset(lens, |lens| - 3)).s.timer.mtime
  {
    hide Execution; hide HighHalf; hide At; hide Reads; hide Clocklike; hide Steps.Run; hide Returns; hide Offset;
    ReadMtimeOnCpu(cfg, loop, p, r, path, lens);
    OnTheRun(cfg, loop, p, r, path, lens, |lens|);
    OnTheRun(cfg, loop, p, r, path, lens, |lens| - 3);
  }

  // ----- With interrupts off -----

  /** The code stays in place for n steps. */
  predicate StaysInPlace(cfg: Config, loop: Loop, s: State, p: Word, r: Names, n: nat)
    decreases n
  {
    n == 0 || (InPlace(cfg, loop, s, p, r) &&
      var e := Step(cfg, loop, s); e.halt == Running ==> StaysInPlace(cfg, loop, e.s, p, r, n - 1))
  }

  /** A step of the loop is then a leg without a detour. */
  lemma MaskedLeg(cfg: Config, loop: Loop, p: Word, r: Names, k: nat, s: State)
    requires r.Valid() && k < 4 && s.pc == At(p, k) && Masked(s) && !Misaligned(cfg, p) && InPlace(cfg, loop, s, p, r)
    ensures var e := Step(cfg, loop, s);
            e.halt == Running && Masked(e.s) && Onward(cfg, loop, p, r, s, 0, e.s)
            && e.s.timer.mtime == s.timer.mtime + Beat(loop)
  {
    hide Isa.Perform; hide At; hide HighHalf; hide InPlace; hide PyInt.Bit;
    var i := Code(r)[k];
    InPlaceFetches(cfg, loop, s, p, r, k);
    var raw := DecodeFetched(Fetch(cfg, loop, s)).raw;
    hide Steps.DecodeFetched; hide Steps.Fetch; hide Steps.Execute;
    NextAt(p, k);
    Places(p);
    MaskedPerforms(cfg, p, r, k, s, raw);
    NothingFetched(cfg, s, Fetch(cfg, loop, s));
    ExecuteDecoded(cfg, s, Fetch(cfg, loop, s));
    MaskedFinish(loop, Perform(cfg, s, i, raw, 4).s);
    NoDetour(cfg, loop, Step(cfg, loop, s).s);
  }

  lemma InPlaceFetches(cfg: Config, loop: Loop, s: State, p: Word, r: Names, k: nat)
    requires k < 4 && s.pc == At(p, k) && InPlace(cfg, loop, s, p, r)
    ensures Fetches(cfg, loop, s, Code(r)[k])
  {
    hide Fetches; hide At;
  }

  lemma MaskedPerforms(cfg: Config, p: Word, r: Names, k: nat, s: State, raw: Word)
    requires r.Valid() && k < 4 && s.pc == At(p, k) && Masked(s) && !Misaligned(cfg, p)
    ensures var e := Perform(cfg, s, Code(r)[k], raw, 4); e.halt == Running && Masked(e.s) && e.s.timer == s.timer
  {
    hide Isa.Perform; hide At; hide HighHalf; hide PyInt.Bit;
    NextAt(p, k);
    if k == 0 { CsrrReadsTime(cfg, s, r.hi1, TIME_HI, raw, 4); }
    else if k == 1 { CsrrReadsTime(cfg, s, r.lo, TIME_LO, raw, 4); }
    else if k == 2 { CsrrReadsTime(cfg, s, r.hi2, TIME_HI, raw, 4); }
    else { BranchBack(cfg, s, r.hi1, r.hi2, raw); }
  }

  lemma MaskedFinish(loop: Loop, s: State)
    requires Masked(s)
    ensures var e := Finish(loop.Ticks(), Go(s));
            e.halt == Running && Masked(e.s) && e.s.pc == s.nextPc && e.s.timer.mtime == s.timer.mtime + Beat(loop)
  {
    hide PyInt.Bit; hide Isa.On; hide Isa.Off;
  }

  lemma NoDetour(cfg: Config, loop: Loop, s: State)
    ensures Undisturbed(cfg, loop, s, 0) && Run(cfg, loop, s, 0).s == s
  {
  }

  lemma MaskedNext(cfg: Config, loop: Loop, p: Word, r: Names, k: nat, s: State)
    requires r.Valid() && k < 4 && s.pc == At(p, k) && Masked(s) && !Misaligned(cfg, p) && InPlace(cfg, loop, s, p, r)
    ensures var e := Step(cfg, loop, s);
            && e.halt == Running && Masked(e.s) && AfterLeg(cfg, p, r, k, s, e.s)
            && e.s.timer.mtime == s.timer.mtime + Beat(loop)
  {
    hide Steps.Step; hide At; hide HighHalf; hide Leg; hide InPlace; hide AfterLeg;
    MaskedLeg(cfg, loop, p, r, k, s);
    LegEffect(cfg, loop, p, r, k, s, 0, Step(cfg, loop, s).s);
  }

  /** What one attempt leaves. */
  predicate AfterAttempt(loop: Loop, p: Word, r: Names, s: State, t: State) {
    var m, beat := s.timer.mtime, Beat(loop);
    && Masked(t) && t.timer.mtime == m + 4 * beat
    && t.x[r.hi1] == HighHalf(m) && t.x[r.lo] == (m + beat) % WORD && t.x[r.hi2] == HighHalf(m + 2 * beat)
    && t.pc == if HighHalf(m) != HighHalf(m + 2 * beat) then p else At(p, 4)
  }

  lemma MaskedAttempt(cfg: Config, loop: Loop, p: Word, r: Names, s: State)
    requires r.Valid() && s.pc == p && Masked(s) && !Misaligned(cfg, p) && StaysInPlace(cfg, loop, s, p, r, 4)
    ensures var mid, end := Run(cfg, loop, s, 1), Run(cfg, loop, s, 4);
            && mid.halt == Running && mid.s.timer.mtime == s.timer.mtime + Beat(loop)
            && end.halt == Running && AfterAttempt(loop, p, r, s, end.s)
  {
    hide Steps.Step; hide InPlace; hide At; hide HighHalf; hide Masked; hide Beat;
    NextAt(p, 0);
    MaskedNext(cfg, loop, p, r, 0, s);
    var s1 := Step(cfg, loop, s).s;
    MaskedNext(cfg, loop, p, r, 1, s1);
    var s2 := Step(cfg, loop, s1).s;
    MaskedNext(cfg, loop, p, r, 2, s2);
    var s3 := Step(cfg, loop, s2).s;
    MaskedNext(cfg, loop, p, r, 3, s3);
    var s4 := Step(cfg, loop, s3).s;
    hide Steps.Run;
    RunOne(cfg, loop, s, 0);
    RunOne(cfg, loop, s, 3);
    RunOne(cfg, loop, s1, 2);
    RunOne(cfg, loop, s2, 1);
    RunOne(cfg, loop, s3, 0);
    RunNone(cfg, loop, s1);
    RunNone(cfg, loop, s4);
  }

  lemma RunNone(cfg: Config, loop: Loop, s: State)
    ensures Run(cfg, loop, s, 0) == Go(s)
  {
  }

  /** With interrupts off the loop takes one attempt, or two if the high half changes in the first. */
  lemma MaskedReadMtime(cfg: Config, loop: Loop, p: Word, r: Names, s: State)
    requires r.Valid() && s.pc == p && Masked(s) && !Misaligned(cfg, p) && StaysInPlace(cfg, loop, s, p, r, 8)
    requires s.timer.mtime + 8 < WORD * WORD
    ensures var m := s.timer.mtime;
            var n := if HighHalf(m) == HighHalf(m + 2 * Beat(loop)) then 4 else 8;
            var e, mid := Run(cfg, loop, s, n), Run(cfg, loop, s, n - 3);
            && e.halt == Running && e.s.pc == At(p, 4) && mid.halt == Running
            && Pair(e.s, r) == mid.s.timer.mtime == m + (n - 3) * Beat(loop)
  {
    hide Steps.Run; hide HighHalf; hide At; hide Masked; hide StaysInPlace;
    var m, beat := s.timer.mtime, Beat(loop);
    StaysLess(cfg, loop, s, p, r, 4, 4);
    MaskedAttempt(cfg, loop, p, r, s);
    if HighHalf(m) == HighHalf(m + 2 * beat) {
      SameHigh(m, m + beat, m + 2 * beat);
    } else {
      var t := Run(cfg, loop, s, 4).s;
      StaysOn(cfg, loop, s, p, r, 4, 4);
      MaskedAttempt(cfg, loop, p, r, t);
      RunSplit(cfg, loop, s, 4, 4);
      RunSplit(cfg, loop, s, 4, 1);
      NotAgain(m, beat);
      SameHigh(m + 4 * beat, m + 5 * beat, m + 6 * beat);
    }
  }

  /** A high half that has just changed does not change again for a while. */
  lemma NotAgain(m: nat, beat: nat)
    requires beat <= 1 && m + 8 < WORD * WORD && HighHalf(m) != HighHalf(m + 2 * beat)
    ensures HighHalf(m + 4 * beat) == HighHalf(m + 6 * beat)
  {
    Arithmetic.HighHalf(m + 8, WORD);
  }

  lemma {:induction false} StaysOn(cfg: Config, loop: Loop, s: State, p: Word, r: Names, n: nat, m: nat)
    requires StaysInPlace(cfg, loop, s, p, r, n + m) && Run(cfg, loop, s, n).halt == Running
    ensures StaysInPlace(cfg, loop, Run(cfg, loop, s, n).s, p, r, m)
    decreases n
  {
    hide Steps.Step; hide InPlace;
    if n > 0 { StaysOn(cfg, loop, Step(cfg, loop, s).s, p, r, n - 1, m); }
  }

  lemma {:induction false} StaysLess(cfg: Config, loop: Loop, s: State, p: Word, r: Names, n: nat, m: nat)
    requires StaysInPlace(cfg, loop, s, p, r, n + m)
    ensures StaysInPlace(cfg, loop, s, p, r, n)
    decreases n
  {
    hide Steps.Step; hide InPlace;
    if n > 0 {
      var e := Step(cfg, loop, s);
      if e.halt == Running { StaysLess(cfg, loop, e.s, p, r, n - 1, m); }
    }
  }
}
