/** The two-phase write of mtime. Both timer interfaces, the CSRs and the memory-mapped registers, latch
    the two halves separately and set the clock only when both have been written. */
module Clock {
  import opened PyInt

  /** Halves written so far, whether each is still waiting for the other, and the time. */
  datatype Latch = Latch(lo: Word, hi: Word, loSet: bool, hiSet: bool, now: nat)

  datatype Event = Lo(v: Word) | Hi(v: Word) | Ticked

  function WriteHalf(l: Latch, low: bool, v: Word): Latch {
    var w := if low then l.(lo := v, loSet := true) else l.(hi := v, hiSet := true);
    if w.loSet && w.hiSet then w.(now := w.hi * WORD + w.lo, loSet := false, hiSet := false) else w
  }

  function Happen(l: Latch, e: Event): Latch {
    match e
    case Lo(v) => WriteHalf(l, true, v)
    case Hi(v) => WriteHalf(l, false, v)
    case Ticked => l.(now := l.now + 1)
  }

  function Play(l: Latch, h: seq<Event>): Latch {
    if h == [] then l else Happen(Play(l, h[..|h| - 1]), h[|h| - 1])
  }

  // ----- What the time should be, read off the history -----

  /** The last event of `h` is a half-write, and the other half has been written since the last jump. */
  predicate Completes(h: seq<Event>)
    decreases |h|, 0
  {
    h != [] &&
    var n := |h| - 1;
    match h[n]
    case Lo(_) => exists k :: Since(h[..n]) <= k < n && h[k].Hi?
    case Hi(_) => exists k :: Since(h[..n]) <= k < n && h[k].Lo?
    case Ticked => false
  }

  /** The number of events up to and including the last jump. */
  function Since(h: seq<Event>): (n: nat)
    ensures n <= |h|
    decreases |h|, 1
  {
    if h == [] then 0 else if Completes(h) then |h| else Since(h[..|h| - 1])
  }

  /** The latest value written to a half at or after event `from`. */
  function LatestLo(h: seq<Event>, from: nat): Word {
    if |h| <= from then 0 else if h[|h| - 1].Lo? then h[|h| - 1].v else LatestLo(h[..|h| - 1], from)
  }

  function LatestHi(h: seq<Event>, from: nat): Word {
    if |h| <= from then 0 else if h[|h| - 1].Hi? then h[|h| - 1].v else LatestHi(h[..|h| - 1], from)
  }

  /** The time jumps when a pair is complete, to the latest halves since the jump before; otherwise it
      advances by one per tick. */
  function Time(start: nat, h: seq<Event>): nat {
    if h == [] then start
    else
      var p := h[..|h| - 1];
      if Completes(h) then LatestHi(h, Since(p)) * WORD + LatestLo(h, Since(p))
      else Time(start, p) + if h[|h| - 1].Ticked? then 1 else 0
  }

  predicate WroteLo(h: seq<Event>, from: nat) { exists k :: from <= k < |h| && h[k].Lo? }

  predicate WroteHi(h: seq<Event>, from: nat) { exists k :: from <= k < |h| && h[k].Hi? }

  // ----- The latch does just that -----

  /** The latch after `h`, in terms of the history. */
  predicate Accounts(l: Latch, start: nat, h: seq<Event>) {
    var n := Since(h);
    && l.now == Time(start, h)
    && l.loSet == WroteLo(h, n) && l.hiSet == WroteHi(h, n)
    && !(l.loSet && l.hiSet)
    && (l.loSet ==> l.lo == LatestLo(h, n)) && (l.hiSet ==> l.hi == LatestHi(h, n))
  }

  lemma {:induction false} TwoPhaseCommit(l: Latch, h: seq<Event>)
    requires !l.loSet && !l.hiSet
    ensures Accounts(Play(l, h), l.now, h)
    decreases |h|
  {
    if h != [] {
      var p := h[..|h| - 1];
      TwoPhaseCommit(l, p);
      OneMoreEvent(Play(l, p), l.now, p, h[|h| - 1]);
      assert p + [h[|h| - 1]] == h;
    }
  }

  lemma OneMoreEvent(l: Latch, start: nat, p: seq<Event>, e: Event)
    requires Accounts(l, start, p)
    ensures Accounts(Happen(l, e), start, p + [e])
  {
    var h := p + [e];
    assert h[..|h| - 1] == p;
    Wrote(p, e, Since(p));
    if e.Lo? { assert Completes(h) == WroteHi(p, Since(p)); }
    if e.Hi? { assert Completes(h) == WroteLo(p, Since(p)); }
  }

  lemma Wrote(p: seq<Event>, e: Event, from: nat)
    requires from <= |p|
    ensures WroteLo(p + [e], from) == (e.Lo? || WroteLo(p, from))
    ensures WroteHi(p + [e], from) == (e.Hi? || WroteHi(p, from))
  {
    var h := p + [e];
    assert h[|p|] == e && forall k | 0 <= k < |p| :: h[k] == p[k];
  }

  /** So the time never moves but by a tick or by a completing write. */
  lemma NoOtherJumps(l: Latch, h: seq<Event>, e: Event)
    requires !l.loSet && !l.hiSet && !Completes(h + [e])
    ensures Play(l, h + [e]).now == Play(l, h).now + if e.Ticked? then 1 else 0
  {
    TwoPhaseCommit(l, h);
    TwoPhaseCommit(l, h + [e]);
    assert (h + [e])[..|h|] == h;
  }

  predicate OnlyTicks(h: seq<Event>) { forall e | e in h :: e.Ticked? }

  // ----- Halves that are not pending -----

  /** The same but for halves that are not pending, whose values no longer matter. */
  predicate SameLive(a: Latch, b: Latch) {
    && a.now == b.now && a.loSet == b.loSet && a.hiSet == b.hiSet
    && (a.loSet ==> a.lo == b.lo) && (a.hiSet ==> a.hi == b.hi)
  }

  /** They never do. */
  lemma {:induction false} PlayLive(a: Latch, b: Latch, h: seq<Event>)
    requires SameLive(a, b)
    ensures SameLive(Play(a, h), Play(b, h))
    decreases |h|
  {
    if h != [] { PlayLive(a, b, h[..|h| - 1]); }
  }

  lemma LiveTrans(a: Latch, b: Latch, c: Latch)
    requires SameLive(a, b) && SameLive(b, c)
    ensures SameLive(a, c)
  {
  }

  lemma {:induction false} AccountsMore(l: Latch, start: nat, h: seq<Event>, ev: seq<Event>)
    requires Accounts(l, start, h)
    ensures Accounts(Play(l, ev), start, h + ev)
    decreases |ev|
  {
    if ev == [] {
      assert h + ev == h;
    } else {
      var p, e := ev[..|ev| - 1], ev[|ev| - 1];
      AccountsMore(l, start, h, p);
      OneMoreEvent(Play(l, p), start, h + p, e);
      assert h + p + [e] == h + ev;
    }
  }

  /** The history determines all of the latch that matters. */
  lemma AccountsUnique(a: Latch, b: Latch, start: nat, h: seq<Event>)
    requires Accounts(b, start, h)
    ensures Accounts(a, start, h) <==> SameLive(a, b)
  {
  }
}
