/** The packet layer of the GDB remote serial protocol: `$data#checksum`, with escapes, over a stream
    of characters. */
module Gdb {
  import opened PyInt
  import opened Memory

  /** A character of a Python string: a code point. */
  type Char = c: int | 0 <= c < 0x11_0000

  type Text = seq<Char>

  const HASH: Char := 0x23
  const DOLLAR: Char := 0x24
  const STAR: Char := 0x2A
  const PLUS: Char := 0x2B
  const MINUS: Char := 0x2D
  const BRACE: Char := 0x7D
  const ETX: Char := 0x03

  // ----- Specification -----

  function Sum(s: Text): nat { if s == [] then 0 else Sum(s[..|s| - 1]) + s[|s| - 1] }

  function Checksum(s: Text): nat { Sum(s) % 256 }

  predicate Special(c: Char) { c == HASH || c == DOLLAR || c == BRACE || c == STAR }

  /** `chr(ord(c) ^ 0x20)`; see `FlipIsXor`. */
  function Flip(c: Char): Char {
    if c / 32 % 2 == 1 then c - 32 else c + 32
  }

  function EscapeChar(c: Char): Text { if Special(c) then [BRACE, Flip(c)] else [c] }

  function Escape(s: Text): Text {
    if s == [] then [] else Escape(s[..|s| - 1]) + EscapeChar(s[|s| - 1])
  }

  /** A brace stands for the character after it, flipped; a brace at the very end stands for itself. */
  function Unescape(s: Text): Text {
    if s == [] then []
    else if s[0] == BRACE && |s| > 1 then [Flip(s[1])] + Unescape(s[2..])
    else [s[0]] + Unescape(s[1..])
  }

  function HexDigit(d: int): Char
    requires 0 <= d < 16
  {
    if d < 10 then 0x30 + d else 0x61 + d - 10
  }

  function Hex(n: int): Text
    requires 0 <= n < 256
  {
    [HexDigit(n / 16), HexDigit(n % 16)]
  }

  function Encode(s: Text): Text { [DOLLAR] + Escape(s) + [HASH] + Hex(Checksum(Escape(s))) }

  function DigitValue(c: Char): Option<int> {
    if 0x30 <= c <= 0x39 then Some(c - 0x30)
    else if 0x61 <= c <= 0x66 then Some(c - 0x61 + 10)
    else if 0x41 <= c <= 0x46 then Some(c - 0x41 + 10)
    else None
  }

  predicate Space(c: Char) { c == 0x20 || 0x09 <= c <= 0x0D }

  /** Python's `int(s, 16)` on at most two ASCII characters: two digits, or one with a blank on either
      side or a sign before it. */
  function ParseHex(s: Text): Option<int>
    requires |s| <= 2
  {
    if s == [] then None
    else
      var a := DigitValue(s[0]);
      if |s| == 1 then a
      else
        var b := DigitValue(s[1]);
        if a.Some? && b.Some? then Some(16 * a.value + b.value)
        else if a.Some? && Space(s[1]) then a
        else if b.Some? && (Space(s[0]) || s[0] == PLUS) then b
        else if b.Some? && s[0] == MINUS then Some(-b.value)
        else None
  }

  /** Position of the first hash, or the length if there is none. */
  function FindHash(s: Text): (k: nat)
    ensures k <= |s| && (k < |s| ==> s[k] == HASH) && forall j | 0 <= j < k :: s[j] != HASH
  {
    if s == [] || s[0] == HASH then 0 else 1 + FindHash(s[1..])
  }

  function First(s: Text, n: nat): Text { if |s| <= n then s else s[..n] }

  function Decode(packet: Text): Option<Text> {
    if packet == [] || packet[0] != DOLLAR then None
    else
      var k := FindHash(packet[1..]);
      if k == |packet| - 1 then None
      else
        var data, sum := packet[1..][..k], packet[1..][k + 1..];
        if ParseHex(First(sum, 2)) != Some(Checksum(data)) then None else Some(Unescape(data))
  }

  // ----- The code -----

  lemma {:induction false} XorBit(x: int, k: nat)
    ensures Xor(x, Pow2(k)) == if Bit(x, Pow2(k)) == 1 then x - Pow2(k) else x + Pow2(k)
    decreases k
  {
    Unfold(EXCL, x, Pow2(k));
    if k == 0 {
      XorZero(x / 2);
    } else {
      XorBit(x / 2, k - 1);
      HalveModulus(x, Pow2(k - 1));
    }
  }

  lemma {:induction false} XorZero(x: int)
    ensures Xor(x, 0) == x
    decreases Magnitude(x)
  {
    if !(x == 0 || x == -1) { XorZero(x / 2); }
  }

  lemma FlipIsXor(c: Char)
    ensures Flip(c) == Xor(c, 0x20)
  {
    assert Pow2(5) == 0x20;
    XorBit(c, 5);
  }

  lemma UnescapeStep(data: Text, i: nat)
    requires i < |data|
    ensures Unescape(data[i..])
         == if data[i] == BRACE && i + 1 < |data| then [Flip(data[i + 1])] + Unescape(data[i + 2..])
            else [data[i]] + Unescape(data[i + 1..])
  {
    hide Flip;
    assert data[i..][1..] == data[i + 1..];
    if i + 1 < |data| { assert data[i..][2..] == data[i + 2..]; }
  }

  lemma Associates(a: Text, b: Text, c: Text)
    ensures a + (b + c) == (a + b) + c
  {
  }

  class GDBPacket {
    static method ChecksumOf(data: Text) returns (sum: nat)
      ensures sum == Checksum(data)
    {
      var total: nat := 0;
      for i := 0 to |data|
        invariant total == Sum(data[..i])
      {
        assert data[..i + 1][..i] == data[..i];
        total := total + data[i];
      }
      assert data[..|data|] == data;
      assert Pow2(8) == 256;
      MaskIsMod(total, 8);
      return And(total, 0xFF);
    }

    static method EscapeText(data: Text) returns (result: Text)
      ensures result == Escape(data)
    {
      result := [];
      for i := 0 to |data|
        invariant result == Escape(data[..i])
      {
        var c := data[i];
        FlipIsXor(c);
        assert data[..i + 1][..i] == data[..i];
        if c in [HASH, DOLLAR, BRACE, STAR] {
          result := result + [BRACE] + [Xor(c, 0x20)];
        } else {
          result := result + [c];
        }
      }
      assert data[..|data|] == data;
    }

    static method UnescapeText(data: Text) returns (result: Text)
      ensures result == Unescape(data)
    {
      hide Flip; hide PyInt.Xor;
      result := [];
      var i := 0;
      while i < |data|
        invariant i <= |data| && result + Unescape(data[i..]) == Unescape(data)
      {
        UnescapeStep(data, i);
        if data[i] == BRACE && i + 1 < |data| {
          FlipIsXor(data[i + 1]);
          Associates(result, [Flip(data[i + 1])], Unescape(data[i + 2..]));
          result := result + [Xor(data[i + 1], 0x20)];
          i := i + 2;
        } else {
          Associates(result, [data[i]], Unescape(data[i + 1..]));
          result := result + [data[i]];
          i := i + 1;
        }
      }
      assert data[i..] == [];
    }

    static method EncodePacket(data: Text) returns (packet: Text)
      ensures packet == Encode(data)
    {
      var escaped := EscapeText(data);
      var cs := ChecksumOf(escaped);
      return [DOLLAR] + escaped + [HASH] + Hex(cs);
    }

    static method DecodePacket(packet: Text) returns (r: Option<Text>)
      ensures r == Decode(packet)
    {
      if !([DOLLAR] <= packet) { return None; }
      if HASH !in packet {
        assert forall j | 0 <= j < |packet| - 1 :: packet[1..][j] in packet;
        return None;
      }
      var k := FindHash(packet[1..]);
      if k == |packet| - 1 { HashIsLater(packet); }
      var data, checksumStr := packet[1..][..k], packet[1..][k + 1..];
      var expectedCs := ParseHex(First(checksumStr, 2));
      if expectedCs.None? { return None; }
      var actualCs := ChecksumOf(data);
      if expectedCs.value != actualCs { return None; }
      var text := UnescapeText(data);
      return Some(text);
    }
  }

  lemma HashIsLater(packet: Text)
    requires packet != [] && packet[0] == DOLLAR && HASH in packet
    ensures FindHash(packet[1..]) < |packet| - 1
  {
    var j :| 0 <= j < |packet| && packet[j] == HASH;
    assert packet[1..][j - 1] == HASH;
  }

  // ----- decode undoes encode -----

  lemma FlipTwice(c: Char)
    ensures Flip(Flip(c)) == c
  {
  }

  lemma {:induction false} UnescapeChar(c: Char, rest: Text)
    ensures Unescape(EscapeChar(c) + rest) == [c] + Unescape(rest)
  {
    FlipTwice(c);
    var t := EscapeChar(c) + rest;
    if Special(c) { assert t[2..] == rest; } else { assert t[1..] == rest; }
  }

  lemma {:induction false} UnescapeEscape(s: Text, rest: Text)
    ensures Unescape(Escape(s) + rest) == s + Unescape(rest)
    decreases |s|
  {
    if s == [] {
      assert Escape(s) + rest == rest;
    } else {
      hide Unescape; hide EscapeChar;
      var p, c := s[..|s| - 1], s[|s| - 1];
      Associates(Escape(p), EscapeChar(c), rest);
      UnescapeEscape(p, EscapeChar(c) + rest);
      UnescapeChar(c, rest);
      Associates(p, [c], Unescape(rest));
      assert p + [c] == s;
    }
  }

  lemma UnescapeAll(s: Text)
    ensures Unescape(Escape(s)) == s
  {
    UnescapeEscape(s, []);
    assert Escape(s) + [] == Escape(s) && s + [] == s;
  }

  predicate Ascii(s: Text) { forall c | c in s :: c < 128 }

  /** Free of the characters that delimit packets; `etx` and `ascii` tell of the others. */
  predicate Shape(s: Text, etx: bool, ascii: bool) {
    HASH !in s && DOLLAR !in s && STAR !in s && (ETX in s <==> etx) && (Ascii(s) <==> ascii)
  }

  lemma ShapeChar(c: Char)
    ensures Shape(EscapeChar(c), c == ETX || c == HASH, c < 128)
  {
    if !Special(c) { assert c in [c]; } else { assert ETX == Flip(HASH); }
  }

  lemma ShapeJoin(a: Text, b: Text, etx: bool, etx': bool, ascii: bool, ascii': bool)
    requires Shape(a, etx, ascii) && Shape(b, etx', ascii')
    ensures Shape(a + b, etx || etx', ascii && ascii')
  {
    assert forall c :: c in a + b <==> c in a || c in b;
  }

  /** What the characters of an escaped string can be. */
  lemma {:induction false} EscapedChars(s: Text)
    ensures Shape(Escape(s), ETX in s || HASH in s, Ascii(s))
    decreases |s|
  {
    hide Shape; hide EscapeChar;
    if s == [] {
      EmptyShape();
    } else {
      var p, c := s[..|s| - 1], s[|s| - 1];
      EscapedChars(p);
      ShapeChar(c);
      ShapeJoin(Escape(p), EscapeChar(c), ETX in p || HASH in p, c == ETX || c == HASH, Ascii(p), c < 128);
      assert s == p + [c];
      assert forall x :: x in s <==> x in p || x == c;
      assert c in s && forall x | x in p :: x in s;
      assert Ascii(s) == (Ascii(p) && c < 128);
      assert (ETX in s || HASH in s) == ((ETX in p || HASH in p) || (c == ETX || c == HASH));
    }
  }

  /** Nothing else is escaped: the string grows by one character for each hash, dollar, brace and star. */
  function Grown(s: Text): nat {
    if s == [] then 0
    else
      var c := s[|s| - 1];
      Grown(s[..|s| - 1]) + if c == 0x23 || c == 0x24 || c == 0x7D || c == 0x2A then 2 else 1
  }

  lemma {:induction false} EscapedLength(s: Text)
    ensures |Escape(s)| == Grown(s)
    decreases |s|
  {
    if s != [] { EscapedLength(s[..|s| - 1]); }
  }

  /** The checksum of a text is that of its parts, modulo 256, and that of a character its code. */
  lemma ChecksumAdds(a: Text, b: Text)
    ensures Checksum(a + b) == (Checksum(a) + Checksum(b)) % 256
    ensures |b| == 1 ==> Checksum(b) == b[0] % 256
  {
    SumAdds(a, b);
    var x, y := Sum(a), Sum(b);
    var r := x % 256 + y % 256;
    EuclidUnique(x + y, 256, x / 256 + y / 256 + r / 256, r % 256);
    if |b| == 1 { assert b[..0] == []; }
  }

  lemma {:induction false} SumAdds(a: Text, b: Text)
    ensures Sum(a + b) == Sum(a) + Sum(b)
    decreases |b|
  {
    if b == [] {
      assert a + b == a;
    } else {
      assert (a + b)[..|a + b| - 1] == a + b[..|b| - 1];
      SumAdds(a, b[..|b| - 1]);
    }
  }

  /** The digits of a checksum are lower-case. */
  lemma HexDigits(n: int)
    requires 0 <= n < 256
    ensures Hex(n) == ["0123456789abcdef"[n / 16] as int, "0123456789abcdef"[n % 16] as int]
  {
  }

  /** Digits of either case are read. */
  lemma DigitsRead(d: int)
    requires 0 <= d < 16
    ensures DigitValue("0123456789abcdef"[d] as int) == DigitValue("0123456789ABCDEF"[d] as int) == Some(d)
  {
  }

  /** A text without braces stands for itself, and so does a brace at its end. */
  lemma {:induction false} LoneBrace(s: Text)
    requires BRACE !in s
    ensures Unescape(s) == s && Unescape(s + [BRACE]) == s + [BRACE]
    decreases |s|
  {
    if s == [] {
      assert s + [BRACE] == [BRACE];
    } else {
      assert s[0] in s && forall c | c in s[1..] :: c in s;
      LoneBrace(s[1..]);
      assert (s + [BRACE])[1..] == s[1..] + [BRACE];
    }
  }

  /** A checksum with a minus sign is not positive, so that it matches no other than zero. */
  lemma NoNegativeSum(sum: Text, data: Text)
    requires |sum| == 2 && sum[0] == MINUS && ParseHex(sum) == Some(Checksum(data))
    ensures Checksum(data) == 0
  {
  }

  lemma EmptyShape()
    ensures Shape([], false, true)
  {
  }

  lemma HexBack(n: int)
    requires 0 <= n < 256
    ensures ParseHex(Hex(n)) == Some(n)
  {
  }

  lemma FindFirst(a: Text, b: Text)
    requires HASH !in a
    ensures FindHash(a + [HASH] + b) == |a|
  {
    var s := a + [HASH] + b;
    assert s[|a|] == HASH && forall j | 0 <= j < |a| :: s[j] == a[j] && a[j] in a;
  }

  /** A frame with data free of hashes, taken apart. */
  lemma DecodeFrame(data: Text, sum: Text)
    requires HASH !in data && |sum| <= 2
    ensures var r := Decode([DOLLAR] + data + [HASH] + sum);
            r == if ParseHex(sum) == Some(Checksum(data)) then Some(Unescape(data)) else None
  {
    var packet := [DOLLAR] + data + [HASH] + sum;
    assert packet[1..] == data + [HASH] + sum;
    FindFirst(data, sum);
    assert packet[1..][..|data|] == data && packet[1..][|data| + 1..] == sum;
  }

  /** decode(encode(s)) is s, for every string. */
  lemma RoundTrip(s: Text)
    ensures Decode(Encode(s)) == Some(s)
  {
    var data := Escape(s);
    EscapedChars(s);
    DecodeFrame(data, Hex(Checksum(data)));
    HexBack(Checksum(data));
    UnescapeAll(s);
  }

  // ----- Framing -----

  /** How a call of `recv_packet` ends: with a string, which is "interrupt" for Ctrl+C; with None, when the
      connection closes; with an exception, at a character that is not ASCII. */
  datatype Received = Text(s: Text) | Closed | Undecodable

  /** How it ends, how many characters it has read, and the acknowledgements it has sent. */
  datatype Outcome = Outcome(r: Received, read: nat, sent: Text)

  const INTERRUPT: Text := [0x69, 0x6E, 0x74, 0x65, 0x72, 0x72, 0x75, 0x70, 0x74]

  function After(n: nat, acks: Text, o: Outcome): Outcome { Outcome(o.r, n + o.read, acks + o.sent) }

  /** After n characters and some acknowledgements, `p` is what is left to happen of `o`. */
  predicate Leaves(o: Outcome, n: nat, acks: Text, p: Outcome) { o == After(n, acks, p) }

  lemma LeavesAfter(o: Outcome, n: nat, acks: Text, m: nat, more: Text, p: Outcome)
    requires Leaves(o, n, acks, After(m, more, p))
    ensures Leaves(o, n + m, acks + more, p) && acks + [] == acks
  {
  }

  lemma StartLeaves(o: Outcome)
    ensures Leaves(o, 0, [], o)
  {
  }

  lemma EndLeaves(o: Outcome, n: nat, acks: Text, p: Outcome)
    requires Leaves(o, n, acks, p)
    ensures o.r == p.r && o.read == n + p.read && o.sent == acks + p.sent && acks + [] == acks
  {
  }

  /** What `recv_packet` does with the characters still to come. `buffer` is the packet so far, if it is
      inside one. */
  function Recv(stream: Text, buffer: Option<Text>): Outcome {
    if stream == [] then Outcome(Closed, 0, [])
    else
      var c, rest := stream[0], stream[1..];
      if c >= 128 then Outcome(Undecodable, 1, [])
      else if c == ETX then Outcome(Text(INTERRUPT), 1, [])
      else if c == DOLLAR then After(1, [], Recv(rest, Some([c])))
      else match buffer
           case None => After(1, [], Recv(rest, None))
           case Some(b) =>
             if c == HASH then After(1, [], RecvSum(rest, b + [c])) else After(1, [], Recv(rest, Some(b + [c])))
  }

  /** The hash has just been read; the checksum is next. */
  function RecvSum(rest: Text, packet: Text): Outcome
    decreases rest
  {
    var sum := First(rest, 2);
    if !Ascii(sum) then Outcome(Undecodable, |sum|, [])
    else match Decode(packet + sum)
         case Some(data) => Outcome(Text(data), |sum|, [PLUS])
         case None => After(|sum|, [MINUS], Recv(rest[|sum|..], None))
  }

  /** One character, as the loop handles it. */
  lemma RecvNext(stream: Text, buffer: Option<Text>)
    requires stream != [] && Ascii([stream[0]]) && stream[0] != ETX
    ensures var c, rest := stream[0], stream[1..];
            Recv(stream, buffer) ==
              After(1, [], if c == DOLLAR then Recv(rest, Some([c]))
                           else if buffer.None? then Recv(rest, None)
                           else if c == HASH then RecvSum(rest, buffer.value + [c])
                           else Recv(rest, Some(buffer.value + [c])))
  {
    hide RecvSum;
    assert stream[0] in [stream[0]];
  }

  lemma RecvLast(stream: Text, buffer: Option<Text>)
    ensures stream == [] ==> Recv(stream, buffer) == Outcome(Closed, 0, [])
    ensures stream != [] && !Ascii([stream[0]]) ==> Recv(stream, buffer) == Outcome(Undecodable, 1, [])
    ensures stream != [] && stream[0] == ETX ==> Recv(stream, buffer) == Outcome(Text(INTERRUPT), 1, [])
  {
    hide RecvSum;
  }

  /** The debugger's end of the connection: what it will send, as far as it has not been read, and what it
      has been sent. */
  class GDBStub {
    var incoming: Text
    var sent: Text
    var swBreakpoints: set<nat>
    var running: bool
    var singleStep: bool

    constructor (incoming: Text)
      ensures this.incoming == incoming && sent == [] && swBreakpoints == {} && !running && !singleStep
    {
      this.incoming := incoming;
      sent := [];
      swBreakpoints := {};
      running, singleStep := false, false;
    }

    method Receive(n: nat) returns (data: Text)
      modifies this`incoming
      ensures data == First(old(incoming), n) && incoming == old(incoming)[|data|..]
    {
      data := First(incoming, n);
      incoming := incoming[|data|..];
    }

    method ReceivePacket() returns (r: Received)
      modifies this`incoming, this`sent
      ensures var o := Recv(old(incoming), None);
              && o.read <= |old(incoming)|
              && r == o.r && incoming == old(incoming)[o.read..] && sent == old(sent) + o.sent
    {
      hide RecvSum; hide Recv; hide Decode; hide Leaves; hide Ascii;
      var buffer: Text, inPacket := [], false;
      ghost var all, o := incoming, Recv(incoming, None);
      ghost var n: nat, acks: Text := 0, [];
      StartLeaves(o);
      while true
        invariant n <= |all| && incoming == all[n..] && sent == old(sent) + acks
        invariant Leaves(o, n, acks, Recv(incoming, if inPacket then Some(buffer) else None))
        decreases |incoming|
      {
        ghost var rest, b := incoming, if inPacket then Some(buffer) else None;
        RecvLast(rest, b);
        var ch := Receive(1);
        if ch == [] { EndLeaves(o, n, acks, Recv(rest, b)); return Closed; }
        assert ch == [rest[0]] && incoming == rest[1..];
        if !Ascii(ch) { EndLeaves(o, n, acks, Recv(rest, b)); return Undecodable; }
        if ch[0] == ETX { EndLeaves(o, n, acks, Recv(rest, b)); return Text(INTERRUPT); }
        RecvNext(rest, b);
        ghost var p := if ch[0] == DOLLAR then Recv(incoming, Some(ch)) else if b.None? then Recv(incoming, None)
                       else if ch[0] == HASH then RecvSum(incoming, b.value + ch)
                       else Recv(incoming, Some(b.value + ch));
        LeavesAfter(o, n, acks, 1, [], p);
        n := n + 1;
        if !inPacket && ch[0] in [PLUS, MINUS] { continue; }
        if ch[0] == DOLLAR {
          inPacket := true;
          buffer := ch;
          continue;
        }
        if inPacket {
          buffer := buffer + ch;
          if ch[0] == HASH {
            rest := incoming;
            var done := EndPacket(buffer);
            if done.Some? { EndLeaves(o, n, acks, p); return done.value; }
            LeavesAfter(o, n, acks, |rest| - |incoming|, [MINUS], Recv(incoming, None));
            acks := acks + [MINUS];
            n := n + |rest| - |incoming|;
            buffer := [];
            inPacket := false;
          }
        }
      }
    }

    /** Reads the checksum and acknowledges the packet; None if it was not a good one. */
    method EndPacket(packet: Text) returns (done: Option<Received>)
      modifies this`incoming, this`sent
      ensures var o := RecvSum(old(incoming), packet);
              var n := |First(old(incoming), 2)|;
              && incoming == old(incoming)[n..]
              && match done
                 case Some(r) => o.r == r && o.read == n && sent == old(sent) + o.sent
                 case None => o == After(n, [MINUS], Recv(incoming, None)) && sent == old(sent) + [MINUS]
    {
      hide Decode; hide Recv;
      var sum := Receive(2);
      if !Ascii(sum) { return Some(Undecodable); }
      var data := GDBPacket.DecodePacket(packet + sum);
      if data.Some? {
        sent := sent + [PLUS];
        return Some(Text(data.value));
      } else {
        sent := sent + [MINUS];
        return None;
      }
    }

    /** `addr` is the parsed parameter, None if it does not parse. */
    method InsertBreakpoint(addr: Option<nat>) returns (ok: bool)
      modifies this`swBreakpoints
      ensures ok == addr.Some?
      ensures swBreakpoints == old(swBreakpoints) + if ok then {addr.value} else {}
    {
      if addr.None? { return false; }
      swBreakpoints := swBreakpoints + {addr.value};
      return true;
    }

    method RemoveBreakpoint(addr: Option<nat>) returns (ok: bool)
      modifies this`swBreakpoints
      ensures ok == addr.Some?
      ensures swBreakpoints == old(swBreakpoints) - if ok then {addr.value} else {}
    {
      if addr.None? { return false; }
      swBreakpoints := swBreakpoints - {addr.value};
      return true;
    }

    predicate IsBreakpoint(addr: nat)
      reads this`swBreakpoints
    {
      addr in swBreakpoints
    }
  }
}
