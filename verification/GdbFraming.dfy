/** What the receiver makes of packets in the midst of noise. */
module GdbFraming {
  import opened PyInt
  import opened Memory
  import opened Gdb

  /** Data that can stand in a packet: ASCII, no delimiters, no Ctrl+C. */
  predicate Plain(s: Text) { Ascii(s) && HASH !in s && DOLLAR !in s && ETX !in s }

  /** Characters between packets, a packet with a wrong checksum, a packet that breaks off. */
  datatype Noise = Junk(s: Text) | Bad(data: Text, sum: Text) | Cut(data: Text) {
    predicate Harmless() {
      match this
      case Junk(s) => Ascii(s) && DOLLAR !in s && ETX !in s
      case Bad(data, sum) => Plain(data) && |sum| == 2 && Ascii(sum) && ParseHex(sum) != Some(Checksum(data))
      case Cut(data) => Plain(data)
    }

    function Chars(): Text {
      match this
      case Junk(s) => s
      case Bad(data, sum) => [DOLLAR] + data + [HASH] + sum
      case Cut(data) => [DOLLAR] + data
    }
  }

  function Flat(zs: seq<Noise>): Text { if zs == [] then [] else zs[0].Chars() + Flat(zs[1..]) }

  /** A packet that breaks off is followed by the start of another. */
  predicate Harmless(zs: seq<Noise>, inside: bool) {
    zs != [] ==> zs[0].Harmless() && (inside ==> !zs[0].Junk?) && Harmless(zs[1..], zs[0].Cut?)
  }

  /** One NACK for each bad packet. */
  function Nacks(zs: seq<Noise>): Text {
    if zs == [] then [] else (if zs[0].Bad? then [MINUS] else []) + Nacks(zs[1..])
  }

  lemma Tail(a: Text, b: Text)
    requires a != []
    ensures (a + b)[0] == a[0] && (a + b)[1..] == a[1..] + b
    ensures Ascii(a) ==> Ascii([a[0]]) && Ascii(a[1..])
    ensures forall c | c !in a :: c !in a[1..] && a[0] != c
  {
    assert a[0] in a && forall c | c in a[1..] :: c in a;
  }

  lemma {:induction false} SkipJunk(j: Text, rest: Text)
    requires Junk(j).Harmless()
    ensures Recv(j + rest, None) == After(|j|, [], Recv(rest, None))
    decreases |j|
  {
    hide Recv; hide RecvSum;
    if j == [] {
      assert j + rest == rest;
    } else {
      Tail(j, rest);
      RecvNext(j + rest, None);
      SkipJunk(j[1..], rest);
    }
  }

  lemma {:induction false} ReadData(data: Text, rest: Text, b: Text)
    requires Plain(data)
    ensures Recv(data + rest, Some(b)) == After(|data|, [], Recv(rest, Some(b + data)))
    decreases |data|
  {
    hide Recv; hide RecvSum;
    if data == [] {
      assert data + rest == rest && b + data == b;
    } else {
      Tail(data, rest);
      RecvNext(data + rest, Some(b));
      ReadData(data[1..], rest, b + [data[0]]);
      assert b + [data[0]] + data[1..] == b + data;
    }
  }

  /** A packet that breaks off; whatever came before it is forgotten. */
  lemma StartPacket(data: Text, rest: Text, buffer: Option<Text>)
    requires Plain(data)
    ensures Recv([DOLLAR] + data + rest, buffer) == After(1 + |data|, [], Recv(rest, Some([DOLLAR] + data)))
  {
    hide Recv; hide RecvSum;
    var stream := [DOLLAR] + data + rest;
    assert stream[1..] == data + rest;
    RecvNext(stream, buffer);
    ReadData(data, rest, [DOLLAR]);
  }

  lemma EndPacket(data: Text, sum: Text, rest: Text)
    requires Plain(data) && |sum| == 2 && Ascii(sum)
    ensures RecvSum(sum + rest, [DOLLAR] + data + [HASH]) ==
            if ParseHex(sum) == Some(Checksum(data)) then Outcome(Gdb.Text(Unescape(data)), 2, [PLUS])
            else After(2, [MINUS], Recv(rest, None))
  {
    hide Recv; hide Decode; hide ParseHex; hide Unescape; hide Checksum;
    assert First(sum + rest, 2) == sum && (sum + rest)[2..] == rest;
    DecodeFrame(data, sum);
  }

  lemma Packet(data: Text, sum: Text, rest: Text, buffer: Option<Text>)
    requires Plain(data) && |sum| == 2 && Ascii(sum)
    ensures Recv([DOLLAR] + data + [HASH] + sum + rest, buffer) ==
            if ParseHex(sum) == Some(Checksum(data)) then Outcome(Gdb.Text(Unescape(data)), |data| + 4, [PLUS])
            else After(|data| + 4, [MINUS], Recv(rest, None))
  {
    hide Recv; hide RecvSum; hide ParseHex; hide Unescape; hide Checksum;
    var tail := [HASH] + sum + rest;
    assert [DOLLAR] + data + [HASH] + sum + rest == [DOLLAR] + data + tail;
    StartPacket(data, tail, buffer);
    RecvNext(tail, Some([DOLLAR] + data));
    assert tail[1..] == sum + rest;
    EndPacket(data, sum, rest);
  }

  lemma GoodPacket(s: Text, rest: Text, buffer: Option<Text>)
    requires Ascii(s) && HASH !in s && ETX !in s
    ensures Recv(Encode(s) + rest, buffer) == Outcome(Gdb.Text(s), |Encode(s)|, [PLUS])
  {
    hide Recv; hide Escape; hide Sum; hide ParseHex; hide Unescape;
    var data := Escape(s);
    EscapedChars(s);
    HexBack(Checksum(data));
    UnescapeAll(s);
    HexAscii(Checksum(data));
    Packet(data, Hex(Checksum(data)), rest, buffer);
  }

  lemma HexAscii(n: int)
    requires 0 <= n < 256
    ensures Ascii(Hex(n)) && |Hex(n)| == 2
  {
  }

  lemma NoisePassed(z: Noise, rest: Text, buffer: Option<Text>)
    requires z.Harmless() && (buffer.Some? ==> !z.Junk?)
    ensures Recv(z.Chars() + rest, buffer) ==
            After(|z.Chars()|, if z.Bad? then [MINUS] else [], Recv(rest, if z.Cut? then Some(z.Chars()) else None))
  {
    hide Recv;
    match z
    case Junk(s) => SkipJunk(s, rest);
    case Bad(data, sum) => Packet(data, sum, rest, buffer);
    case Cut(data) => StartPacket(data, rest, buffer);
  }

  /** Framing: after any noise, an encoded packet is received as exactly what was encoded. The receiver has
      then read exactly through its checksum, and has sent a NACK for each bad packet before it. */
  lemma {:induction false} Framing(zs: seq<Noise>, s: Text, rest: Text, buffer: Option<Text>)
    requires Harmless(zs, buffer.Some?) && Ascii(s) && HASH !in s && ETX !in s
    ensures Recv(Flat(zs) + Encode(s) + rest, buffer) ==
            Outcome(Gdb.Text(s), |Flat(zs)| + |Encode(s)|, Nacks(zs) + [PLUS])
    decreases |zs|
  {
    hide Recv; hide Encode; hide Ascii; hide Plain;
    if zs == [] {
      assert Flat(zs) + Encode(s) + rest == Encode(s) + rest;
      GoodPacket(s, rest, buffer);
    } else {
      var z, more := zs[0], Flat(zs[1..]) + Encode(s) + rest;
      FlatNext(zs, Encode(s) + rest);
      assert Flat(zs) + Encode(s) + rest == Flat(zs) + (Encode(s) + rest) && more == Flat(zs[1..]) + (Encode(s) + rest);
      NoisePassed(z, more, buffer);
      Framing(zs[1..], s, rest, if z.Cut? then Some(z.Chars()) else None);
      assert Nacks(zs) + [PLUS] == (if z.Bad? then [MINUS] else []) + (Nacks(zs[1..]) + [PLUS]);
    }
  }

  lemma FlatNext(zs: seq<Noise>, t: Text)
    requires zs != []
    ensures Flat(zs) + t == zs[0].Chars() + (Flat(zs[1..]) + t) && |Flat(zs)| == |zs[0].Chars()| + |Flat(zs[1..])|
  {
    Associates(zs[0].Chars(), Flat(zs[1..]), t);
  }

  // ----- What does not get through -----

  lemma {:induction false} StopsEarly(data: Text, rest: Text, b: Text)
    requires HASH !in data && DOLLAR !in data && (ETX in data || !Ascii(data))
    ensures Recv(data + rest, Some(b)).read <= |data|
    decreases |data|
  {
    hide Recv; hide RecvSum;
    assert data != [];
    Tail(data, rest);
    RecvLast(data + rest, Some(b));
    if Ascii([data[0]]) && data[0] != ETX {
      RecvNext(data + rest, Some(b));
      assert data == [data[0]] + data[1..];
      StopsEarly(data[1..], rest, b + [data[0]]);
    }
  }

  /** A packet gets through if and only if the text is ASCII without hash and Ctrl+C: an escaped hash
      contains a Ctrl+C. */
  lemma GetsThrough(s: Text, rest: Text)
    ensures (Recv(Encode(s) + rest, None) == Outcome(Gdb.Text(s), |Encode(s)|, [PLUS]))
            <==> (Ascii(s) && HASH !in s && ETX !in s)
  {
    hide Recv; hide RecvSum; hide Escape; hide Sum;
    if Ascii(s) && HASH !in s && ETX !in s {
      GoodPacket(s, rest, None);
    } else {
      EscapedChars(s);
      var data := Escape(s);
      var tail := [HASH] + Hex(Checksum(data)) + rest;
      var stream := Encode(s) + rest;
      assert stream[0] == DOLLAR && stream[1..] == data + tail;
      RecvNext(stream, None);
      StopsEarly(data, tail, [DOLLAR]);
    }
  }

  /** The hash itself: the receiver reports an interrupt, two characters into the packet. */
  lemma EscapedHashInterrupts(rest: Text)
    ensures Recv(Encode([HASH]) + rest, None) == Outcome(Gdb.Text(INTERRUPT), 3, [])
  {
    hide Recv; hide RecvSum; hide Sum;
    var hash: Text := [HASH];
    assert hash[..0] == [] && Escape(hash[..0]) == [] && EscapeChar(HASH) == [BRACE, ETX];
    var data := Escape(hash);
    var tail := [ETX, HASH] + Hex(Checksum(data)) + rest;
    assert data == [BRACE, ETX] && Encode(hash) + rest == [DOLLAR] + [BRACE] + tail;
    StartPacket([BRACE], tail, None);
    RecvLast(tail, Some([DOLLAR] + [BRACE]));
  }
}
