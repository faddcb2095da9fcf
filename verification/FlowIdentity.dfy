// The five-tuple identity of a flow: what connect registers, what a packet identifies as,
// and what the server's swap of a packet does to it.
module FlowIdentity {
  import opened Words
  import opened Options

  const PROTO_TCP: U8 := 6

  // Connection ids hold addresses and ports as they stand in the packet.
  datatype ConnectionID = ConnectionID(dstIP: U32, srcIP: U32, dstPort: U16, srcPort: U16, proto: U8)

  const DELETED_KEY := ConnectionID(0, 0, 0, 0, 253)
  const EMPTY_KEY := ConnectionID(0, 0, 0, 0, 254)

  datatype Headers = Headers(srcIP: U32, dstIP: U32, proto: U8, srcPort: U16, dstPort: U16, ttl: U8, checksum: U16)

  // htons and htonl on a little-endian host.
  function Swap16(x: U16): U16 {
    (x % 0x100) * 0x100 + x / 0x100
  }

  function Swap32(x: U32): U32 {
    Swap16(x % 0x1_0000) * 0x1_0000 + Swap16(x / 0x1_0000)
  }

  lemma Swap16Twice(x: U16)
    ensures Swap16(Swap16(x)) == x
  {
    assert Swap16(x) % 0x100 == x / 0x100;
    assert Swap16(x) / 0x100 == x % 0x100;
  }

  // ntohl undoes htonl.
  lemma Swap32Twice(x: U32)
    ensures Swap32(Swap32(x)) == x
  {
    var low, high := Swap16(x % 0x1_0000), Swap16(x / 0x1_0000);
    assert Swap32(x) % 0x1_0000 == high && Swap32(x) / 0x1_0000 == low;
    Swap16Twice(x % 0x1_0000);
    Swap16Twice(x / 0x1_0000);
  }

  function Identify(h: Headers): Option<ConnectionID> {
    if h.proto == PROTO_UDP then Some(ConnectionID(h.dstIP, h.srcIP, h.dstPort, h.srcPort, h.proto))
    else if h.proto == PROTO_TCP then Some(ConnectionID(h.dstIP, h.srcIP, h.dstPort, h.srcPort, h.proto))
    else None
  }

  // HelloByeClient_connect: the id under which the client waits, from host-order numbers.
  function Connect(srcIP: U32, dstIP: U32, srcPort: U16, dstPort: U16): ConnectionID {
    ConnectionID(Swap32(srcIP), Swap32(dstIP), Swap16(srcPort), Swap16(dstPort), PROTO_UDP)
  }

  // A packet's headers, rewritten in place.
  class HeaderBuf {
    var h: Headers

    // The header writes of HelloByeClientHello::fun: a reply by swap will find its way back.
    method WriteHello(srcIP: U32, dstIP: U32, srcPort: U16, dstPort: U16)
      modifies this
      ensures h == HelloHeaders(srcIP, dstIP, srcPort, dstPort)
      ensures Identify(Swapped(h)) == Some(Connect(srcIP, dstIP, srcPort, dstPort))
    {
      ReplyMeetsItsConnection(srcIP, dstIP, srcPort, dstPort, srcIP, dstIP, srcPort, dstPort);
      h := Headers(0, 0, 0, 0, 0, 0, 0);
      h := h.(ttl := 64);
      h := h.(dstIP := Swap32(dstIP));
      h := h.(srcIP := Swap32(srcIP));
      h := h.(proto := PROTO_UDP, checksum := 0);
      h := h.(dstPort := Swap16(dstPort));
      h := h.(srcPort := Swap16(srcPort));
    }

    // The swap at the end of HelloByeServerHello::fun and HelloByeServerBye::fun.
    method SwapEnds()
      modifies this
      ensures h == Swapped(old(h))
    {
      h := h.(ttl := 64);
      var tmp := h.dstIP;
      h := h.(dstIP := h.srcIP);
      h := h.(srcIP := tmp);
      h := h.(checksum := 0);
      var tmp16 := h.dstPort;
      h := h.(dstPort := h.srcPort);
      h := h.(srcPort := tmp16);
    }
  }

  function Swapped(h: Headers): Headers {
    h.(ttl := 64, dstIP := h.srcIP, srcIP := h.dstIP, checksum := 0, dstPort := h.srcPort, srcPort := h.dstPort)
  }

  function HelloHeaders(srcIP: U32, dstIP: U32, srcPort: U16, dstPort: U16): Headers {
    Headers(Swap32(srcIP), Swap32(dstIP), PROTO_UDP, Swap16(srcPort), Swap16(dstPort), 64, 0)
  }

  // The reply to a client's hello is identified as exactly the connection the client
  // registered, and as nobody else's; turning a packet round twice restores its identity.
  lemma ReplyMeetsItsConnection(a: U32, b: U32, p: U16, q: U16, a': U32, b': U32, p': U16, q': U16)
    ensures Identify(Swapped(HelloHeaders(a, b, p, q))) == Some(Connect(a', b', p', q'))
       <==> (a, b, p, q) == (a', b', p', q')
    ensures Identify(Swapped(Swapped(HelloHeaders(a, b, p, q)))) == Identify(HelloHeaders(a, b, p, q))
  {
    hide Swap32, Swap16;
    Swap32Twice(a);
    Swap32Twice(b);
    Swap16Twice(p);
    Swap16Twice(q);
    Swap32Twice(a');
    Swap32Twice(b');
    Swap16Twice(p');
    Swap16Twice(q');
  }

  // Two packets of either protocol belong to the same flow exactly when addresses, ports and
  // protocol agree; packets of other protocols belong to none.
  lemma IdentifiesByFiveFields(g: Headers, h: Headers)
    ensures Identify(g) == None <==> g.proto != 17 && g.proto != 6
    ensures Identify(g).Some? ==>
              (Identify(g) == Identify(h) <==>
               (g.srcIP, g.dstIP, g.srcPort, g.dstPort, g.proto) == (h.srcIP, h.dstIP, h.srcPort, h.dstPort, h.proto))
  {
  }

  // Identity of the reply, for both protocols: a packet swapped twice is the same flow, and
  // its reply is the flow with the ends exchanged.
  lemma SwappedIdentity(h: Headers)
    ensures Identify(Swapped(Swapped(h))) == Identify(h)
    ensures Swapped(h).ttl == 64 && Swapped(h).checksum == 0 && Swapped(h).proto == h.proto
    ensures Identify(h).Some? ==>
              var id := Identify(h).value;
              Identify(Swapped(h)) == Some(id.(dstIP := id.srcIP, srcIP := id.dstIP, dstPort := id.srcPort, srcPort := id.dstPort))
  {
  }

  // The byte of a number at a place counted from the low end.
  function ByteOf(x: nat, place: nat): nat {
    if place == 0 then x % 0x100 else ByteOf(x / 0x100, place - 1)
  }

  lemma Swap16Reverses(x: U16)
    ensures ByteOf(Swap16(x), 0) == ByteOf(x, 1) && ByteOf(Swap16(x), 1) == ByteOf(x, 0)
  {
    assert ByteOf(x, 1) == ByteOf(x / 0x100, 0) && ByteOf(Swap16(x), 1) == ByteOf(Swap16(x) / 0x100, 0);
  }

  // htonl puts the bytes in the opposite order.
  lemma Swap32Reverses(x: U32, place: nat)
    requires place < 4
    ensures ByteOf(Swap32(x), place) == ByteOf(x, 3 - place)
  {
    hide ByteOf, Swap16;
    var low, high := x % 0x1_0000, x / 0x1_0000;
    Swap16Reverses(low);
    Swap16Reverses(high);
    HalvesBytes(Swap16(high), Swap16(low));
    HalvesBytes(low, high);
    assert x == high * 0x1_0000 + low;
  }

  lemma HalvesBytes(low: U16, high: U16)
    ensures var x := high * 0x1_0000 + low;
            && ByteOf(x, 0) == ByteOf(low, 0) && ByteOf(x, 1) == ByteOf(low, 1)
            && ByteOf(x, 2) == ByteOf(high, 0) && ByteOf(x, 3) == ByteOf(high, 1)
  {
    var x := high * 0x1_0000 + low;
    assert x / 0x100 == high * 0x100 + low / 0x100 && x / 0x100 / 0x100 == high;
    assert ByteOf(x, 1) == ByteOf(x / 0x100, 0) && ByteOf(low, 1) == ByteOf(low / 0x100, 0);
    assert ByteOf(x, 2) == ByteOf(x / 0x100, 1) == ByteOf(x / 0x100 / 0x100, 0);
    assert ByteOf(x, 3) == ByteOf(x / 0x100, 2) == ByteOf(x / 0x100 / 0x100, 1);
  }

  // A hello runs from the client's end to the server's, in network order.
  lemma HelloIsAddressed(srcIP: U32, dstIP: U32, srcPort: U16, dstPort: U16)
    ensures var h := HelloHeaders(srcIP, dstIP, srcPort, dstPort);
            && Swap32(h.srcIP) == srcIP && Swap32(h.dstIP) == dstIP
            && Swap16(h.srcPort) == srcPort && Swap16(h.dstPort) == dstPort && h.ttl == 64 && h.checksum == 0
  {
    hide Swap32, Swap16;
    Swap32Twice(srcIP);
    Swap32Twice(dstIP);
    Swap16Twice(srcPort);
    Swap16Twice(dstPort);
  }

  // No identified packet and no registered connection collides with the table's own keys.
  lemma ReservedKeysAreNeverUsed(h: Headers)
    ensures Identify(h) != Some(DELETED_KEY) && Identify(h) != Some(EMPTY_KEY)
  {
  }
}
