/** `RipcomPacket`: one packet of the Ripcom file transfer and its byte form, as
    `getBytes` writes it: destination (bytes 0-3), source (4-7), type (8), number (9-12)
    and the contents from byte 13 on. */
module RipcomPackets {
  import opened JavaBytes
  import opened Optional
  import opened Addresses

  /** `RipcomPacket.Type`. */
  datatype PacketType = Seq | Ack | Fin

  /** The five fields, set once by the constructor; the getters are the destructors. */
  datatype RipcomPacket = RipcomPacket(destinationIP: string, sourceIP: string, packetType: PacketType,
                                       number: Int32, contents: string)

  const TypeOffset: nat := 8
  const NumberOffset: nat := 9
  const ContentsOffset: nat := 13

  /** The type byte: 1 for SEQ, 2 for ACK, 0 for anything else. */
  function TypeCode(t: PacketType): (b: Byte)
    ensures b == 1 <==> t == Seq
    ensures b == 2 <==> t == Ack
    ensures b == 0 <==> t == Fin
  {
    match t
    case Seq => 1
    case Ack => 2
    case Fin => 0
  }

  /** The bytes of p, or None for the UnknownHostException `InetAddress.getByName` throws
      when one of the two addresses does not parse. */
  function Wire(p: RipcomPacket): (r: Option<seq<Byte>>)
    ensures r.Some? <==> ParseAddress(p.destinationIP).Some? && ParseAddress(p.sourceIP).Some?
  {
    var d, s := ParseAddress(p.destinationIP), ParseAddress(p.sourceIP);
    if d.Some? && s.Some? then
      Some(AddressBytes(d.value) + AddressBytes(s.value) + [TypeCode(p.packetType)]
        + BigEndian32(p.number) + CharsToBytes(p.contents))
    else None
  }

  /** One of `getBytes`'s for-each loops: every byte of bs added to the list in order. */
  method AddAll(list: seq<Byte>, bs: seq<Byte>) returns (r: seq<Byte>)
    ensures r == list + bs
  {
    r := list;
    var k := 0;
    while k < |bs|
      invariant 0 <= k <= |bs|
      invariant r == list + bs[..k]
    {
      assert bs[..k + 1] == bs[..k] + [bs[k]];
      r := r + [bs[k]];
      k := k + 1;
    }
    assert bs[..k] == bs;
  }

  /** `getBytes`: resolves and adds the destination, then the source, the type byte, the
      four bytes of `number` and the bytes of `contents`. */
  method GetBytes(p: RipcomPacket) returns (r: Option<seq<Byte>>)
    ensures r == Wire(p)
  {
    var list: seq<Byte> := [];
    var ipAddress := ParseAddress(p.destinationIP);
    if ipAddress.None? {
      return None;
    }
    var d := AddressBytes(ipAddress.value);
    list := AddAll(list, d);
    ipAddress := ParseAddress(p.sourceIP);
    if ipAddress.None? {
      return None;
    }
    var s := AddressBytes(ipAddress.value);
    list := AddAll(list, s);
    assert list == d + s;
    if p.packetType == Seq {
      list := list + [1];
    } else if p.packetType == Ack {
      list := list + [2];
    } else {
      list := list + [0];
    }
    assert list == d + s + [TypeCode(p.packetType)];
    var nums := BigEndian32(p.number);
    list := AddAll(list, nums);
    var contentsBytes := CharsToBytes(p.contents);
    list := AddAll(list, contentsBytes);
    assert Wire(p) == Some(d + s + [TypeCode(p.packetType)] + nums + contentsBytes);
    r := Some(list);
  }

  /** Where each field of p lands: the layout in the field comments of `RipcomPacket`. */
  lemma WireLayout(p: RipcomPacket)
    requires Wire(p).Some?
    ensures var b := Wire(p).value;
      && |b| == ContentsOffset + |p.contents|
      && OctetsAt(b, 0) == ParseAddress(p.destinationIP).value
      && OctetsAt(b, 4) == ParseAddress(p.sourceIP).value
      && b[TypeOffset] == TypeCode(p.packetType)
      && b[NumberOffset..ContentsOffset] == BigEndian32(p.number)
      && FromBigEndian32(b[NumberOffset..ContentsOffset]) == p.number
      && b[ContentsOffset..] == CharsToBytes(p.contents)
  {
    var d, s := ParseAddress(p.destinationIP).value, ParseAddress(p.sourceIP).value;
    var n, c := BigEndian32(p.number), CharsToBytes(p.contents);
    var b := Wire(p).value;
    assert b == AddressBytes(d) + AddressBytes(s) + [TypeCode(p.packetType)] + n + c;
    OctetsRoundTrip(d);
    OctetsRoundTrip(s);
    assert b[0..4] == AddressBytes(d);
    assert b[4..8] == AddressBytes(s);
    assert b[NumberOffset..ContentsOffset] == n;
    BigEndianRoundTrip(p.number);
  }
}
