/** `RipcomPacketManager`: the decoder that turns received bytes back into a packet.
    It reads the two addresses and the type byte and takes every byte from offset 9 on
    as the contents; it never reads the number, so a decoded packet has four fields. */
module RipcomManager {
  import opened JavaBytes
  import opened Optional
  import opened Decimal
  import opened Addresses
  import opened RipcomPackets

  const DestinationIPOffset: nat := 0
  const SourceIPOffset: nat := 4
  const PacketTypeOffset: nat := 8
  const ContentsOffset: nat := 9

  /** The packet `constructRipcomPacket` builds: addresses, type and contents. */
  datatype ReceivedPacket = ReceivedPacket(destinationIP: string, sourceIP: string, packetType: PacketType,
                                           contents: string)

  /** The address held in the four bytes from offset; None when they run past the end of
      the packet (the ArrayIndexOutOfBoundsException). */
  function IP(packet: seq<Byte>, offset: nat): (r: Option<string>)
    ensures r.Some? <==> offset + 4 <= |packet|
  {
    if offset + 4 <= |packet| then Some(Dotted(OctetsAt(packet, offset))) else None
  }

  /** The `switch` on the type byte: 1 is SEQ, 2 is ACK and every other value FIN. */
  function TypeOf(b: Byte): (t: PacketType)
    ensures t == Seq <==> b == 1
    ensures t == Ack <==> b == 2
    ensures t == Fin <==> b != 1 && b != 2
  {
    if b == 1 then Seq else if b == 2 then Ack else Fin
  }

  /** The decoded packet, or None when the packet is too short for its type byte. */
  function Decode(packet: seq<Byte>): (r: Option<ReceivedPacket>)
    ensures r.Some? <==> |packet| > PacketTypeOffset
    ensures r.Some? ==> |r.value.contents| == |packet| - ContentsOffset
  {
    if |packet| <= PacketTypeOffset then None
    else Some(ReceivedPacket(IP(packet, DestinationIPOffset).value, IP(packet, SourceIPOffset).value,
                             TypeOf(packet[PacketTypeOffset]), BytesToChars(packet[ContentsOffset..])))
  }

  /** `getIP`: appends the unsigned value of each of the four bytes from offset, with a
      '.' after each but the last. */
  method GetIP(offset: nat, packet: seq<Byte>) returns (ip: Option<string>)
    ensures ip == IP(packet, offset)
  {
    var sb := "";
    ghost var q: seq<int> := [];
    var i := offset;
    while i < offset + 4
      invariant offset <= i <= offset + 4 && (i == offset || i <= |packet|)
      invariant |q| == i - offset
      invariant forall m :: 0 <= m < |q| ==> q[m] == ToUnsigned(packet[offset + m])
      invariant (|q| == 0 && sb == "") || (0 < |q| < 4 && sb == Dotted(q) + ".") || (|q| == 4 && sb == Dotted(q))
    {
      if i >= |packet| {
        assert offset + 4 > |packet|;
        return None;
      }
      var ipPart := ToUnsigned(packet[i]);
      WriteOctet(packet, offset, q, sb, ipPart);
      q := q + [ipPart];
      sb := sb + IntToString(ipPart);
      if i != offset + 3 {
        sb := sb + ".";
      }
      i := i + 1;
    }
    WrittenIP(packet, offset, q, sb);
    ip := Some(sb);
  }

  /** One pass of `getIP`'s loop: the next byte's value extends what is written. */
  lemma WriteOctet(packet: seq<Byte>, offset: nat, q: seq<int>, sb: string, x: int)
    requires |q| < 4 && offset + |q| < |packet| && x == ToUnsigned(packet[offset + |q|])
    requires forall m :: 0 <= m < |q| ==> q[m] == ToUnsigned(packet[offset + m])
    requires (|q| == 0 && sb == "") || (|q| > 0 && sb == Dotted(q) + ".")
    ensures forall m :: 0 <= m < |q + [x]| ==> (q + [x])[m] == ToUnsigned(packet[offset + m])
    ensures sb + IntToString(x) == Dotted(q + [x])
  {
    ExtendOctets(packet, offset, q, x);
    GrowDotted(q, x, sb);
  }

  /** After four passes `getIP` has written the address. */
  lemma WrittenIP(packet: seq<Byte>, offset: nat, q: seq<int>, sb: string)
    requires offset + 4 <= |packet| && |q| == 4 && sb == Dotted(q)
    requires forall m :: 0 <= m < |q| ==> q[m] == ToUnsigned(packet[offset + m])
    ensures IP(packet, offset) == Some(sb)
  {
    OctetsOf(packet, offset, q);
  }

  lemma OctetsOf(packet: seq<Byte>, offset: nat, q: seq<int>)
    requires offset + 4 <= |packet| && |q| == 4
    requires forall m :: 0 <= m < |q| ==> q[m] == ToUnsigned(packet[offset + m])
    ensures q == OctetsAt(packet, offset)
  {
  }

  lemma ExtendOctets(packet: seq<Byte>, offset: nat, q: seq<int>, x: int)
    requires offset + |q| < |packet| && x == ToUnsigned(packet[offset + |q|])
    requires forall m :: 0 <= m < |q| ==> q[m] == ToUnsigned(packet[offset + m])
    ensures forall m :: 0 <= m < |q + [x]| ==> (q + [x])[m] == ToUnsigned(packet[offset + m])
  {
  }

  /** `constructRipcomPacket`: the two addresses, the type byte, then one char per byte
      from offset 9 to the end. */
  method ConstructRipcomPacket(packet: seq<Byte>) returns (r: Option<ReceivedPacket>)
    ensures r == Decode(packet)
  {
    var destinationIP := GetIP(DestinationIPOffset, packet);
    if destinationIP.None? {
      return None;
    }
    var sourceIP := GetIP(SourceIPOffset, packet);
    if sourceIP.None? {
      return None;
    }
    if |packet| <= PacketTypeOffset {
      return None;
    }
    var packetType: PacketType;
    var t := packet[PacketTypeOffset];
    if t == 1 {
      packetType := Seq;
    } else if t == 2 {
      packetType := Ack;
    } else {
      packetType := Fin;
    }
    var contents := "";
    var i := ContentsOffset;
    while i < |packet|
      invariant ContentsOffset <= i <= |packet|
      invariant contents == BytesToChars(packet[ContentsOffset..i])
    {
      assert packet[ContentsOffset..i + 1] == packet[ContentsOffset..i] + [packet[i]];
      CharsOfConcat(packet[ContentsOffset..i], [packet[i]]);
      contents := contents + [ByteToChar(packet[i])];
      i := i + 1;
    }
    assert packet[ContentsOffset..i] == packet[ContentsOffset..];
    DecodeFields(packet, destinationIP.value, sourceIP.value, packetType, contents);
    r := Some(ReceivedPacket(destinationIP.value, sourceIP.value, packetType, contents));
  }

  /** A decoded packet is the one with the fields read at their offsets. */
  lemma DecodeFields(packet: seq<Byte>, d: string, s: string, t: PacketType, c: string)
    requires |packet| > PacketTypeOffset
    requires Some(d) == IP(packet, DestinationIPOffset) && Some(s) == IP(packet, SourceIPOffset)
    requires t == TypeOf(packet[PacketTypeOffset]) && c == BytesToChars(packet[ContentsOffset..])
    ensures Decode(packet) == Some(ReceivedPacket(d, s, t, c))
  {
  }

  /** What `getIP` yields has exactly three dots, none at either end. */
  lemma IPDots(packet: seq<Byte>, offset: nat)
    requires offset + 4 <= |packet|
    ensures DotCount(IP(packet, offset).value) == 3
    ensures var s := IP(packet, offset).value; s[0] != '.' && s[|s| - 1] != '.'
  {
    var q := OctetsAt(packet, offset);
    assert IP(packet, offset).value == Dotted(q);
    DotCountDotted(q);
    DotsAtEnds(q);
  }

  /** The four parts between the dots of what `getIP` yields are the decimals of the
      bytes read unsigned, in order. */
  lemma IPParts(packet: seq<Byte>, offset: nat)
    requires offset + 4 <= |packet|
    ensures SplitDots(IP(packet, offset).value)
         == [IntToString(ToUnsigned(packet[offset])), IntToString(ToUnsigned(packet[offset + 1])),
             IntToString(ToUnsigned(packet[offset + 2])), IntToString(ToUnsigned(packet[offset + 3]))]
  {
    PartsOf(IP(packet, offset).value, OctetsAt(packet, offset));
  }

  lemma PartsOf(s: string, q: seq<int>)
    requires |q| == 4 && s == Dotted(q)
    ensures SplitDots(s) == [IntToString(q[0]), IntToString(q[1]), IntToString(q[2]), IntToString(q[3])]
  {
    SplitDotted(q);
  }

  /** What `getIP` yields parses back to the four bytes read unsigned, and is the
      canonical rendering of them. */
  lemma IPParses(packet: seq<Byte>, offset: nat)
    requires offset + 4 <= |packet|
    ensures ParseAddress(IP(packet, offset).value) == Some(OctetsAt(packet, offset))
    ensures IsCanonical(IP(packet, offset).value)
  {
    var q := OctetsAt(packet, offset);
    assert IP(packet, offset).value == Dotted(q);
    ParseDotted(q);
    DottedIsCanonical(q);
  }

  /** Neither end of a rendering is a dot. */
  lemma DotsAtEnds(q: seq<int>)
    requires IsOctets(q)
    ensures var s := Dotted(q); |s| > 0 && s[0] != '.' && s[|s| - 1] != '.'
  {
    var first, last := IntToString(q[0]), IntToString(q[3]);
    assert first[0] in first;
    assert last[|last| - 1] in last;
    DottedSnoc(q);
    assert Dotted(q) == first + "." + Dotted(q[1..]);
  }

  /** Decoding what `getBytes` wrote: the type comes back, and the addresses parse to
      the same octets and come back verbatim when canonical. */
  lemma DecodeWire(p: RipcomPacket)
    requires Wire(p).Some?
    ensures var d := Decode(Wire(p).value);
      && d.Some?
      && d.value.packetType == p.packetType
      && ParseAddress(d.value.destinationIP) == ParseAddress(p.destinationIP)
      && ParseAddress(d.value.sourceIP) == ParseAddress(p.sourceIP)
      && (IsCanonical(p.destinationIP) ==> d.value.destinationIP == p.destinationIP)
      && (IsCanonical(p.sourceIP) ==> d.value.sourceIP == p.sourceIP)
  {
    var b := Wire(p).value;
    WireLayout(p);
    ParseDotted(OctetsAt(b, DestinationIPOffset));
    ParseDotted(OctetsAt(b, SourceIPOffset));
  }

  /** The contents decoded from what `getBytes` wrote: the four number bytes followed by
      the original contents, verbatim when ASCII. */
  lemma DecodeWireContents(p: RipcomPacket)
    requires Wire(p).Some?
    ensures var d := Decode(Wire(p).value);
      && d.Some?
      && d.value.contents == BytesToChars(BigEndian32(p.number)) + BytesToChars(CharsToBytes(p.contents))
      && (IsAscii(p.contents) ==> d.value.contents == BytesToChars(BigEndian32(p.number)) + p.contents)
  {
    WireLayout(p);
    ContentsSplit(Wire(p).value, BigEndian32(p.number), CharsToBytes(p.contents));
    if IsAscii(p.contents) {
      AsciiRoundTrip(p.contents);
    }
  }

  /** The contents of a packet whose bytes from offset 9 are n and then c. */
  lemma ContentsSplit(b: seq<Byte>, n: seq<Byte>, c: seq<Byte>)
    requires |b| >= 13 && b[ContentsOffset..13] == n && b[13..] == c
    ensures Decode(b).Some? && Decode(b).value.contents == BytesToChars(n) + BytesToChars(c)
  {
    assert b[ContentsOffset..] == n + c;
    CharsOfConcat(n, c);
  }

  lemma CharsOfConcat(a: seq<Byte>, b: seq<Byte>)
    ensures BytesToChars(a + b) == BytesToChars(a) + BytesToChars(b)
  {
    var l, r := BytesToChars(a + b), BytesToChars(a) + BytesToChars(b);
    forall k | 0 <= k < |a + b|
      ensures l[k] == r[k]
    {
      if k < |a| {
        assert (a + b)[k] == a[k];
      } else {
        assert (a + b)[k] == b[k - |a|];
      }
    }
    assert l == r;
  }
}
