/** `RipcomPacketUnpacker`: holds a received packet and reads its destination, the only
    field a forwarding rover needs. */
module RipcomUnpacker {
  import opened JavaBytes
  import opened Optional
  import opened Decimal
  import opened Addresses
  import opened RipcomPackets
  import opened RipcomManager

  class RipcomPacketUnpacker {
    /** The packet bytes, shared with the caller as in Java. */
    const packet: array<Byte>

    constructor(packet: array<Byte>)
      ensures this.packet == packet
    {
      this.packet := packet;
    }

    /** `getDestination`: the unsigned values of bytes 0-3 with a '.' after each but
        the last; None when the packet is shorter than four bytes. It is `getIP` at
        offset 0. */
    method GetDestination() returns (r: Option<string>)
      ensures r == IP(packet[..], DestinationIPOffset)
    {
      var ipAddress := "";
      ghost var q: seq<int> := [];
      var i := DestinationIPOffset;
      while i < DestinationIPOffset + 4
        invariant 0 <= i <= 4 && (i == 0 || i <= packet.Length)
        invariant |q| == i
        invariant forall m :: 0 <= m < i ==> q[m] == ToUnsigned(packet[m])
        invariant (|q| == 0 && ipAddress == "") || (0 < |q| < 4 && ipAddress == Dotted(q) + ".")
               || (|q| == 4 && ipAddress == Dotted(q))
      {
        if i >= packet.Length {
          assert DestinationIPOffset + 4 > packet.Length;
          return None;
        }
        var ipPart := ToUnsigned(packet[i]);
        WriteOctet(packet[..], DestinationIPOffset, q, ipAddress, ipPart);
        q := q + [ipPart];
        ipAddress := ipAddress + IntToString(ipPart);
        if i != DestinationIPOffset + 3 {
          ipAddress := ipAddress + ".";
        }
        i := i + 1;
      }
      WrittenIP(packet[..], DestinationIPOffset, q, ipAddress);
      r := Some(ipAddress);
    }
  }

  /** The destination depends on the first four bytes only. */
  lemma DestinationPrefix(a: seq<Byte>, b: seq<Byte>)
    requires |a| >= 4 && |b| >= 4 && a[..4] == b[..4]
    ensures IP(a, DestinationIPOffset) == IP(b, DestinationIPOffset)
  {
    assert forall k :: 0 <= k < 4 ==> a[k] == a[..4][k] && b[k] == b[..4][k];
  }

  /** On bytes `getBytes` wrote, the destination parses to the packet's own and is
      the packet's own string whenever that was canonical. */
  lemma DestinationOfWire(p: RipcomPacket)
    requires Wire(p).Some?
    ensures IP(Wire(p).value, DestinationIPOffset).Some?
    ensures ParseAddress(IP(Wire(p).value, DestinationIPOffset).value) == ParseAddress(p.destinationIP)
    ensures IsCanonical(p.destinationIP) ==> IP(Wire(p).value, DestinationIPOffset) == Some(p.destinationIP)
  {
    WireLayout(p);
    ParseDotted(OctetsAt(Wire(p).value, DestinationIPOffset));
  }
}
