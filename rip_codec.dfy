/** The RIPv2 advertisement (section 4 of RFC 2453) as the rover writes and reads it:
    `getRIPPacket`, `decodeRIPPacket` and `fillIPAddress`. The second reserved header byte
    carries the sender's rover id. */
module RipCodec {
  import opened JavaBytes
  import opened Optional
  import opened Addresses

  /** `RoutingTableEntry`: destination, mask, next hop and cost of one route. */
  datatype RoutingTableEntry = RoutingTableEntry(ipAddress: string, mask: Byte, nextHop: string, cost: Byte)

  /** `RIPEntryHolder`: the decoded entries and the sender's rover id. */
  datatype RipEntryHolder = RipEntryHolder(entries: seq<RoutingTableEntry>, roverID: int)

  /** One route entry as it travels: both addresses as their four octets. */
  datatype Route = Route(ip: seq<int>, mask: Byte, nextHop: seq<int>, cost: Byte)

  predicate RouteOk(r: Route) {
    IsOctets(r.ip) && IsOctets(r.nextHop)
  }

  const Command: Byte := 1
  const Version: Byte := 2
  const AddressFamily: Byte := 2
  const RouteTag: Byte := 1
  const HeaderSize: nat := 4
  const EntrySize: nat := 20

  /** `InetAddress.getByName` applied to both addresses of e; None stands for the
      UnknownHostException of either. */
  function RouteOf(e: RoutingTableEntry): (r: Option<Route>)
    ensures r.Some? ==> RouteOk(r.value) && r.value.mask == e.mask && r.value.cost == e.cost
  {
    var ip, hop := ParseAddress(e.ipAddress), ParseAddress(e.nextHop);
    if ip.Some? && hop.Some? then Some(Route(ip.value, e.mask, hop.value, e.cost)) else None
  }

  /** The entry a received route becomes: its addresses written by `getIPAddressInStringForm`. */
  function EntryOf(r: Route): RoutingTableEntry {
    RoutingTableEntry(Dotted(r.ip), r.mask, Dotted(r.nextHop), r.cost)
  }

  /** The 20-byte route entry: family, tag, destination, mask, next hop, metric. */
  function RecordBytes(r: Route): (b: seq<Byte>)
    requires RouteOk(r)
    ensures |b| == EntrySize
  {
    var ip, hop := AddressBytes(r.ip), AddressBytes(r.nextHop);
    [0, AddressFamily, RouteTag, RouteTag, ip[0], ip[1], ip[2], ip[3],
     0, 0, 0, r.mask, hop[0], hop[1], hop[2], hop[3], 0, 0, 0, r.cost]
  }

  /** The routes of the first n table entries, or None when an address among them fails. */
  function RoutesOf(table: seq<RoutingTableEntry>, n: nat): (rs: Option<seq<Route>>)
    requires n <= |table|
    ensures rs.Some? <==> forall k :: 0 <= k < n ==> RouteOf(table[k]).Some?
    ensures rs.Some? ==> |rs.value| == n && forall k :: 0 <= k < n ==> RouteOf(table[k]) == Some(rs.value[k])
  {
    if n == 0 then Some([])
    else match RoutesOf(table, n - 1)
      case None => None
      case Some(rs) =>
        match RouteOf(table[n - 1])
        case None => None
        case Some(r) => Some(rs + [r])
  }

  /** The route entries of rs, in order. */
  function RoutesBytes(rs: seq<Route>): (b: seq<Byte>)
    requires forall k :: 0 <= k < |rs| ==> RouteOk(rs[k])
  {
    if |rs| == 0 then [] else RecordBytes(rs[0]) + RoutesBytes(rs[1..])
  }

  function Header(roverID: int): seq<Byte> {
    [Command, Version, 0, ToByte(roverID)]
  }

  /** The advertisement of a table, or None when an address fails to parse. */
  function RipPacket(roverID: int, table: seq<RoutingTableEntry>): Option<seq<Byte>> {
    match RoutesOf(table, |table|)
    case None => None
    case Some(rs) => Some(Header(roverID) + RoutesBytes(rs))
  }

  lemma RecordAppends(r: Route)
    requires RouteOk(r)
    ensures [0, AddressFamily] + [RouteTag, RouteTag] + AddressBytes(r.ip)
      + [0, 0, 0, r.mask] + AddressBytes(r.nextHop) + [0, 0, 0, r.cost] == RecordBytes(r)
  {
  }

  /** The body of `getRIPPacket`'s loop: the twenty bytes appended for one entry, or None
      when `InetAddress.getByName` rejects one of its addresses. */
  method RouteBytes(e: RoutingTableEntry) returns (route: Option<seq<Byte>>)
    ensures route.Some? <==> RouteOf(e).Some?
    ensures route.Some? ==> route.value == RecordBytes(RouteOf(e).value)
  {
    var bytes: seq<Byte> := [0, AddressFamily];
    bytes := bytes + [RouteTag, RouteTag];
    var ipBytes := ParseAddress(e.ipAddress);
    if ipBytes.None? {
      return None;
    }
    bytes := bytes + AddressBytes(ipBytes.value);
    bytes := bytes + [0, 0, 0, e.mask];
    var nextHopBytes := ParseAddress(e.nextHop);
    if nextHopBytes.None? {
      return None;
    }
    bytes := bytes + AddressBytes(nextHopBytes.value);
    bytes := bytes + [0, 0, 0, e.cost];
    RecordAppends(RouteOf(e).value);
    route := Some(bytes);
  }

  lemma {:induction false} RoutesBytesSnoc(rs: seq<Route>, r: Route)
    requires forall k :: 0 <= k < |rs| ==> RouteOk(rs[k])
    requires RouteOk(r)
    ensures RoutesBytes(rs + [r]) == RoutesBytes(rs) + RecordBytes(r)
  {
    if |rs| > 0 {
      assert (rs + [r])[1..] == rs[1..] + [r];
      RoutesBytesSnoc(rs[1..], r);
    } else {
      assert [r][1..] == [];
    }
  }

  /** The bytes after the header for the first k + 1 entries extend those for the first k. */
  lemma RipStep(roverID: int, table: seq<RoutingTableEntry>, k: nat)
    requires k < |table| && RoutesOf(table, k + 1).Some?
    ensures Header(roverID) + RoutesBytes(RoutesOf(table, k + 1).value)
         == Header(roverID) + RoutesBytes(RoutesOf(table, k).value) + RecordBytes(RouteOf(table[k]).value)
  {
    var rs, r := RoutesOf(table, k).value, RouteOf(table[k]).value;
    assert RoutesOf(table, k + 1).value == rs + [r];
    RoutesBytesSnoc(rs, r);
  }

  /** `getRIPPacket`: appends the header bytes, then the route entry of every table entry
      (`routingTable` and `roverID` are the rover's fields). */
  method GetRIPPacket(roverID: int, routingTable: seq<RoutingTableEntry>) returns (r: Option<seq<Byte>>)
    ensures r == RipPacket(roverID, routingTable)
  {
    var bytes: seq<Byte> := [Command];
    bytes := bytes + [Version];
    bytes := bytes + [0];
    bytes := bytes + [ToByte(roverID)];
    var k := 0;
    while k < |routingTable|
      invariant 0 <= k <= |routingTable|
      invariant RoutesOf(routingTable, k).Some?
      invariant bytes == Header(roverID) + RoutesBytes(RoutesOf(routingTable, k).value)
    {
      var route := RouteBytes(routingTable[k]);
      if route.None? {
        return None;
      }
      RipStep(roverID, routingTable, k);
      bytes := bytes + route.value;
      k := k + 1;
    }
    r := Some(bytes);
  }

  /** The route `decodeRIPPacket` reads from the 20 bytes at the front of b. */
  function DecodeRoute(b: seq<Byte>): (r: Route)
    requires |b| >= EntrySize
    ensures RouteOk(r)
  {
    Route(OctetsAt(b, 4), b[11], OctetsAt(b, 12), b[19])
  }

  /** The routes of the bytes after the header; None when a record is cut short
      (the reads run past the end of the array). */
  function DecodeRoutes(b: seq<Byte>): (r: Option<seq<Route>>)
    ensures r.Some? ==> forall k :: 0 <= k < |r.value| ==> RouteOk(r.value[k])
    decreases |b|
  {
    if |b| == 0 then Some([])
    else if |b| < EntrySize then None
    else match DecodeRoutes(b[EntrySize..])
      case None => None
      case Some(rest) => Some([DecodeRoute(b)] + rest)
  }

  /** The entries of a sequence of routes, in order. */
  function Entries(rs: seq<Route>): (es: seq<RoutingTableEntry>)
    ensures |es| == |rs| && forall k :: 0 <= k < |rs| ==> es[k] == EntryOf(rs[k])
  {
    if |rs| == 0 then [] else [EntryOf(rs[0])] + Entries(rs[1..])
  }

  /** What `decodeRIPPacket` returns; None when it throws. The id is the fourth byte read as a
      signed Java byte. */
  function DecodeRip(p: seq<Byte>): Option<RipEntryHolder> {
    if |p| < HeaderSize then None
    else match DecodeRoutes(p[HeaderSize..])
      case None => None
      case Some(rs) => Some(RipEntryHolder(Entries(rs), p[3]))
  }

  function PrependTo(acc: seq<Route>, o: Option<seq<Route>>): Option<seq<Route>> {
    match o
    case None => None
    case Some(rest) => Some(acc + rest)
  }

  lemma PrependNothing(o: Option<seq<Route>>)
    ensures PrependTo([], o) == o
  {
    if o.Some? {
      assert [] + o.value == o.value;
    }
  }

  lemma PrependStep(acc: seq<Route>, r: Route, o: Option<seq<Route>>)
    ensures PrependTo(acc, PrependTo([r], o)) == PrependTo(acc + [r], o)
  {
    if o.Some? {
      assert acc + ([r] + o.value) == acc + [r] + o.value;
    }
  }

  lemma EntriesSnoc(rs: seq<Route>, r: Route)
    ensures Entries(rs + [r]) == Entries(rs) + [EntryOf(r)]
  {
    assert Entries(rs + [r]) == Entries(rs) + [EntryOf(r)] by {
      assert forall k :: 0 <= k < |rs| ==> (rs + [r])[k] == rs[k];
    }
  }

  /** `fillIPAddress`: the four bytes from index i, unsigned, into ipAddress. */
  method FillIPAddress(ipAddress: array<int>, ripPacket: seq<Byte>, i: int)
    requires ipAddress.Length == 4
    requires 0 <= i && i + 4 <= |ripPacket|
    modifies ipAddress
    ensures ipAddress[..] == OctetsAt(ripPacket, i)
  {
    var j := 0;
    while j < 4
      invariant 0 <= j <= 4
      invariant forall m :: 0 <= m < j ==> ipAddress[m] == ToUnsigned(ripPacket[i + m])
    {
      ipAddress[j] := ToUnsigned(ripPacket[i + j]);
      j := j + 1;
    }
  }

  /** The body of `decodeRIPPacket`'s loop: the record at index i, and the index after it. */
  method DecodeRecord(ripPacket: seq<Byte>, i: nat) returns (e: RoutingTableEntry, next: nat)
    requires i + EntrySize <= |ripPacket|
    ensures e == EntryOf(DecodeRoute(ripPacket[i..])) && next == i + EntrySize
  {
    next := i;
    next := next + 2;  // address family identifier
    next := next + 2;  // route tag
    var ipAddress := new int[4];
    FillIPAddress(ipAddress, ripPacket, next);
    next := next + 4;
    var ipAddressStringForm := IPAddressInStringForm(ipAddress);
    next := next + 3;
    var subnetMask := ripPacket[next];
    next := next + 1;
    var nextHop := new int[4];
    FillIPAddress(nextHop, ripPacket, next);
    next := next + 4;
    next := next + 3;
    var nextHopInStringForm := IPAddressInStringForm(nextHop);
    var cost := ripPacket[next];
    e := RoutingTableEntry(ipAddressStringForm, subnetMask, nextHopInStringForm, cost);
    next := next + 1;
  }

  /** `decodeRIPPacket`: skips command and version, reads the id, then one record per
      20 bytes with a running index. */
  method DecodeRIPPacket(ripPacket: seq<Byte>) returns (r: Option<RipEntryHolder>)
    ensures r == DecodeRip(ripPacket)
  {
    if |ripPacket| < HeaderSize {
      return None;
    }
    var entries: seq<RoutingTableEntry> := [];
    ghost var routes: seq<Route> := [];
    var i := 2;
    i := i + 1;
    var roverID: int := ripPacket[i];
    i := i + 1;
    PrependNothing(DecodeRoutes(ripPacket[i..]));
    while i < |ripPacket|
      invariant HeaderSize <= i <= |ripPacket|
      invariant entries == Entries(routes)
      invariant DecodeRoutes(ripPacket[HeaderSize..]) == PrependTo(routes, DecodeRoutes(ripPacket[i..]))
      decreases |ripPacket| - i
    {
      if |ripPacket| - i < EntrySize {
        // the reads of this record run past the end of the array
        assert DecodeRoutes(ripPacket[i..]) == None;
        return None;
      }
      var e, next := DecodeRecord(ripPacket, i);
      ghost var route := DecodeRoute(ripPacket[i..]);
      assert ripPacket[i..][EntrySize..] == ripPacket[next..];
      PrependStep(routes, route, DecodeRoutes(ripPacket[next..]));
      EntriesSnoc(routes, route);
      entries := entries + [e];
      routes := routes + [route];
      i := next;
    }
    assert DecodeRoutes(ripPacket[i..]) == Some([]);
    assert routes + [] == routes;
    r := Some(RipEntryHolder(entries, roverID));
  }

  lemma ShiftBlock(a: seq<Byte>, b: seq<Byte>, i: nat)
    requires |a| == EntrySize && i + EntrySize <= |b|
    ensures (a + b)[EntrySize + i..EntrySize + i + EntrySize] == b[i..i + EntrySize]
  {
  }

  lemma {:induction false} RoutesLayout(rs: seq<Route>)
    requires forall k :: 0 <= k < |rs| ==> RouteOk(rs[k])
    ensures |RoutesBytes(rs)| == EntrySize * |rs|
    ensures forall k :: 0 <= k < |rs| ==> RoutesBytes(rs)[EntrySize * k..EntrySize * k + EntrySize] == RecordBytes(rs[k])
  {
    if |rs| > 0 {
      RoutesLayout(rs[1..]);
      var first, rest := RecordBytes(rs[0]), RoutesBytes(rs[1..]);
      assert RoutesBytes(rs) == first + rest;
      forall k | 0 <= k < |rs|
        ensures (first + rest)[EntrySize * k..EntrySize * k + EntrySize] == RecordBytes(rs[k])
      {
        if k == 0 {
          assert (first + rest)[..EntrySize] == first;
        } else {
          ShiftBlock(first, rest, EntrySize * (k - 1));
          assert rs[1..][k - 1] == rs[k];
        }
      }
    }
  }

  /** The advertisement is the header [1, 2, 0, (byte) roverID] followed by exactly one
      20-byte route entry per table entry, in table order. */
  lemma RipPacketLayout(roverID: int, table: seq<RoutingTableEntry>)
    requires RoutesOf(table, |table|).Some?
    ensures RipPacket(roverID, table).Some?
    ensures |RipPacket(roverID, table).value| == HeaderSize + EntrySize * |table|
    ensures RipPacket(roverID, table).value[..HeaderSize] == [Command, Version, 0, ToByte(roverID)]
    ensures forall k :: 0 <= k < |table| ==>
      RipPacket(roverID, table).value[HeaderSize + EntrySize * k..HeaderSize + EntrySize * k + EntrySize]
        == RecordBytes(RouteOf(table[k]).value)
  {
    var rs := RoutesOf(table, |table|).value;
    var body := RoutesBytes(rs);
    assert RipPacket(roverID, table).value == Header(roverID) + body;
    RoutesLayout(rs);
    forall k | 0 <= k < |table|
      ensures (Header(roverID) + body)[HeaderSize + EntrySize * k..HeaderSize + EntrySize * k + EntrySize]
        == RecordBytes(RouteOf(table[k]).value)
    {
      BlockFits(k, |rs|);
      ShiftHeader(Header(roverID), body, EntrySize * k);
    }
  }

  lemma BlockFits(k: nat, n: nat)
    requires k < n
    ensures EntrySize * k + EntrySize <= EntrySize * n
  {
  }

  lemma ShiftHeader(h: seq<Byte>, b: seq<Byte>, i: nat)
    requires |h| == HeaderSize && i + EntrySize <= |b|
    ensures (h + b)[HeaderSize + i..HeaderSize + i + EntrySize] == b[i..i + EntrySize]
  {
  }

  /** A receiver reads back the octets, mask and cost a record was written with. */
  lemma RecordRoundTrip(r: Route)
    requires RouteOk(r)
    ensures DecodeRoute(RecordBytes(r)) == r
  {
    UnsignedOfByte(r.ip[0]); UnsignedOfByte(r.ip[1]); UnsignedOfByte(r.ip[2]); UnsignedOfByte(r.ip[3]);
    UnsignedOfByte(r.nextHop[0]); UnsignedOfByte(r.nextHop[1]); UnsignedOfByte(r.nextHop[2]); UnsignedOfByte(r.nextHop[3]);
    assert OctetsAt(RecordBytes(r), 4) == r.ip;
    assert OctetsAt(RecordBytes(r), 12) == r.nextHop;
  }

  /** The route read from the front of a sequence depends only on its first 20 bytes. */
  lemma DecodeRouteFront(a: seq<Byte>, b: seq<Byte>)
    requires |a| >= EntrySize
    ensures DecodeRoute(a + b) == DecodeRoute(a)
  {
    assert OctetsAt(a + b, 4) == OctetsAt(a, 4);
    assert OctetsAt(a + b, 12) == OctetsAt(a, 12);
  }

  /** Decoding the route entries of rs gives back rs. */
  lemma {:induction false} RoutesRoundTrip(rs: seq<Route>)
    requires forall k :: 0 <= k < |rs| ==> RouteOk(rs[k])
    ensures DecodeRoutes(RoutesBytes(rs)) == Some(rs)
  {
    if |rs| > 0 {
      var first, rest := RecordBytes(rs[0]), RoutesBytes(rs[1..]);
      RoutesRoundTrip(rs[1..]);
      RecordRoundTrip(rs[0]);
      DecodeRouteFront(first, rest);
      assert (first + rest)[EntrySize..] == rest;
      assert [rs[0]] + rs[1..] == rs;
    }
  }

  /** Decoding an advertisement gives back the sender id as the signed byte it was written as,
      and one entry per table entry: its destination and next hop re-rendered from their
      octets, its mask and cost unchanged. */
  lemma RipRoundTrip(roverID: int, table: seq<RoutingTableEntry>)
    requires RoutesOf(table, |table|).Some?
    ensures RipPacket(roverID, table).Some?
    ensures DecodeRip(RipPacket(roverID, table).value)
         == Some(RipEntryHolder(Entries(RoutesOf(table, |table|).value), ToByte(roverID)))
  {
    var rs := RoutesOf(table, |table|).value;
    RoutesRoundTrip(rs);
    assert (Header(roverID) + RoutesBytes(rs))[HeaderSize..] == RoutesBytes(rs);
  }

  /** Re-rendering a parsed entry gives the entry back exactly when both of its addresses are
      in canonical dotted-quad form. */
  lemma RenderParsed(e: RoutingTableEntry)
    requires RouteOf(e).Some?
    ensures EntryOf(RouteOf(e).value) == e <==> IsCanonical(e.ipAddress) && IsCanonical(e.nextHop)
  {
  }

  /** For canonical dotted-quad addresses and an id in -128..127 the round trip is exact. */
  lemma RipRoundTripExact(roverID: int, table: seq<RoutingTableEntry>)
    requires forall k :: 0 <= k < |table| ==> IsCanonical(table[k].ipAddress) && IsCanonical(table[k].nextHop)
    requires -128 <= roverID < 128
    ensures RipPacket(roverID, table).Some?
    ensures DecodeRip(RipPacket(roverID, table).value) == Some(RipEntryHolder(table, roverID))
  {
    assert RoutesOf(table, |table|).Some?;
    var rs := RoutesOf(table, |table|).value;
    RipRoundTrip(roverID, table);
    forall k | 0 <= k < |table| ensures Entries(rs)[k] == table[k] {
      RenderParsed(table[k]);
    }
    assert Entries(rs) == table;
  }

  /** The bytes after the header decode exactly when they are a whole number of 20-byte
      records, and then into one route per record. */
  lemma {:induction false} DecodeRoutesShape(b: seq<Byte>)
    ensures DecodeRoutes(b).Some? <==> |b| % EntrySize == 0
    ensures DecodeRoutes(b).Some? ==> EntrySize * |DecodeRoutes(b).value| == |b|
    decreases |b|
  {
    if |b| >= EntrySize {
      DecodeRoutesShape(b[EntrySize..]);
    }
  }

  /** `decodeRIPPacket` returns (rather than throwing) exactly when the packet is the 4-byte
      header plus whole 20-byte records; it then yields one entry per record, each with
      canonical dotted-quad addresses, and the fourth byte as the sender id. */
  lemma DecodeRipShape(p: seq<Byte>)
    ensures DecodeRip(p).Some? <==> |p| >= HeaderSize && (|p| - HeaderSize) % EntrySize == 0
    ensures DecodeRip(p).Some? ==> HeaderSize + EntrySize * |DecodeRip(p).value.entries| == |p|
    ensures DecodeRip(p).Some? ==> DecodeRip(p).value.roverID == p[3]
    ensures DecodeRip(p).Some? ==> forall k :: 0 <= k < |DecodeRip(p).value.entries| ==>
      IsCanonical(DecodeRip(p).value.entries[k].ipAddress) && IsCanonical(DecodeRip(p).value.entries[k].nextHop)
  {
    if |p| >= HeaderSize {
      DecodeRoutesShape(p[HeaderSize..]);
      if DecodeRip(p).Some? {
        var rs := DecodeRoutes(p[HeaderSize..]).value;
        forall k | 0 <= k < |rs|
          ensures IsCanonical(Entries(rs)[k].ipAddress) && IsCanonical(Entries(rs)[k].nextHop)
        {
          DottedIsCanonical(rs[k].ip);
          DottedIsCanonical(rs[k].nextHop);
        }
      }
    }
  }
}
