/** The distance-vector routing table of a rover (RFC 2453 style, with the RIP infinity of 16):
    `addSingleRoutingEntry`, `updateRoutingTable`, the lookups `findRoutingTableEntryForIp`,
    `getEntriesUsingIp` and `getCost`, and the body of the neighbour-timeout task. */
module Routing {
  import opened JavaBytes
  import opened Optional
  import opened Addresses
  import opened RipCodec

  /** `INFINITY`: the unreachable metric. */
  const Infinity: Byte := 16
  /** `DEFAULT_MASK`: the prefix length of every entry the rover creates. */
  const DefaultMask: Byte := 24

  /** A table after an operation, and the operation's `changed`/`updated` flag. */
  datatype Update = Update(table: seq<RoutingTableEntry>, changed: bool)

  /** `findRoutingTableEntryForIp`: the index of the first entry whose destination is ip,
      None for Java's null. */
  function FindEntry(table: seq<RoutingTableEntry>, ip: string): (r: Option<nat>)
    ensures r.Some? ==> r.value < |table| && table[r.value].ipAddress == ip
    ensures r.Some? ==> forall k :: 0 <= k < r.value ==> table[k].ipAddress != ip
    ensures r.None? <==> forall k :: 0 <= k < |table| ==> table[k].ipAddress != ip
  {
    if |table| == 0 then None
    else if table[0].ipAddress == ip then Some(0)
    else match FindEntry(table[1..], ip)
      case None => None
      case Some(k) => Some(k + 1)
  }

  /** The entry `findRoutingTableEntryForIp` returns. */
  function Lookup(table: seq<RoutingTableEntry>, ip: string): Option<RoutingTableEntry> {
    match FindEntry(table, ip)
    case None => None
    case Some(k) => Some(table[k])
  }

  /** `getCost`: the cost of a found entry, INFINITY for null. */
  function GetCost(entry: Option<RoutingTableEntry>): int {
    match entry
    case None => Infinity as int
    case Some(e) => e.cost as int
  }

  /** The index of the first entry for ip whose cost is not 1: the one
      `addSingleRoutingEntry` rewrites before it breaks out of its loop. */
  function FirstStale(table: seq<RoutingTableEntry>, ip: string): (r: Option<nat>)
    ensures r.Some? ==> r.value < |table| && table[r.value].ipAddress == ip && table[r.value].cost != 1
    ensures r.Some? ==> forall k :: 0 <= k < r.value ==> table[k].ipAddress != ip || table[k].cost == 1
    ensures r.None? <==> forall k :: 0 <= k < |table| ==> table[k].ipAddress != ip || table[k].cost == 1
  {
    if |table| == 0 then None
    else if table[0].ipAddress == ip && table[0].cost != 1 then Some(0)
    else match FirstStale(table[1..], ip)
      case None => None
      case Some(k) => Some(k + 1)
  }

  /** `getEntriesUsingIp` over the first n entries: the indices, in table order, of the entries
      whose next hop is ip. */
  function UsingIp(table: seq<RoutingTableEntry>, ip: string, n: nat): (r: seq<nat>)
    requires n <= |table|
    ensures forall a :: 0 <= a < |r| ==> r[a] < n && table[r[a]].nextHop == ip
    ensures forall a, b :: 0 <= a < b < |r| ==> r[a] < r[b]
    ensures forall k :: 0 <= k < n && table[k].nextHop == ip ==> k in r
  {
    if n == 0 then []
    else UsingIp(table, ip, n - 1) + (if table[n - 1].nextHop == ip then [n - 1] else [])
  }

  /** What `addSingleRoutingEntry(receivedRoverId, ..)` does to the table of rover roverID,
      nextHop being the sender's host address. */
  function AddSingle(table: seq<RoutingTableEntry>, roverID: int, receivedRoverId: int, nextHop: string): Update {
    if receivedRoverId == roverID then Update(table, false)
    else
      var ip := PrivateIP(receivedRoverId);
      match FirstStale(table, ip)
      case Some(k) => Update(table[k := table[k].(nextHop := nextHop, cost := 1)], true)
      case None =>
        if FindEntry(table, ip).Some? then Update(table, false)
        else Update(table + [RoutingTableEntry(ip, DefaultMask, nextHop, 1)], true)
  }

  function Min(a: int, b: int): int {
    if a < b then a else b
  }

  /** The cost `updateRoutingTable` computes from a received cost: `(byte) (cost + 1)`, capped
      at INFINITY. */
  function RelaxedCost(received: Byte): (c: Byte)
    ensures c <= Infinity
    ensures received < 127 ==> c == Min(received + 1, Infinity as int)
    ensures received == 127 ==> c == -128
    ensures received < 0 ==> c == received + 1 && c < 1
  {
    var cost := ToByte(received + 1);
    if cost > Infinity then Infinity else cost
  }

  /** One iteration of `updateRoutingTable`'s loop: the received entry r from senderIp, at the
      rover roverID whose own address is selfIP. The id of r is the third field of its address. */
  function Relax(table: seq<RoutingTableEntry>, roverID: int, selfIP: string, senderIp: string, r: RoutingTableEntry): Update
    requires ParseAddress(r.ipAddress).Some?
  {
    var id := AddressId(r.ipAddress);
    if id == roverID then Update(table, false)
    else
      var cost := RelaxedCost(r.cost);
      match FindEntry(table, r.ipAddress)
      case None => Update(table + [RoutingTableEntry(PrivateIP(id), DefaultMask, senderIp, cost)], true)
      case Some(k) =>
        if r.nextHop == selfIP then Update(table, false)  // split horizon
        else if cost < table[k].cost then Update(table[k := table[k].(nextHop := senderIp, cost := cost)], true)
        else if senderIp == table[k].nextHop && table[k].cost != cost then Update(table[k := table[k].(cost := cost)], true)
        else Update(table, false)
  }

  predicate Parsable(received: seq<RoutingTableEntry>) {
    forall j :: 0 <= j < |received| ==> ParseAddress(received[j].ipAddress).Some?
  }

  /** The flag of a later part of the loop combined with the flag set so far. */
  function Then(changed: bool, u: Update): (r: Update)
    ensures r.table == u.table && (r.changed <==> changed || u.changed)
  {
    Update(u.table, changed || u.changed)
  }

  /** `updateRoutingTable` over the received entries, in order; the flag is set when any
      iteration set it. */
  function UpdateAll(table: seq<RoutingTableEntry>, roverID: int, selfIP: string, senderIp: string,
                     received: seq<RoutingTableEntry>): Update
    requires Parsable(received)
    decreases |received|
  {
    if |received| == 0 then Update(table, false)
    else
      var step := Relax(table, roverID, selfIP, senderIp, received[0]);
      Then(step.changed, UpdateAll(step.table, roverID, selfIP, senderIp, received[1..]))
  }

  /** Entries whose next hop is ip, with their cost set to INFINITY. */
  function PoisonVia(table: seq<RoutingTableEntry>, ip: string): (r: seq<RoutingTableEntry>)
    ensures |r| == |table|
    ensures forall k :: 0 <= k < |table| ==> r[k] == if table[k].nextHop == ip then table[k].(cost := Infinity) else table[k]
  {
    if |table| == 0 then []
    else [if table[0].nextHop == ip then table[0].(cost := Infinity) else table[0]] + PoisonVia(table[1..], ip)
  }

  /** The timeout task for neighbour neighbourIp, whose rover id is neighbourId; None when
      there is no entry for it (the task dies on a NullPointerException before changing anything). */
  function Poison(table: seq<RoutingTableEntry>, neighbourId: int, neighbourIp: string): Option<seq<RoutingTableEntry>> {
    match FindEntry(table, PrivateIP(neighbourId))
    case None => None
    case Some(k) => Some(PoisonVia(table[k := table[k].(cost := Infinity)], neighbourIp))
  }

  // Table invariants

  predicate CostsInRange(table: seq<RoutingTableEntry>) {
    forall k :: 0 <= k < |table| ==> 1 <= table[k].cost <= Infinity
  }

  predicate NoOwnEntry(table: seq<RoutingTableEntry>, roverID: int) {
    forall k :: 0 <= k < |table| ==> table[k].ipAddress != PrivateIP(roverID)
  }

  predicate UniqueDestinations(table: seq<RoutingTableEntry>) {
    forall i, j :: 0 <= i < j < |table| ==> table[i].ipAddress != table[j].ipAddress
  }

  /** Every received cost is in 0..126: `(byte) (cost + 1)` does not wrap, and is at least 1. */
  predicate ReceivedCosts(received: seq<RoutingTableEntry>) {
    forall j :: 0 <= j < |received| ==> 0 <= received[j].cost < 127
  }

  /** Every received address is a rover's private address. */
  predicate RoverAddresses(received: seq<RoutingTableEntry>) {
    forall j :: 0 <= j < |received| ==> IsRoverAddress(received[j].ipAddress)
  }

  /** The rover's routing table (`routingTable`, with the rover's `roverID` and `selfIP`). */
  class RoutingTable {
    var table: seq<RoutingTableEntry>
    const roverID: int
    const selfIP: string

    constructor (roverID: int, selfIP: string)
      ensures table == [] && this.roverID == roverID && this.selfIP == selfIP
    {
      table := [];
      this.roverID := roverID;
      this.selfIP := selfIP;
    }

    /** `findRoutingTableEntryForIp`. */
    method FindRoutingTableEntryForIp(ip: string) returns (r: Option<nat>)
      ensures r == FindEntry(table, ip)
    {
      var k := 0;
      while k < |table|
        invariant 0 <= k <= |table|
        invariant forall j :: 0 <= j < k ==> table[j].ipAddress != ip
      {
        if table[k].ipAddress == ip {
          FindIsFirst(table, ip, k);
          return Some(k);
        }
        k := k + 1;
      }
      FindAbsent(table, ip);
      return None;
    }

    /** `getEntriesUsingIp`: the indices of the entries whose next hop is ip. */
    method GetEntriesUsingIp(ip: string) returns (indices: seq<nat>)
      ensures indices == UsingIp(table, ip, |table|)
    {
      indices := [];
      var k := 0;
      while k < |table|
        invariant 0 <= k <= |table|
        invariant indices == UsingIp(table, ip, k)
      {
        if table[k].nextHop == ip {
          indices := indices + [k];
        }
        k := k + 1;
      }
    }

    /** `addSingleRoutingEntry`: the sender of a RIP message is a direct neighbour at cost 1. */
    method AddSingleRoutingEntry(receivedRoverId: int, nextHop: string) returns (changed: bool)
      modifies this
      ensures Update(table, changed) == AddSingle(old(table), roverID, receivedRoverId, nextHop)
    {
      if receivedRoverId == roverID {
        return false;
      }
      var ipToAdd := PrivateIP(receivedRoverId);
      var presentInTable := false;
      changed := false;
      var k := 0;
      while k < |table|
        invariant 0 <= k <= |table| && table == old(table) && !changed
        invariant presentInTable <==> exists j :: 0 <= j < k && table[j].ipAddress == ipToAdd
        invariant forall j :: 0 <= j < k ==> table[j].ipAddress != ipToAdd || table[j].cost == 1
      {
        if table[k].ipAddress == ipToAdd {
          presentInTable := true;
          if table[k].cost != 1 {
            StaleIsFirst(table, ipToAdd, k);
            table := table[k := table[k].(nextHop := nextHop, cost := 1)];
            changed := true;
            break;
          }
        }
        k := k + 1;
      }
      if !changed {
        StaleAbsent(table, ipToAdd);
        PresentIff(table, ipToAdd);
      }
      if !presentInTable {
        table := table + [RoutingTableEntry(ipToAdd, DefaultMask, nextHop, 1)];
        changed := true;
      }
    }

    /** The body of `updateRoutingTable`'s loop for one received entry r. */
    method RelaxEntry(r: RoutingTableEntry, senderIp: string) returns (updated: bool)
      requires ParseAddress(r.ipAddress).Some?
      modifies this
      ensures Update(table, updated) == Relax(old(table), roverID, selfIP, senderIp, r)
    {
      updated := false;
      var id := AddressId(r.ipAddress);
      var found := FindRoutingTableEntryForIp(r.ipAddress);
      if id != roverID {
        var cost := ToByte(r.cost + 1);
        if cost > Infinity {
          cost := Infinity;
        }
        if found.None? {
          var localIP := PrivateIP(id);
          table := table + [RoutingTableEntry(localIP, DefaultMask, senderIp, cost)];
          return true;
        }
        var k := found.value;
        if r.nextHop == selfIP {
          return false;
        }
        if cost as int < GetCost(Some(table[k])) {
          table := table[k := table[k].(nextHop := senderIp, cost := cost)];
          updated := true;
        } else {
          if senderIp == table[k].nextHop {
            if table[k].cost != cost {
              table := table[k := table[k].(cost := cost)];
              updated := true;
            }
          }
        }
      }
    }

    /** `updateRoutingTable`: every received entry in order; `updated` is the triggered-update
        flag. */
    method UpdateRoutingTable(receivedTable: seq<RoutingTableEntry>, senderIp: string) returns (updated: bool)
      requires Parsable(receivedTable)
      modifies this
      ensures Update(table, updated) == UpdateAll(old(table), roverID, selfIP, senderIp, receivedTable)
    {
      updated := false;
      var n := 0;
      assert receivedTable[0..] == receivedTable;
      while n < |receivedTable|
        invariant 0 <= n <= |receivedTable|
        invariant UpdateAll(old(table), roverID, selfIP, senderIp, receivedTable)
          == Then(updated, UpdateAll(table, roverID, selfIP, senderIp, receivedTable[n..]))
      {
        assert receivedTable[n..][1..] == receivedTable[n + 1..];
        var step := RelaxEntry(receivedTable[n], senderIp);
        updated := updated || step;
        n := n + 1;
      }
    }

    /** The timeout task of neighbour neighbourIp (rover id neighbourId): its own entry and
        every entry routed through it become unreachable. ok is false for the
        NullPointerException when there is no entry for it, which leaves the table as it was. */
    method PoisonNeighbour(neighbourId: int, neighbourIp: string) returns (ok: bool)
      modifies this
      ensures ok == Poison(old(table), neighbourId, neighbourIp).Some?
      ensures ok ==> table == Poison(old(table), neighbourId, neighbourIp).value
      ensures !ok ==> table == old(table)
    {
      var localIP := PrivateIP(neighbourId);
      var found := FindRoutingTableEntryForIp(localIP);
      if found.None? {
        return false;
      }
      table := table[found.value := table[found.value].(cost := Infinity)];
      ghost var marked := table;
      var indices := GetEntriesUsingIp(neighbourIp);
      var m := 0;
      while m < |indices|
        invariant 0 <= m <= |indices| && |table| == |marked|
        invariant forall k :: 0 <= k < |marked| ==>
          table[k] == if k in indices[..m] then marked[k].(cost := Infinity) else marked[k]
      {
        PrefixSnoc(indices, m);
        table := table[indices[m] := table[indices[m]].(cost := Infinity)];
        m := m + 1;
      }
      PoisonedAll(marked, neighbourIp, indices, table);
      ok := true;
    }
  }

  lemma PrefixSnoc(s: seq<nat>, m: nat)
    requires m < |s|
    ensures s[..m + 1] == s[..m] + [s[m]]
  {
  }

  /** Setting the cost at exactly the `getEntriesUsingIp` indices is PoisonVia. */
  lemma PoisonedAll(marked: seq<RoutingTableEntry>, ip: string, indices: seq<nat>, table: seq<RoutingTableEntry>)
    requires indices == UsingIp(marked, ip, |marked|) && |table| == |marked|
    requires forall k :: 0 <= k < |marked| ==>
      table[k] == if k in indices[..|indices|] then marked[k].(cost := Infinity) else marked[k]
    ensures table == PoisonVia(marked, ip)
  {
    assert indices[..|indices|] == indices;
    var p := PoisonVia(marked, ip);
    forall k | 0 <= k < |marked| ensures table[k] == p[k] {
      assert k in indices <==> marked[k].nextHop == ip;
    }
  }

  lemma FindIsFirst(table: seq<RoutingTableEntry>, ip: string, k: nat)
    requires k < |table| && table[k].ipAddress == ip
    requires forall j :: 0 <= j < k ==> table[j].ipAddress != ip
    ensures FindEntry(table, ip) == Some(k)
  {
    var r := FindEntry(table, ip);
    assert r.Some?;
    assert !(r.value < k) && !(k < r.value);
  }

  lemma FindAbsent(table: seq<RoutingTableEntry>, ip: string)
    requires forall j :: 0 <= j < |table| ==> table[j].ipAddress != ip
    ensures FindEntry(table, ip) == None
  {
  }

  lemma StaleIsFirst(table: seq<RoutingTableEntry>, ip: string, k: nat)
    requires k < |table| && table[k].ipAddress == ip && table[k].cost != 1
    requires forall j :: 0 <= j < k ==> table[j].ipAddress != ip || table[j].cost == 1
    ensures FirstStale(table, ip) == Some(k)
  {
    var r := FirstStale(table, ip);
    assert r.Some?;
    assert !(r.value < k) && !(k < r.value);
  }

  lemma StaleAbsent(table: seq<RoutingTableEntry>, ip: string)
    requires forall j :: 0 <= j < |table| ==> table[j].ipAddress != ip || table[j].cost == 1
    ensures FirstStale(table, ip) == None
  {
  }

  lemma PresentIff(table: seq<RoutingTableEntry>, ip: string)
    ensures FindEntry(table, ip).Some? <==> exists j :: 0 <= j < |table| && table[j].ipAddress == ip
  {
  }

  /** Tables whose entries keep their destinations and are no shorter find an address where
      the original did. */
  lemma FindSameDestinations(table: seq<RoutingTableEntry>, table': seq<RoutingTableEntry>, ip: string)
    requires |table| == |table'|
    requires forall k :: 0 <= k < |table| ==> table'[k].ipAddress == table[k].ipAddress
    ensures FindEntry(table', ip) == FindEntry(table, ip)
  {
    match FindEntry(table, ip)
    case None => FindAbsent(table', ip);
    case Some(k) => FindIsFirst(table', ip, k);
  }

  lemma FindAppended(table: seq<RoutingTableEntry>, e: RoutingTableEntry)
    requires FindEntry(table, e.ipAddress).None?
    ensures FindEntry(table + [e], e.ipAddress) == Some(|table|)
  {
    FindIsFirst(table + [e], e.ipAddress, |table|);
  }

  /** `addSingleRoutingEntry` ignores the rover's own id; otherwise afterwards the first entry
      for "10.0.id.0" has cost 1, an entry already at cost 1 is untouched (next hop included),
      an entry is appended exactly when none exists, and the `changed` flag is set exactly when
      the table changes. */
  lemma AddSingleProperties(table: seq<RoutingTableEntry>, roverID: int, receivedRoverId: int, nextHop: string)
    ensures receivedRoverId == roverID ==> AddSingle(table, roverID, receivedRoverId, nextHop) == Update(table, false)
    ensures receivedRoverId != roverID ==>
      var t := AddSingle(table, roverID, receivedRoverId, nextHop).table;
      FindEntry(t, PrivateIP(receivedRoverId)).Some? && t[FindEntry(t, PrivateIP(receivedRoverId)).value].cost == 1
    ensures forall k :: 0 <= k < |table| && table[k].cost == 1 ==>
      AddSingle(table, roverID, receivedRoverId, nextHop).table[k] == table[k]
    ensures |AddSingle(table, roverID, receivedRoverId, nextHop).table|
         == if receivedRoverId != roverID && FindEntry(table, PrivateIP(receivedRoverId)).None? then |table| + 1 else |table|
    ensures forall k :: 0 <= k < |table| ==>
      var e := AddSingle(table, roverID, receivedRoverId, nextHop).table[k];
      e == table[k] || (table[k].ipAddress == PrivateIP(receivedRoverId) && e == table[k].(nextHop := nextHop, cost := 1))
    ensures AddSingle(table, roverID, receivedRoverId, nextHop).changed
        <==> AddSingle(table, roverID, receivedRoverId, nextHop).table != table
  {
    if receivedRoverId != roverID {
      var ip := PrivateIP(receivedRoverId);
      var t := AddSingle(table, roverID, receivedRoverId, nextHop).table;
      match FirstStale(table, ip)
      case Some(k) =>
        FindSameDestinations(table, t, ip);
        assert t[k] != table[k];
      case None =>
        if FindEntry(table, ip).None? {
          FindAppended(table, RoutingTableEntry(ip, DefaultMask, nextHop, 1));
          assert |t| != |table|;
        }
    }
  }

  /** `addSingleRoutingEntry` keeps every cost in 1..16. */
  lemma AddSingleKeepsCosts(table: seq<RoutingTableEntry>, roverID: int, receivedRoverId: int, nextHop: string)
    requires CostsInRange(table)
    ensures CostsInRange(AddSingle(table, roverID, receivedRoverId, nextHop).table)
  {
    AddSingleProperties(table, roverID, receivedRoverId, nextHop);
  }

  /** `addSingleRoutingEntry` never adds the rover's own address. */
  lemma AddSingleKeepsNoOwnEntry(table: seq<RoutingTableEntry>, roverID: int, receivedRoverId: int, nextHop: string)
    requires NoOwnEntry(table, roverID)
    ensures NoOwnEntry(AddSingle(table, roverID, receivedRoverId, nextHop).table, roverID)
  {
    AddSingleProperties(table, roverID, receivedRoverId, nextHop);
    if receivedRoverId != roverID && PrivateIP(roverID) == PrivateIP(receivedRoverId) {
      PrivateIPInjective(roverID, receivedRoverId);
    }
  }

  /** `addSingleRoutingEntry` never adds a second entry for a destination. */
  lemma AddSingleKeepsUnique(table: seq<RoutingTableEntry>, roverID: int, receivedRoverId: int, nextHop: string)
    requires UniqueDestinations(table)
    ensures UniqueDestinations(AddSingle(table, roverID, receivedRoverId, nextHop).table)
  {
    AddSingleProperties(table, roverID, receivedRoverId, nextHop);
  }

  /** One iteration of `updateRoutingTable`: the rover's own id is skipped; otherwise an entry
      is appended only when `findRoutingTableEntryForIp` finds none, no destination or mask
      changes, only the entry found for the received address can change, and the `updated`
      flag is set exactly when the table changes. An absent destination of another rover is
      appended from the sender at the relaxed cost whatever its next hop, since the lookup
      comes before the split-horizon test. */
  lemma RelaxShape(table: seq<RoutingTableEntry>, roverID: int, selfIP: string, senderIp: string, r: RoutingTableEntry)
    requires ParseAddress(r.ipAddress).Some?
    ensures AddressId(r.ipAddress) == roverID ==> Relax(table, roverID, selfIP, senderIp, r) == Update(table, false)
    ensures var t := Relax(table, roverID, selfIP, senderIp, r).table;
      |t| == |table| ||
      (|t| == |table| + 1 && FindEntry(table, r.ipAddress).None? && AddressId(r.ipAddress) != roverID &&
       t[|table|] == RoutingTableEntry(PrivateIP(AddressId(r.ipAddress)), DefaultMask, senderIp, RelaxedCost(r.cost)))
    ensures forall k :: 0 <= k < |table| ==>
      var e := Relax(table, roverID, selfIP, senderIp, r).table[k];
      e.ipAddress == table[k].ipAddress && e.mask == table[k].mask
    ensures forall k :: 0 <= k < |table| && table[k].ipAddress != r.ipAddress ==>
      Relax(table, roverID, selfIP, senderIp, r).table[k] == table[k]
    ensures FindEntry(table, r.ipAddress).None? && AddressId(r.ipAddress) != roverID ==>
      Relax(table, roverID, selfIP, senderIp, r)
        == Update(table + [RoutingTableEntry(PrivateIP(AddressId(r.ipAddress)), DefaultMask, senderIp, RelaxedCost(r.cost))], true)
    ensures Relax(table, roverID, selfIP, senderIp, r).changed <==> Relax(table, roverID, selfIP, senderIp, r).table != table
  {
    var u := Relax(table, roverID, selfIP, senderIp, r);
    if AddressId(r.ipAddress) != roverID {
      match FindEntry(table, r.ipAddress)
      case None => assert |u.table| != |table|;
      case Some(k) => if u.changed { assert u.table[k] != table[k]; }
    }
  }

  /** The relaxation rules of one iteration, for the entry e found for the received address:
      a received route through this rover (split horizon) changes nothing; e's next hop changes
      only to the sender and only for a strictly lower cost; e's cost rises only when the
      sender already is its next hop. */
  lemma RelaxRules(table: seq<RoutingTableEntry>, roverID: int, selfIP: string, senderIp: string, r: RoutingTableEntry)
    requires ParseAddress(r.ipAddress).Some?
    requires FindEntry(table, r.ipAddress).Some?
    ensures r.nextHop == selfIP ==> Relax(table, roverID, selfIP, senderIp, r) == Update(table, false)
    ensures var k := FindEntry(table, r.ipAddress).value;
      var e := Relax(table, roverID, selfIP, senderIp, r).table[k];
      e.nextHop != table[k].nextHop ==> e.nextHop == senderIp && e.cost == RelaxedCost(r.cost) && e.cost < table[k].cost
    ensures var k := FindEntry(table, r.ipAddress).value;
      var e := Relax(table, roverID, selfIP, senderIp, r).table[k];
      e.cost > table[k].cost ==> table[k].nextHop == senderIp && e.cost == RelaxedCost(r.cost)
    ensures var k := FindEntry(table, r.ipAddress).value;
      var e := Relax(table, roverID, selfIP, senderIp, r).table[k];
      e.cost != table[k].cost && AddressId(r.ipAddress) != roverID ==> e.cost == RelaxedCost(r.cost)
  {
  }

  /** One iteration never adds the rover's own address. */
  lemma RelaxKeepsNoOwnEntry(table: seq<RoutingTableEntry>, roverID: int, selfIP: string, senderIp: string, r: RoutingTableEntry)
    requires ParseAddress(r.ipAddress).Some? && NoOwnEntry(table, roverID)
    ensures NoOwnEntry(Relax(table, roverID, selfIP, senderIp, r).table, roverID)
  {
    var id := AddressId(r.ipAddress);
    RelaxShape(table, roverID, selfIP, senderIp, r);
    if id != roverID && PrivateIP(id) == PrivateIP(roverID) {
      PrivateIPInjective(id, roverID);
    }
  }

  /** One iteration keeps costs in 1..16 when the received cost is in 0..126. */
  lemma RelaxKeepsCosts(table: seq<RoutingTableEntry>, roverID: int, selfIP: string, senderIp: string, r: RoutingTableEntry)
    requires ParseAddress(r.ipAddress).Some? && CostsInRange(table) && 0 <= r.cost < 127
    ensures CostsInRange(Relax(table, roverID, selfIP, senderIp, r).table)
  {
    RelaxShape(table, roverID, selfIP, senderIp, r);
  }

  /** The decoder reads a cost as a signed byte; a negative one for an absent destination is
      adopted below 1, so the table leaves 1..16. */
  lemma RelaxNegativeCost(table: seq<RoutingTableEntry>, roverID: int, selfIP: string, senderIp: string, r: RoutingTableEntry)
    requires ParseAddress(r.ipAddress).Some? && r.cost < 0
    requires FindEntry(table, r.ipAddress).None? && AddressId(r.ipAddress) != roverID
    ensures !CostsInRange(Relax(table, roverID, selfIP, senderIp, r).table)
  {
    RelaxShape(table, roverID, selfIP, senderIp, r);
    var t := Relax(table, roverID, selfIP, senderIp, r).table;
    assert t[|table|].cost == RelaxedCost(r.cost) < 1;
  }

  /** One iteration never adds a second entry for a destination when the received address is
      canonical, since the lookup key is then the address it appends. */
  lemma RelaxKeepsUnique(table: seq<RoutingTableEntry>, roverID: int, selfIP: string, senderIp: string, r: RoutingTableEntry)
    requires IsRoverAddress(r.ipAddress) && UniqueDestinations(table)
    ensures UniqueDestinations(Relax(table, roverID, selfIP, senderIp, r).table)
  {
    RelaxShape(table, roverID, selfIP, senderIp, r);
  }

  /** An invariant of the tables that every iteration keeps is kept by `updateRoutingTable`. */
  lemma {:induction false} UpdateAllKeepsInvariant(inv: seq<RoutingTableEntry> -> bool, table: seq<RoutingTableEntry>, roverID: int,
                                                   selfIP: string, senderIp: string, received: seq<RoutingTableEntry>)
    requires Parsable(received) && inv(table)
    requires forall t, j :: 0 <= j < |received| && inv(t) ==> inv(Relax(t, roverID, selfIP, senderIp, received[j]).table)
    ensures inv(UpdateAll(table, roverID, selfIP, senderIp, received).table)
    decreases |received|
  {
    if |received| > 0 {
      var step := Relax(table, roverID, selfIP, senderIp, received[0]);
      var rest := received[1..];
      forall t, j | 0 <= j < |rest| && inv(t)
        ensures inv(Relax(t, roverID, selfIP, senderIp, rest[j]).table)
      {
        assert rest[j] == received[j + 1];
      }
      UpdateAllKeepsInvariant(inv, step.table, roverID, selfIP, senderIp, rest);
    }
  }

  /** `updateRoutingTable` never adds the rover's own address. */
  lemma UpdateAllKeepsNoOwnEntry(table: seq<RoutingTableEntry>, roverID: int, selfIP: string, senderIp: string,
                                 received: seq<RoutingTableEntry>)
    requires Parsable(received) && NoOwnEntry(table, roverID)
    ensures NoOwnEntry(UpdateAll(table, roverID, selfIP, senderIp, received).table, roverID)
  {
    forall t, j | 0 <= j < |received| && NoOwnEntry(t, roverID)
      ensures NoOwnEntry(Relax(t, roverID, selfIP, senderIp, received[j]).table, roverID)
    {
      RelaxKeepsNoOwnEntry(t, roverID, selfIP, senderIp, received[j]);
    }
    UpdateAllKeepsInvariant(t => NoOwnEntry(t, roverID), table, roverID, selfIP, senderIp, received);
  }

  /** `updateRoutingTable` keeps costs in 1..16 when no received cost wraps. */
  lemma UpdateAllKeepsCosts(table: seq<RoutingTableEntry>, roverID: int, selfIP: string, senderIp: string,
                            received: seq<RoutingTableEntry>)
    requires Parsable(received) && ReceivedCosts(received) && CostsInRange(table)
    ensures CostsInRange(UpdateAll(table, roverID, selfIP, senderIp, received).table)
  {
    forall t, j | 0 <= j < |received| && CostsInRange(t)
      ensures CostsInRange(Relax(t, roverID, selfIP, senderIp, received[j]).table)
    {
      RelaxKeepsCosts(t, roverID, selfIP, senderIp, received[j]);
    }
    UpdateAllKeepsInvariant(CostsInRange, table, roverID, selfIP, senderIp, received);
  }

  /** `updateRoutingTable` keeps at most one entry per destination when every received
      address is a rover's private address. */
  lemma UpdateAllKeepsUnique(table: seq<RoutingTableEntry>, roverID: int, selfIP: string, senderIp: string,
                             received: seq<RoutingTableEntry>)
    requires Parsable(received) && RoverAddresses(received) && UniqueDestinations(table)
    ensures UniqueDestinations(UpdateAll(table, roverID, selfIP, senderIp, received).table)
  {
    forall t, j | 0 <= j < |received| && UniqueDestinations(t)
      ensures UniqueDestinations(Relax(t, roverID, selfIP, senderIp, received[j]).table)
    {
      RelaxKeepsUnique(t, roverID, selfIP, senderIp, received[j]);
    }
    UpdateAllKeepsInvariant(UniqueDestinations, table, roverID, selfIP, senderIp, received);
  }

  /** `updateRoutingTable` removes nothing and changes no destination; an entry whose
      destination no received entry names is unchanged; and an unset `updated` flag (no
      triggered update) means an unchanged table. */
  lemma {:induction false} UpdateAllKeeps(table: seq<RoutingTableEntry>, roverID: int, selfIP: string, senderIp: string,
                                          received: seq<RoutingTableEntry>)
    requires Parsable(received)
    ensures |UpdateAll(table, roverID, selfIP, senderIp, received).table| >= |table|
    ensures forall k :: 0 <= k < |table| ==>
      UpdateAll(table, roverID, selfIP, senderIp, received).table[k].ipAddress == table[k].ipAddress
    ensures forall k :: 0 <= k < |table| && (forall j :: 0 <= j < |received| ==> received[j].ipAddress != table[k].ipAddress) ==>
      UpdateAll(table, roverID, selfIP, senderIp, received).table[k] == table[k]
    ensures !UpdateAll(table, roverID, selfIP, senderIp, received).changed ==>
      UpdateAll(table, roverID, selfIP, senderIp, received).table == table
    decreases |received|
  {
    if |received| > 0 {
      var step := Relax(table, roverID, selfIP, senderIp, received[0]);
      var rest := received[1..];
      RelaxShape(table, roverID, selfIP, senderIp, received[0]);
      UpdateAllKeeps(step.table, roverID, selfIP, senderIp, rest);
      var after := UpdateAll(step.table, roverID, selfIP, senderIp, rest);
      assert UpdateAll(table, roverID, selfIP, senderIp, received) == Then(step.changed, after);
      forall k | 0 <= k < |table| && (forall j :: 0 <= j < |received| ==> received[j].ipAddress != table[k].ipAddress)
        ensures after.table[k] == table[k]
      {
        assert received[0].ipAddress != table[k].ipAddress;
        forall j | 0 <= j < |rest|
          ensures rest[j].ipAddress != step.table[k].ipAddress
        {
          assert rest[j] == received[j + 1];
        }
      }
    }
  }

  /** The timeout task succeeds exactly when there is an entry for the neighbour's private
      address; it then keeps the length, sets that entry and every entry routed through the
      neighbour to cost 16, changes no other field, and leaves every other entry unchanged. */
  lemma PoisonProperties(table: seq<RoutingTableEntry>, neighbourId: int, neighbourIp: string)
    ensures Poison(table, neighbourId, neighbourIp).Some? <==> FindEntry(table, PrivateIP(neighbourId)).Some?
    ensures Poison(table, neighbourId, neighbourIp).Some? ==>
      var t, k := Poison(table, neighbourId, neighbourIp).value, FindEntry(table, PrivateIP(neighbourId)).value;
      |t| == |table| && t[k].cost == Infinity &&
      (forall j :: 0 <= j < |table| && table[j].nextHop == neighbourIp ==> t[j].cost == Infinity) &&
      (forall j :: 0 <= j < |table| && j != k && table[j].nextHop != neighbourIp ==> t[j] == table[j]) &&
      (forall j :: 0 <= j < |table| ==> t[j] == table[j] || t[j] == table[j].(cost := Infinity))
  {
  }

  /** The timeout task keeps the table invariants. */
  lemma PoisonKeepsInvariants(table: seq<RoutingTableEntry>, roverID: int, neighbourId: int, neighbourIp: string)
    requires Poison(table, neighbourId, neighbourIp).Some?
    ensures CostsInRange(table) ==> CostsInRange(Poison(table, neighbourId, neighbourIp).value)
    ensures NoOwnEntry(table, roverID) ==> NoOwnEntry(Poison(table, neighbourId, neighbourIp).value, roverID)
    ensures UniqueDestinations(table) ==> UniqueDestinations(Poison(table, neighbourId, neighbourIp).value)
  {
    PoisonProperties(table, neighbourId, neighbourIp);
  }

  /** `getCost` of a lookup in a table whose costs are in range is in 1..16, and 16 exactly
      when the destination is absent or unreachable. */
  lemma LookupCost(table: seq<RoutingTableEntry>, ip: string)
    requires CostsInRange(table)
    ensures 1 <= GetCost(Lookup(table, ip)) <= Infinity as int
    ensures FindEntry(table, ip).None? ==> GetCost(Lookup(table, ip)) == Infinity as int
    ensures FindEntry(table, ip).Some? ==> GetCost(Lookup(table, ip)) == table[FindEntry(table, ip).value].cost as int
  {
  }
}
