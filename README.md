# Ripcom rover core in Dafny

Ripcom is a Java simulation of "rovers". Each rover runs a RIP-v2-style distance-vector
routing protocol and a small stop-and-wait file transfer, also called Ripcom. This project
models the deterministic core of a rover and proves properties of that model. The core is:

- **The routing table** (module `Routing`), a class over a `seq` of `RoutingTableEntry`
  records:
  - `addSingleRoutingEntry` and `updateRoutingTable`, which relax costs with the RIP
    infinity of 16, apply split horizon and raise the triggered-update flag;
  - the lookups `findRoutingTableEntryForIp`, `getEntriesUsingIp` and `getCost`;
  - the body of the neighbour-timeout task, which poisons routes.
- **The RIP advertisement codec** (modules `RipCodec` and `Addresses`):
  - `getRIPPacket` writes the message layout of section 4 of RFC 2453. The second
    must-be-zero header byte carries the rover id;
  - `decodeRIPPacket`, `fillIPAddress`, `getIPAddressInStringForm` and `getPrivateIP`.
- **The Ripcom packet codec** exactly as `RipcomPacket`, `RipcomPacketManager` and
  `RipcomPacketUnpacker` write it (modules `RipcomPackets`, `RipcomManager` and
  `RipcomUnpacker`):
  - the `getBytes` encoder has five fields and a three-variant type;
  - the decoder reads the two addresses and the type byte;
  - the decoder takes every byte from offset 9 on as contents, so on an encoded packet
    the contents start with the four bytes of the number;
  - the destination-only reader.
- **The transport state of a rover** (module `Transport`), a class with:
  - the fields `ackNumber`, `seqNumber` and `lengthCounter`;
  - the window and the packet timers;
  - the output file and the input stream.

  The operations are `acceptPacket`, `addToWindow`, `stripContents`,
  `cancelTimerForPacket` and the accept-or-forward test of `udpServer`.
- **The command-line parser** `ArgumentParser.parseArguments` (module `Arguments`). It
  ends in one of three outcomes:
  - `Configured` with the rover fields;
  - `Exit` for `displayHelp`, which ends the program;
  - `Error` for the ArgumentException.

Java's fixed-width types are explicit:
- `byte` is the subset type `JavaBytes.Byte`, from -128 to 127.
- A `(byte)` cast wraps modulo 256.
- `Byte.toUnsignedInt` adds 256 to negative values.
- `(char) b` sign-extends.
- `int` is `Int32`, and `Integer.parseInt` accepts only values in the int range.

Where Java throws, the model returns `None` or `ok == false`. When a method throws part way
through, the ok-false state is the partial state the Java code leaves behind.

Facts about the Ripcom packet files that the model keeps:
- `RipcomPacket.getBytes` (`RipcomPacket.java`) writes no length field and no FIN_ACK code.
  Byte 8 is 1 for SEQ, 2 for ACK and 0 otherwise.
- `RipcomPacketManager.constructRipcomPacket` (`RipcomPacketManager.java`) never reads the
  number and calls a four-argument constructor, while `RipcomPacket` declares a five-field
  one. The decoded packet (`RipcomManager.ReceivedPacket`) therefore has four fields, and
  no full round trip is claimed.
- `Rover.java` builds a six-field packet and uses the four-variant `Type.java`. That packet
  is the one in module `Transport`.

## Model

| member | source | states |
|---|---|---|
| JavaBytes.ToByte | src/Rover.java:265 | The `(byte)` cast keeps the value modulo 256 and is the identity on -128..127. |
| JavaBytes.ToUnsigned | src/RipcomPacketManager.java:51 | `Byte.toUnsignedInt` gives a value in 0..255 that is the byte itself or the byte plus 256. |
| JavaBytes.UnsignedOfByte | src/Rover.java:372-376 | An octet written as a byte reads back unsigned as itself. |
| JavaBytes.ByteToChar | src/RipcomPacketManager.java:41 | `(char) b` is b for non-negative bytes and b + 65536 for negative ones (sign extension). |
| JavaBytes.BytesToChars | src/RipcomPacketManager.java:39-42 | One char per byte, position by position. |
| JavaBytes.CharsToBytes | src/RipcomPacket.java:89 | One byte per char, position by position. |
| JavaBytes.AsciiRoundTrip | src/RipcomPacket.java:89-92 | 7-bit text survives `getBytes` followed by `(char)` casts. |
| JavaBytes.BigEndian32 | src/RipcomPacket.java:84 | `ByteBuffer.putInt` yields exactly four bytes. |
| JavaBytes.BigEndianRoundTrip | src/RipcomPacket.java:84-87 | The four big-endian two's-complement bytes of an int determine it again. |
| Decimal.IntToString | src/RipcomPacketManager.java:52 | The decimal rendering of an int is non-empty, has no '.', and is all digits for non-negative ints. |
| Decimal.ParseDecimalOfInt | src/RipcomPacketManager.java:52 | A non-negative int's rendering reads back as that int. |
| Decimal.IntToStringInjective | src/RipcomPacketManager.java:52 | Different ints render differently. |
| Decimal.ParseIntOfString | src/ArgumentParser.java:47 | `Integer.parseInt` reads back the rendering of every Java int. |
| Decimal.FlagIsNotInt | src/ArgumentParser.java:47 | A '-' followed by a non-digit is not a number, so a flag is never taken as an int value. |
| Addresses.ParseAddress | src/Rover.java:276 | The literal address parse yields four octets in 0..255, or fails. |
| Addresses.OctetsRoundTrip | src/Rover.java:276-280 | The bytes of parsed octets read back unsigned give the octets. |
| Addresses.IPAddressInStringForm | src/Rover.java:384-392 | The loop's string is the values joined by '.' with no trailing dot. |
| Addresses.ParseDotted | src/Rover.java:384-392 | The literal parse inverts the rendering of every octet quadruple. |
| Addresses.DottedInjective | src/Rover.java:384-392 | Distinct octet quadruples render as distinct strings. |
| Addresses.DottedIsCanonical | src/Rover.java:384-392 | A rendering is the canonical form of the octets it parses to. |
| Addresses.DotCountDotted | src/Rover.java:384-392 | n rendered values hold exactly n - 1 dots. |
| Addresses.SplitDotted | src/Rover.java:384-392 | Cutting a rendering at its dots gives the renderings of the values. |
| Addresses.PrivateIPIsDotted | src/Rover.java:468-470 | For ids in 0..255, "10.0.id.0" is the canonical dotted quad [10, 0, id, 0], its third field reads back as id, and it is a rover address. |
| Addresses.PrivateIPInjective | src/Rover.java:468-470 | Different rover ids give different private addresses. |
| RipCodec.RouteOf | src/Rover.java:275-296 | A route resolved from an entry keeps its mask and cost and has octet addresses. |
| RipCodec.RouteBytes | src/Rover.java:268-299 | The loop body appends the 20-byte record of the entry, or fails when an address does not resolve. |
| RipCodec.GetRIPPacket | src/Rover.java:249-310 | The advertisement is the header followed by every entry's record, in table order; None on an UnknownHostException. |
| RipCodec.RipPacketLayout | src/Rover.java:252-299 | The header is [1, 2, 0, (byte) roverID], followed by exactly 20 bytes per entry, with entry k's record at offset 4 + 20k. |
| RipCodec.FillIPAddress | src/Rover.java:372-376 | The array afterwards holds the four bytes from i, read unsigned. |
| RipCodec.DecodeRecord | src/Rover.java:331-356 | One pass of the loop yields the entry of the 20-byte record at i and moves i on by 20. |
| RipCodec.DecodeRIPPacket | src/Rover.java:320-362 | The decoder returns the id read as a signed byte and the entries of the following records; it throws (None) on a partial record. |
| RipCodec.DecodeRoute | src/Rover.java:337-354 | The route read from 20 bytes has octet addresses. |
| RipCodec.RecordRoundTrip | src/Rover.java:268-354 | The decoder reads back the octets, mask and cost that a record was written with. |
| RipCodec.RoutesRoundTrip | src/Rover.java:266-361 | Decoding the records of a route list gives the list back. |
| RipCodec.RipRoundTrip | src/Rover.java:249-362 | Decoding an advertisement returns each entry's re-rendered addresses, mask and cost in order, and the id as the signed byte it was written as. |
| RipCodec.RenderParsed | src/Rover.java:342-352 | Re-rendering a parsed entry gives it back exactly when both of its addresses are canonical. |
| RipCodec.RipRoundTripExact | src/Rover.java:249-362 | For canonical addresses and an id in -128..127, decoding the advertisement gives back exactly the table and the id. |
| RipCodec.DecodeRoutesShape | src/Rover.java:330-361 | The bytes after the header decode exactly when their length is a multiple of 20, one entry per 20 bytes. |
| RipCodec.DecodeRipShape | src/Rover.java:320-362 | The decoder succeeds exactly when (length - 4) is a non-negative multiple of 20. The id is byte 3, and every decoded address is canonical. |
| Routing.FindEntry | src/Rover.java:569-576 | The lookup returns the first entry whose destination is ip, and fails exactly when none has it. |
| Routing.FirstStale | src/Rover.java:438-447 | The first entry for ip whose cost is not 1, and absent exactly when there is none. |
| Routing.UsingIp | src/Rover.java:584-592 | Exactly the table positions whose next hop is ip, in increasing order. |
| Routing.RelaxedCost | src/Rover.java:511-515 | The new cost is min(received + 1, 16) for received costs below 127, and -128 when `(byte) (127 + 1)` wraps. A negative received cost gives received + 1, below 1. |
| Routing.PoisonVia | src/Rover.java:229-233 | Entries whose next hop is the neighbour get cost 16; all others are unchanged. |
| Routing.RoutingTable.constructor | src/Rover.java:70-73 | A new table is empty and keeps the rover id and address. |
| Routing.RoutingTable.FindRoutingTableEntryForIp | src/Rover.java:569-576 | The loop finds the first entry for ip, or none. |
| Routing.RoutingTable.GetEntriesUsingIp | src/Rover.java:584-592 | The loop collects the entries routed through ip, in table order. |
| Routing.RoutingTable.AddSingleRoutingEntry | src/Rover.java:428-460 | The new table and the changed flag are those of the specification `AddSingle`. |
| Routing.RoutingTable.RelaxEntry | src/Rover.java:506-551 | One loop iteration changes the table and the flag as `Relax` says. |
| Routing.RoutingTable.UpdateRoutingTable | src/Rover.java:501-561 | The whole loop changes the table and the updated flag as `UpdateAll` says. |
| Routing.RoutingTable.PoisonNeighbour | src/Rover.java:227-233 | The timeout task poisons the neighbour's entry and every entry routed through it. With no entry for the neighbour it throws, leaving the table unchanged. |
| Routing.FindIsFirst | src/Rover.java:569-576 | The first position holding ip is what the lookup finds. |
| Routing.PresentIff | src/Rover.java:569-576 | The lookup succeeds exactly when some entry has the destination. |
| Routing.FindAppended | src/Rover.java:454-458 | An entry appended for an absent destination is the one found afterwards. |
| Routing.AddSingleProperties | src/Rover.java:428-460 | No-op for the rover's own id. Otherwise afterwards the entry for "10.0.id.0" has cost 1. An entry at cost 1 is untouched, next hop included. A new entry is appended exactly when none exists. The flag is set exactly when the table changes. |
| Routing.AddSingleKeepsCosts | src/Rover.java:441-457 | Costs in 1..16 stay in 1..16. |
| Routing.AddSingleKeepsNoOwnEntry | src/Rover.java:430-432 | No entry for the rover's own id is ever added. |
| Routing.AddSingleKeepsUnique | src/Rover.java:454-458 | At most one entry per destination is kept. |
| Routing.RelaxShape | src/Rover.java:506-551 | Per received entry: the rover's own id changes nothing. An entry is appended only when the lookup finds none. Destinations and masks never change, and no entry for another destination changes. An absent destination of another rover is appended from the sender at the relaxed cost with the flag set, whatever its next hop, because the lookup comes before split horizon. The flag is set exactly when the table changes. |
| Routing.RelaxRules | src/Rover.java:517-551 | Split horizon (the received next hop is this rover) leaves an existing entry alone. A next hop changes only to the sender and only for a strictly lower cost. A cost rises only when the sender already is the next hop. |
| Routing.RelaxKeepsNoOwnEntry | src/Rover.java:510-520 | An iteration never adds the rover's own address. |
| Routing.RelaxKeepsCosts | src/Rover.java:511-549 | An iteration keeps costs in 1..16 when the received cost is in 0..126. |
| Routing.RelaxNegativeCost | src/Rover.java:511-523 | A negative received cost for an absent destination is appended below 1, so the table leaves 1..16. |
| Routing.RelaxKeepsUnique | src/Rover.java:509-520 | For a rover address, an iteration never adds a second entry for a destination. |
| Routing.UpdateAllKeepsInvariant | src/Rover.java:505-553 | A table invariant kept by every iteration is kept by the whole loop. |
| Routing.UpdateAllKeepsNoOwnEntry | src/Rover.java:501-561 | `updateRoutingTable` never adds the rover's own address. |
| Routing.UpdateAllKeepsCosts | src/Rover.java:501-561 | `updateRoutingTable` keeps every cost in 1..16 when the received costs are in 0..126. |
| Routing.UpdateAllKeepsUnique | src/Rover.java:501-561 | `updateRoutingTable` keeps one entry per destination when the received addresses are rover addresses. |
| Routing.UpdateAllKeeps | src/Rover.java:501-561 | Nothing is removed and no destination changes. Entries the received table does not name are unchanged. No triggered update means an unchanged table. |
| Routing.PoisonProperties | src/Rover.java:227-233 | The timeout task succeeds exactly when the neighbour's entry exists. It then sets that entry and every entry via the neighbour to 16, keeps the length, and changes nothing else. |
| Routing.PoisonKeepsInvariants | src/Rover.java:227-233 | Poisoning keeps costs in range, no own entry, and unique destinations. |
| Routing.LookupCost | src/Rover.java:605-607 | `getCost` of a lookup is the entry's cost, 16 when absent, and always in 1..16. |
| RipcomPackets.TypeCode | src/RipcomPacket.java:71-77 | The type byte is 1 exactly for SEQ, 2 exactly for ACK and 0 exactly for FIN. |
| RipcomPackets.Wire | src/RipcomPacket.java:59-69 | The encoding exists exactly when both addresses resolve. |
| RipcomPackets.AddAll | src/RipcomPacket.java:62-64 | A for-each loop appends every byte in order. |
| RipcomPackets.GetBytes | src/RipcomPacket.java:59-99 | `getBytes` yields the specification `Wire`: destination, source, type, number, contents; None on an UnknownHostException. |
| RipcomPackets.WireLayout | src/RipcomPacket.java:16-20 | The encoding is 13 bytes plus the contents. Bytes 0-3 and 4-7 are the two addresses' octets, byte 8 is the type code, 9-12 is the big-endian number (which reads back), and then come the contents bytes. |
| RipcomManager.IP | src/RipcomPacketManager.java:48-58 | An address is read exactly when its four bytes are inside the packet. |
| RipcomManager.TypeOf | src/RipcomPacketManager.java:27-37 | 1 decodes to SEQ, 2 to ACK, and every other byte to FIN. |
| RipcomManager.Decode | src/RipcomPacketManager.java:21-45 | Decoding succeeds exactly on packets of at least 9 bytes, with one content char per byte from offset 9. |
| RipcomManager.GetIP | src/RipcomPacketManager.java:48-58 | The loop's string is the dotted rendering of the four unsigned bytes, or an exception when they run past the end. |
| RipcomManager.ConstructRipcomPacket | src/RipcomPacketManager.java:21-46 | The decoder builds the packet of `Decode`: both addresses, the switched type, and the contents from offset 9. |
| RipcomManager.IPDots | src/RipcomPacketManager.java:48-58 | The address has exactly three dots and none at either end. |
| RipcomManager.IPParts | src/RipcomPacketManager.java:51-55 | The four parts between the dots are the decimals of the four unsigned bytes. |
| RipcomManager.IPParses | src/RipcomPacketManager.java:48-58 | The address parses back to the four unsigned bytes and is canonical. |
| RipcomManager.DecodeWire | src/RipcomPacketManager.java:22-37 | On `getBytes` output: the type comes back, the addresses parse to the original's, and canonical addresses come back verbatim. |
| RipcomManager.DecodeWireContents | src/RipcomPacketManager.java:39-42 | On `getBytes` output, the contents are the four number bytes followed by the contents bytes, as chars. For ASCII contents the tail is the original contents. |
| RipcomUnpacker.RipcomPacketUnpacker.constructor | src/RipcomPacketUnpacker.java:11-13 | The unpacker keeps the packet it is given. |
| RipcomUnpacker.RipcomPacketUnpacker.GetDestination | src/RipcomPacketUnpacker.java:26-36 | `getDestination` is `getIP` at offset 0, so exactly three dots, unsigned octets, and an exception below four bytes. |
| RipcomUnpacker.DestinationPrefix | src/RipcomPacketUnpacker.java:28-29 | The destination depends only on bytes 0-3. |
| RipcomUnpacker.DestinationOfWire | src/RipcomPacketUnpacker.java:26-36 | On `getBytes` output, the destination parses to the original's and is the original whenever that was canonical. |
| Transport.Write | src/Rover.java:700-705 | Writing appends to an open file and fails on an absent or closed one. |
| Transport.FirstZero | src/Rover.java:844-849 | The first zero byte's index, or none when no byte is zero. |
| Transport.Stripped | src/Rover.java:842-854 | The stripped bytes are the prefix before the first zero byte. They are empty when no byte is zero, because the size stays 0. |
| Transport.StripContents | src/Rover.java:842-854 | The method copies exactly the `Stripped` bytes into a new array. |
| Transport.Session.constructor | src/Rover.java:24-32 | A fresh rover has both numbers at 0, an empty window and timers, and no streams. |
| Transport.Session.CancelTimerForPacket | src/Rover.java:656-665 | The packet leaves the window and the timers; a missing timer throws after the window removal. |
| Transport.Session.Read | src/Rover.java:866-867 | `read` copies up to the buffer's length from the input, and returns -1 at the end of the stream. |
| Transport.Session.AddToWindow | src/Rover.java:864-880 | The state afterwards is that of `AddToWindowSpec`: the next chunk under seqNumber, stripped when fewer than 5000 bytes are left, and seqNumber moved on. |
| Transport.Session.AcceptPacket | src/Rover.java:683-767 | The state afterwards is that of `Accept`, the receiver/ACK dispatch on the packet type. |
| Transport.Session.Receive | src/Rover.java:638-646 | A packet for this rover's private address is accepted, and any other is forwarded. |
| Transport.StrippedPadding | src/Rover.java:842-854 | A chunk with no zero byte, padded with zeros, strips back to the chunk. |
| Transport.ChunkExact | src/Rover.java:864-880 | With a zero-free file, `addToWindow` windows exactly the next min(5000, left) bytes under the old seqNumber. It is a FIN exactly at the end of the stream. |
| Transport.ZeroCutsChunk | src/Rover.java:842-854 | In a last chunk, a zero byte cuts the contents at or before it. |
| Transport.AckKeepsReceiver | src/Rover.java:719-729 | An ACK changes neither ackNumber nor the output. |
| Transport.SeqStep | src/Rover.java:686-717 | The SEQ numbered ackNumber is written out and increments ackNumber; any other SEQ leaves both alone. The reply ACK(ackNumber) replaces window slot ackNumber - 1 and is sent. Nothing else changes. |
| Transport.FinStep | src/Rover.java:730-754 | A FIN is written out whatever its number and closes the file. ackNumber increments, and FIN_ACK(ackNumber) is windowed and sent. It fails, changing nothing, without an open file. |
| Transport.AckStep | src/Rover.java:719-729 | An ACK n cancels the timer of n - 1, windows the next chunk, and resends packet n with a timer. |
| Transport.FinAckStep | src/Rover.java:755-765 | A FIN_ACK cancels the timer of seqNumber - 1 and changes nothing on the receiving side. |
| Transport.SeqKeepsInOrder | src/Rover.java:686-717 | One SEQ carrying its chunk keeps the output equal to chunks 0..ackNumber-1. |
| Transport.InOrderDelivery | src/Rover.java:686-717 | For any arrival order and any duplication of SEQs, the output is the in-order concatenation of chunks 0..ackNumber-1, and ackNumber never decreases. |
| Transport.DispatchAccepts | src/Rover.java:638-646 | A packet is accepted exactly by the rover whose private address it names. |
| Transport.OneAcceptor | src/Rover.java:638-646 | No two rovers accept the same packet. |
| Arguments.Lookup | src/ArgumentParser.java:40-70 | The flag found is one that the argument spells. |
| Arguments.Spelled | src/ArgumentParser.java:5-23 | Each flag's short and long spelling are its own and no other flag's. |
| Arguments.Finish | src/ArgumentParser.java:77-111 | After the loop the outcome is never Error. It configures exactly when -r was given and -f and -d were both given or both omitted. |
| Arguments.IntFlag | src/ArgumentParser.java:47-66 | An int flag stores `Integer.parseInt(args[i + 1])`; an index past the end or a malformed number is the exception. |
| Arguments.TextFlag | src/ArgumentParser.java:52-71 | A string flag stores `args[i + 1]`; an index past the end is the exception. |
| Arguments.ScanArgument | src/ArgumentParser.java:39-71 | One pass of the loop body is the specification step `Step`. |
| Arguments.ParseArguments | src/ArgumentParser.java:30-112 | The method's outcome is the specification `Parse`, which the lemmas below characterise. |
| Arguments.StepStops | src/ArgumentParser.java:38-76 | An iteration ends the loop exactly at a help flag or a value flag without a usable value. |
| Arguments.StopDecides | src/ArgumentParser.java:38-76 | The first such position decides: Exit for help, Error otherwise. |
| Arguments.HelpExits | src/ArgumentParser.java:40-42 | -h/--help with no bad value flag before it gives Exit. |
| Arguments.HelpNeverConfigures | src/ArgumentParser.java:40-42 | -h/--help anywhere rules out a configured rover. |
| Arguments.ErrorIff | src/ArgumentParser.java:46-76 | ArgumentException exactly when some value flag is last or has an unparsable int value, with no help flag before it. |
| Arguments.LastIndex | src/ArgumentParser.java:38-72 | The last occurrence of a flag among the first n arguments, and none when it does not occur. |
| Arguments.MentionedLast | src/ArgumentParser.java:38-72 | A flag occurs exactly when it has a last occurrence. |
| Arguments.FoldInt | src/ArgumentParser.java:47-66 | An int field holds the value after the flag's last occurrence, or the rover's own. |
| Arguments.FoldText | src/ArgumentParser.java:52-71 | A string field holds the argument after the flag's last occurrence, or the rover's own. |
| Arguments.FoldMissing | src/ArgumentParser.java:32-71 | A `missing*` flag stays set until its flag occurs. |
| Arguments.FoldVerbose | src/ArgumentParser.java:43-45 | Verbose is on exactly when -v occurred or the rover already had it on. |
| Arguments.FinishFields | src/ArgumentParser.java:81-101 | A port of 0 becomes 20001 (-m) or 32768 (-s). A missing -i becomes "233.33.33.33" and a missing -u 6767. All other fields are kept. |
| Arguments.ParseWithoutStop | src/ArgumentParser.java:30-112 | With no stopping flag, the outcome is Exit unless -r is given and -f and -d are given together or not at all. Otherwise every field is its flag's last value with the defaults applied, and -v only turns verbose on. |
| Arguments.LastIntWins | src/ArgumentParser.java:47-66 | For a repeated int flag the last occurrence wins; a 0 port from -m or -s still means the default. |
| Arguments.LastTextWins | src/ArgumentParser.java:52-71 | For a repeated string flag the argument after the last occurrence wins. |
| Arguments.FreshDefaults | src/ArgumentParser.java:81-101 | On a fresh rover every port ends non-zero, and an absent -m, -s, -i or -u takes its default. |
| Arguments.Respell | src/ArgumentParser.java:5-23 | The other spelling of a flag spells the same flag. |
| Arguments.RespellingAgrees | src/ArgumentParser.java:38-72 | Writing a flag in its other spelling does not change the outcome, unless that argument is read as a value. |

## Left out

- Sockets, multicast and threads are left out: `getSelfIP`, `assignDatagramSocket`, `startListening`, `sendRIPMessage`, the receive loop of `udpServer`, `MulticastSender`, and the `Timer` scheduling and retransmission. Sending is an append to an outbox, and the timers are a set of packet numbers.
- `getEntryForDestinationIP` and the send half of `sendPacket` are left out. They sleep and rely on another thread changing the table.
- Console output is left out: `displayRoutingTable`, the verbose prints, `RipcomPacket.toString`, the `displayHelp` text and the warning messages. The `missingArgument` flag only chooses a message, so it is not modelled.
- `InetAddress.getByName` is modelled as a literal dotted-quad parse (`Addresses.ParseAddress`). Hostname resolution is not modelled.
- `String.getBytes` and `new String(bytes)` are modelled as one byte per char (the low eight bits). No platform charset is modelled.
- The `ArrayList`-to-array copies at the end of `getRIPPacket` and `getBytes` are values (`seq`). The array identity they create is not modelled.
- File I/O is left out: the output file and the input stream are byte sequences. A read takes min(5000, remaining) bytes, so short reads are not modelled. IOExceptions from the file system are not modelled, apart from writing to a closed or absent stream.
- `RipcomPacketUnpacker.unpack` is left out: it discards the destination it computes.
- `Transport.Session.AcceptPacket`: `ackNumber` and `seqNumber` are unbounded integers, so the 32-bit wrap after 2^31 packets is not modelled. `lengthCounter` (a Java `long`) is unbounded too.
- `Routing.UpdateAllKeeps`: the triggered-update flag is proved exact per received entry (`RelaxShape`). Over a whole received table only "no flag implies no change" is stated, because a later duplicate entry can undo an earlier change.
- `Routing.RoutingTable.UpdateRoutingTable`: takes the rover id of a received entry from the third field of the parsed address. It requires every received address to parse, which decoded advertisements always satisfy (`RipCodec.DecodeRipShape`). A non-numeric third field, Java's NumberFormatException, is not modelled.
- `Routing.UpdateAllKeepsCosts`: requires received costs in 0..126. A received cost of 127 wraps to -128 in `(byte) (cost + 1)`. The decoder reads costs as signed bytes, and a negative received cost drives a table cost below 1 (`Routing.RelaxedCost`, `Routing.RelaxNegativeCost`).
- `Arguments.IntFlag`: command-line integers are taken to be ASCII digits '0'..'9'. The other Unicode decimal digits that `Integer.parseInt` accepts through `Character.digit` are not modelled, so for example a fullwidth digit is an Error here.
- `Arguments.ParseArguments`: returns the new rover fields as a value (`Settings`) instead of assigning the `Rover` object's fields in place. The sequential `if`s of the loop body are an `else if` chain, which is equivalent because the flag spellings are distinct.
- `Transport.Stripped`: modelled as written. A chunk with no zero byte strips to nothing, and a zero byte inside the file cuts the chunk (`Transport.ZeroCutsChunk`).
- The two Ripcom packets are kept apart: `RipcomPackets.RipcomPacket` is the 5-field packet of `RipcomPacket.java`, and `Transport.Packet` is the 6-field packet `Rover.java` builds. The `getRipcomPacket` decoder that `Rover.java` calls is not part of this model.
