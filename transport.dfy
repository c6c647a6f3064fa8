/** The rover's stop-and-wait file transfer ("Ripcom"): the receiver/ACK dispatch
    `acceptPacket`, the sender's `addToWindow` with `stripContents`, `cancelTimerForPacket`,
    and the accept-or-forward test of `udpServer`. Sending a packet is recorded in an outbox;
    the output file and the input stream are byte sequences; the packet timers are the set of
    numbers that have one. */
module Transport {
  import opened JavaBytes
  import opened Optional
  import opened Addresses

  /** `Type`: the four kinds of Ripcom packet the rover handles. */
  datatype PacketType = Seq | Ack | Fin | FinAck

  /** The packet the rover sends and receives: addresses, type, SEQ/ACK number, the
      length field and the data bytes. */
  datatype Packet = Packet(destinationIP: string, sourceIP: string, packetType: PacketType,
                           number: int, length: int, contents: seq<Byte>)

  /** `fileOutputStream`: not yet created (null), open with what was written to "output",
      or closed after the FIN. */
  datatype OutputFile = Unopened | Open(data: seq<Byte>) | Closed(data: seq<Byte>)

  /** The transfer state of a rover. input is None while `dataInputStream` is null. */
  datatype Transport = Transport(ackNumber: int, seqNumber: int, lengthCounter: int,
                                 window: map<int, Packet>, timers: set<int>, output: OutputFile,
                                 input: Option<seq<Byte>>, outbox: seq<Packet>)

  /** The state after an operation; ok is false when the Java code throws, in which case the
      state is what it had changed up to the throw. */
  datatype Outcome = Outcome(next: Transport, ok: bool)

  /** `BUFFER_CAPACITY`: the most bytes one SEQ packet carries. */
  const BufferCapacity: nat := 5000

  /** The bytes written to "output" so far. */
  function Written(f: OutputFile): seq<Byte> {
    if f.Unopened? then [] else f.data
  }

  /** `fileOutputStream.write(message)`: a NullPointerException (None) when the stream was
      never created, an IOException (None) once it is closed. */
  function Write(f: OutputFile, message: seq<Byte>): (r: Option<OutputFile>)
    ensures r.Some? <==> f.Open?
    ensures r.Some? ==> r.value == Open(f.data + message)
  {
    match f
    case Open(data) => Some(Open(data + message))
    case _ => None
  }

  /** `cancelTimerForPacket(number)`: the packet leaves the window, then its timer is
      cancelled and dropped; a missing timer is a NullPointerException after the window
      removal. */
  function CancelTimer(s: Transport, number: int): Outcome {
    var w := s.window - {number};
    if number in s.timers then Outcome(s.(window := w, timers := s.timers - {number}), true)
    else Outcome(s.(window := w), false)
  }

  /** The index of the first zero byte, if any. */
  function FirstZero(b: seq<Byte>): (k: Option<nat>)
    ensures k.Some? ==> k.value < |b| && b[k.value] == 0 && forall j :: 0 <= j < k.value ==> b[j] != 0
    ensures k.None? ==> forall j :: 0 <= j < |b| ==> b[j] != 0
  {
    if |b| == 0 then None
    else if b[0] == 0 then Some(0)
    else match FirstZero(b[1..])
      case None => None
      case Some(k) => Some(k + 1)
  }

  /** `stripContents`: the bytes before the first zero; nothing at all when no byte is zero,
      since the size stays 0. */
  function Stripped(b: seq<Byte>): (r: seq<Byte>)
    ensures |r| <= |b| && r == b[..|r|]
    ensures forall j :: 0 <= j < |r| ==> r[j] != 0
    ensures FirstZero(b).Some? ==> b[|r|] == 0
    ensures FirstZero(b).None? ==> r == []
  {
    match FirstZero(b)
    case None => []
    case Some(k) => b[..k]
  }

  /** The 5000-byte buffer after `read`: the first n bytes read, zeros after them. */
  function Buffer(data: seq<Byte>): (b: seq<Byte>)
    ensures |b| == BufferCapacity
  {
    var n := Min(|data|, BufferCapacity);
    data[..n] + seq(BufferCapacity - n, _ => 0)
  }

  function Min(a: int, b: int): int {
    if a < b then a else b
  }

  /** `addToWindow(destinationIP)`: reads the next chunk (FIN at the end of the stream), strips
      it when fewer than 5000 bytes are left to send, and puts it into the window under
      seqNumber. Reads are modelled as taking min(5000, remaining) bytes. */
  function AddToWindowSpec(s: Transport, roverID: int, destinationIP: string): Outcome {
    match s.input
    case None => Outcome(s, false)
    case Some(data) =>
      var n := Min(|data|, BufferCapacity);
      var buffer := Buffer(data);
      var packetType := if |data| == 0 then Fin else Seq;
      var contents := if BufferCapacity > s.lengthCounter then Stripped(buffer) else buffer;
      var counter := if BufferCapacity > s.lengthCounter then s.lengthCounter else s.lengthCounter - BufferCapacity;
      var packet := Packet(destinationIP, PrivateIP(roverID), packetType, s.seqNumber, |contents|, contents);
      Outcome(s.(input := Some(data[n..]), lengthCounter := counter,
                 window := s.window[s.seqNumber := packet], seqNumber := s.seqNumber + 1), true)
  }

  /** The reply of type t to p, numbered ackNumber: it replaces the entry of ackNumber - 1 in
      the window and is sent. */
  function Reply(s: Transport, roverID: int, p: Packet, t: PacketType): Outcome {
    var r := Packet(p.sourceIP, PrivateIP(roverID), t, s.ackNumber, 0, []);
    Outcome(s.(window := (s.window - {s.ackNumber - 1})[s.ackNumber := r], outbox := s.outbox + [r]), true)
  }

  /** `acceptPacket(p)` at the rover roverID. */
  function Accept(s: Transport, roverID: int, p: Packet): Outcome {
    match p.packetType
    case Seq =>
      if p.number == s.ackNumber then
        var t := s.(ackNumber := s.ackNumber + 1);
        var file := if s.output.Unopened? then Open([]) else s.output;
        (match Write(file, p.contents)
         case None => Outcome(t.(output := file), false)
         case Some(f) => Reply(t.(output := f), roverID, p, Ack))
      else Reply(s, roverID, p, Ack)
    case Ack =>
      var c := CancelTimer(s, p.number - 1);
      if !c.ok then c
      else
        var a := AddToWindowSpec(c.next, roverID, p.sourceIP);
        if !a.ok then a
        else if p.number !in a.next.window then Outcome(a.next, false)
        else
          var nextPacket := a.next.window[p.number];
          Outcome(a.next.(outbox := a.next.outbox + [nextPacket], timers := a.next.timers + {nextPacket.number}), true)
    case Fin =>
      (match Write(s.output, p.contents)
       case None => Outcome(s, false)
       case Some(f) => Reply(s.(output := Closed(f.data), ackNumber := s.ackNumber + 1), roverID, p, FinAck))
    case FinAck => CancelTimer(s, s.seqNumber - 1)
  }

  /** The test in `udpServer`: a packet addressed to this rover's private address is
      accepted, any other is forwarded. */
  function Dispatch(s: Transport, roverID: int, p: Packet): Outcome {
    if p.destinationIP == PrivateIP(roverID) then Accept(s, roverID, p)
    else Outcome(s.(outbox := s.outbox + [p]), true)
  }

  /** The rover's transfer fields. */
  class Session {
    const roverID: int
    var ackNumber: int
    var seqNumber: int
    var lengthCounter: int
    var window: map<int, Packet>
    var packetTimer: set<int>
    var output: OutputFile
    var input: Option<seq<Byte>>
    var outbox: seq<Packet>

    function State(): Transport
      reads this
    {
      Transport(ackNumber, seqNumber, lengthCounter, window, packetTimer, output, input, outbox)
    }

    /** A rover before any transfer: both numbers 0, empty window, no streams. */
    constructor(roverID: int)
      ensures this.roverID == roverID
      ensures State() == Transport(0, 0, 0, map[], {}, Unopened, None, [])
    {
      this.roverID := roverID;
      ackNumber := 0;
      seqNumber := 0;
      lengthCounter := 0;
      window := map[];
      packetTimer := {};
      output := Unopened;
      input := None;
      outbox := [];
    }

    method CancelTimerForPacket(number: int) returns (ok: bool)
      modifies this
      ensures Outcome(State(), ok) == CancelTimer(old(State()), number)
    {
      window := window - {number};
      if number !in packetTimer {
        return false;  // packetTimer.get(number) is null
      }
      packetTimer := packetTimer - {number};
      return true;
    }

    /** `dataInputStream.read(contents)`: copies up to contents.Length bytes from the input;
        -1 at the end of the stream. */
    method Read(contents: array<Byte>) returns (count: int)
      requires input.Some?
      modifies this, contents
      ensures var data := old(input.value); var n := Min(|data|, contents.Length);
        contents[..] == data[..n] + old(contents[n..]) &&
        input == Some(data[n..]) && count == (if |data| == 0 then -1 else n) &&
        State() == old(State()).(input := input)
    {
      var data := input.value;
      var n := Min(|data|, contents.Length);
      forall j | 0 <= j < n {
        contents[j] := data[j];
      }
      input := Some(data[n..]);
      count := if |data| == 0 then -1 else n;
    }

    method AddToWindow(destinationIP: string) returns (ok: bool)
      modifies this
      ensures Outcome(State(), ok) == AddToWindowSpec(old(State()), roverID, destinationIP)
    {
      var packetType := Seq;
      var contents := new Byte[BufferCapacity](_ => 0);
      if input.None? {
        return false;  // dataInputStream is null
      }
      ghost var data := input.value;
      var count := Read(contents);
      assert contents[..] == Buffer(data);
      if count == -1 {
        packetType := Fin;
      }
      var chunk: seq<Byte>;
      if BufferCapacity > lengthCounter {
        var stripped := StripContents(contents);
        chunk := stripped[..];
      } else {
        lengthCounter := lengthCounter - BufferCapacity;
        chunk := contents[..];
      }
      var packet := Packet(destinationIP, PrivateIP(roverID), packetType, seqNumber, |chunk|, chunk);
      window := window[seqNumber := packet];
      seqNumber := seqNumber + 1;
      return true;
    }

    method AcceptPacket(p: Packet) returns (ok: bool)
      modifies this
      ensures Outcome(State(), ok) == Accept(old(State()), roverID, p)
    {
      match p.packetType {
        case Seq =>
          var expectedPacket := true;
          if p.number != ackNumber {
            expectedPacket := false;
          }
          if expectedPacket {
            ackNumber := ackNumber + 1;
            var message := p.contents;
            if output.Unopened? {
              output := Open([]);  // new FileOutputStream("output")
            }
            if output.Closed? {
              return false;  // write on a closed stream
            }
            output := Open(output.data + message);
          }
          var ackPacket := Packet(p.sourceIP, PrivateIP(roverID), Ack, ackNumber, 0, []);
          window := window - {ackNumber - 1};
          window := window[ackNumber := ackPacket];
          outbox := outbox + [ackPacket];
          return true;
        case Ack =>
          var number := p.number;
          ok := CancelTimerForPacket(number - 1);
          if !ok {
            return;
          }
          ok := AddToWindow(p.sourceIP);
          if !ok {
            return;
          }
          if number !in window {
            return false;  // sendPacket(null)
          }
          var nextPacket := window[number];
          outbox := outbox + [nextPacket];
          packetTimer := packetTimer + {nextPacket.number};  // startTimerForPacket
          return true;
        case Fin =>
          if !output.Open? {
            return false;  // null or closed stream
          }
          output := Closed(output.data + p.contents);
          ackNumber := ackNumber + 1;
          var finAckPacket := Packet(p.sourceIP, PrivateIP(roverID), FinAck, ackNumber, 0, []);
          window := window - {ackNumber - 1};
          window := window[ackNumber := finAckPacket];
          outbox := outbox + [finAckPacket];
          return true;
        case FinAck =>
          ok := CancelTimerForPacket(seqNumber - 1);
      }
    }

    /** The accept-or-forward test of `udpServer` for a received packet. */
    method Receive(p: Packet) returns (ok: bool)
      modifies this
      ensures Outcome(State(), ok) == Dispatch(old(State()), roverID, p)
    {
      if p.destinationIP == PrivateIP(roverID) {
        ok := AcceptPacket(p);
      } else {
        outbox := outbox + [p];  // sendPacket
        ok := true;
      }
    }
  }

  /** `stripContents`: the size is the index of the first zero byte (0 when there is none),
      and that many bytes are copied into a new array. */
  method StripContents(contents: array<Byte>) returns (buffer: array<Byte>)
    ensures buffer[..] == Stripped(contents[..])
  {
    var size := 0;
    var i := 0;
    while i < contents.Length
      invariant 0 <= i <= contents.Length
      invariant forall j :: 0 <= j < i ==> contents[j] != 0
      invariant size == 0
    {
      if contents[i] == 0 {
        size := i;
        FirstZeroAt(contents[..], i);
        break;
      }
      i := i + 1;
    }
    ghost var bytes := contents[..];
    assert size == StrippedSize(bytes);
    assert Stripped(bytes) == bytes[..size];
    buffer := new Byte[size](_ => 0);
    forall j | 0 <= j < size {
      buffer[j] := contents[j];
    }
    assert contents[..] == bytes;
    assert buffer[..] == bytes[..size];
  }

  function StrippedSize(b: seq<Byte>): nat {
    match FirstZero(b)
    case None => 0
    case Some(k) => k
  }

  lemma FirstZeroAt(b: seq<Byte>, i: nat)
    requires i < |b| && b[i] == 0 && forall j :: 0 <= j < i ==> b[j] != 0
    ensures FirstZero(b) == Some(i)
  {
  }

  predicate NoZero(b: seq<Byte>) {
    forall j :: 0 <= j < |b| ==> b[j] != 0
  }

  /** `stripContents` gives back data followed by zero padding exactly. */
  lemma StrippedPadding(data: seq<Byte>, k: nat)
    requires NoZero(data) && k > 0
    ensures Stripped(data + seq(k, _ => 0)) == data
  {
    var b := data + seq(k, _ => 0);
    FirstZeroAt(b, |data|);
    assert b[..|data|] == data;
  }

  /** When lengthCounter is the number of bytes left and the file has no zero byte,
      `addToWindow` puts exactly the next min(5000, left) bytes into the window under the old
      seqNumber, as a FIN exactly at the end of the stream, and keeps lengthCounter equal to
      what is left while full chunks remain. */
  lemma ChunkExact(s: Transport, roverID: int, destinationIP: string)
    requires s.input.Some? && s.lengthCounter == |s.input.value| && NoZero(s.input.value)
    ensures var o, data := AddToWindowSpec(s, roverID, destinationIP), s.input.value;
      var n := Min(|data|, BufferCapacity);
      var packet := o.next.window[s.seqNumber];
      o.ok && o.next.seqNumber == s.seqNumber + 1 &&
      packet.contents == data[..n] && packet.length == n && packet.number == s.seqNumber &&
      (packet.packetType == Fin <==> data == []) && packet.sourceIP == PrivateIP(roverID) &&
      packet.destinationIP == destinationIP && o.next.input == Some(data[n..]) &&
      (|data| >= BufferCapacity ==> o.next.lengthCounter == |data[n..]|)
  {
    var data := s.input.value;
    var n := Min(|data|, BufferCapacity);
    if |data| < BufferCapacity {
      assert data[..n] == data;
      StrippedPadding(data, BufferCapacity - n);
    } else {
      assert Buffer(data) == data[..n];
    }
  }

  /** A chunk that holds a zero byte is cut at it when fewer than 5000 bytes are left. */
  lemma ZeroCutsChunk(s: Transport, roverID: int, destinationIP: string, z: nat)
    requires s.input.Some? && s.lengthCounter < BufferCapacity
    requires z < |s.input.value| && z < BufferCapacity && s.input.value[z] == 0
    ensures var o := AddToWindowSpec(s, roverID, destinationIP);
      |o.next.window[s.seqNumber].contents| <= z
  {
    var b := Buffer(s.input.value);
    assert b[z] == 0;
  }

  /** An ACK does not change the receiving side of the transfer: ackNumber and the output. */
  lemma AckKeepsReceiver(s: Transport, roverID: int, p: Packet)
    requires p.packetType == Ack
    ensures Accept(s, roverID, p).next.ackNumber == s.ackNumber
    ensures Accept(s, roverID, p).next.output == s.output
  {
  }

  /** A SEQ: the expected one (numbered ackNumber) is written out and moves ackNumber on; any
      other leaves both alone. Either way the reply ACK carries the new ackNumber, takes the
      window slot ackNumber from the one before it, and only window, outbox and, for the
      expected SEQ, ackNumber and the output change. Writing after the FIN closed the file
      fails with ackNumber already moved on. */
  lemma SeqStep(s: Transport, roverID: int, p: Packet)
    requires p.packetType == Seq
    ensures var o := Accept(s, roverID, p);
      o.ok <==> !(p.number == s.ackNumber && s.output.Closed?)
    ensures var o := Accept(s, roverID, p);
      p.number == s.ackNumber ==>
        o.next.ackNumber == s.ackNumber + 1 &&
        (o.ok ==> Written(o.next.output) == Written(s.output) + p.contents && o.next.output.Open?)
    ensures var o := Accept(s, roverID, p);
      p.number != s.ackNumber ==> o.next.ackNumber == s.ackNumber && o.next.output == s.output
    ensures var o := Accept(s, roverID, p);
      var a := o.next.ackNumber;
      o.ok ==>
        var reply := Packet(p.sourceIP, PrivateIP(roverID), Ack, a, 0, []);
        o.next.outbox == s.outbox + [reply] && a in o.next.window && o.next.window[a] == reply &&
        a - 1 !in o.next.window &&
        (forall k :: k in s.window && k != a && k != a - 1 ==> k in o.next.window && o.next.window[k] == s.window[k]) &&
        (forall k :: k in o.next.window ==> k in s.window || k == a)
    ensures var o := Accept(s, roverID, p);
      o.next.seqNumber == s.seqNumber && o.next.lengthCounter == s.lengthCounter &&
      o.next.timers == s.timers && o.next.input == s.input
  {
  }

  /** A FIN: written out whatever its number, the file closed, ackNumber moved on and a
      FIN_ACK with the new ackNumber sent and kept in the window; it fails, changing nothing,
      when the file was never created or is already closed. */
  lemma FinStep(s: Transport, roverID: int, p: Packet)
    requires p.packetType == Fin
    ensures Accept(s, roverID, p).ok <==> s.output.Open?
    ensures !s.output.Open? ==> Accept(s, roverID, p).next == s
    ensures var o := Accept(s, roverID, p);
      var a := s.ackNumber + 1;
      var reply := Packet(p.sourceIP, PrivateIP(roverID), FinAck, a, 0, []);
      o.ok ==> o.next.output == Closed(s.output.data + p.contents) && o.next.ackNumber == a &&
               o.next.outbox == s.outbox + [reply] && a in o.next.window && o.next.window[a] == reply &&
               s.ackNumber !in o.next.window
  {
  }

  /** An ACK numbered n from the sender's peer: the timer of packet n - 1 goes (its absence is
      the NullPointerException), the next chunk is put into the window, and packet n of the
      window is sent again with a timer started for it. */
  lemma AckStep(s: Transport, roverID: int, p: Packet)
    requires p.packetType == Ack
    ensures p.number - 1 !in s.timers ==>
      Accept(s, roverID, p) == Outcome(s.(window := s.window - {p.number - 1}), false)
    ensures s.input.None? ==> !Accept(s, roverID, p).ok
    ensures var o := Accept(s, roverID, p);
      o.ok ==> p.number - 1 in s.timers && s.input.Some? && o.next.seqNumber == s.seqNumber + 1 &&
               p.number in o.next.window && o.next.outbox == s.outbox + [o.next.window[p.number]] &&
               o.next.window[p.number].number in o.next.timers &&
               o.next.window[s.seqNumber].number == s.seqNumber &&
               o.next.timers == (s.timers - {p.number - 1}) + {o.next.window[p.number].number}
  {
  }

  /** A FIN_ACK cancels the timer of the last packet sent, seqNumber - 1. */
  lemma FinAckStep(s: Transport, roverID: int, p: Packet)
    requires p.packetType == FinAck
    ensures Accept(s, roverID, p).ok <==> s.seqNumber - 1 in s.timers
    ensures Accept(s, roverID, p).next.timers == s.timers - {s.seqNumber - 1}
    ensures Accept(s, roverID, p).next.window == s.window - {s.seqNumber - 1}
    ensures Accept(s, roverID, p).next.ackNumber == s.ackNumber && Accept(s, roverID, p).next.outbox == s.outbox
  {
  }

  /** The bytes of the chunks numbered 0..|chunks|-1, in order. */
  function Concat(chunks: seq<seq<Byte>>): seq<Byte> {
    if |chunks| == 0 then [] else Concat(chunks[..|chunks| - 1]) + chunks[|chunks| - 1]
  }

  /** A SEQ packet carrying chunk number `number` of the file. */
  predicate Carries(chunks: seq<seq<Byte>>, p: Packet) {
    p.packetType == Seq && 0 <= p.number < |chunks| && p.contents == chunks[p.number]
  }

  /** The receiver after accepting the packets ps in arrival order. */
  function Receive(s: Transport, roverID: int, ps: seq<Packet>): Transport
    decreases |ps|
  {
    if |ps| == 0 then s else Receive(Accept(s, roverID, ps[0]).next, roverID, ps[1..])
  }

  /** The received file so far is chunks 0..ackNumber-1 in order. */
  predicate InOrder(s: Transport, chunks: seq<seq<Byte>>) {
    0 <= s.ackNumber <= |chunks| && !s.output.Closed? && Written(s.output) == Concat(chunks[..s.ackNumber])
  }

  /** One SEQ carrying its chunk keeps the received file in order. */
  lemma SeqKeepsInOrder(s: Transport, roverID: int, chunks: seq<seq<Byte>>, p: Packet)
    requires InOrder(s, chunks) && Carries(chunks, p)
    ensures InOrder(Accept(s, roverID, p).next, chunks)
    ensures s.ackNumber <= Accept(s, roverID, p).next.ackNumber
  {
    var t := Accept(s, roverID, p).next;
    var a := s.ackNumber;
    if p.number == a {
      assert t.output == Open(Written(s.output) + p.contents) && t.ackNumber == a + 1;
      ConcatSnoc(chunks, a);
    } else {
      assert t.output == s.output && t.ackNumber == a;
    }
  }

  lemma ConcatSnoc(chunks: seq<seq<Byte>>, a: nat)
    requires a < |chunks|
    ensures Concat(chunks[..a + 1]) == Concat(chunks[..a]) + chunks[a]
  {
    assert chunks[..a + 1][..a] == chunks[..a];
  }

  /** Whatever the order of arrival, and however often a SEQ arrives again, the output is the
      in-order concatenation of chunks 0..ackNumber-1, and ackNumber never goes back. */
  lemma {:induction false} InOrderDelivery(s: Transport, roverID: int, chunks: seq<seq<Byte>>, ps: seq<Packet>)
    requires InOrder(s, chunks)
    requires forall k :: 0 <= k < |ps| ==> Carries(chunks, ps[k])
    ensures InOrder(Receive(s, roverID, ps), chunks)
    ensures s.ackNumber <= Receive(s, roverID, ps).ackNumber
    decreases |ps|
  {
    if |ps| > 0 {
      var rest := ps[1..];
      SeqKeepsInOrder(s, roverID, chunks, ps[0]);
      forall k | 0 <= k < |rest|
        ensures Carries(chunks, rest[k])
      {
        assert rest[k] == ps[k + 1];
      }
      InOrderDelivery(Accept(s, roverID, ps[0]).next, roverID, chunks, rest);
    }
  }

  /** A packet is accepted exactly by the rover whose private address it names: its
      destination is a rover address whose third field is the rover's id. */
  lemma DispatchAccepts(roverID: int, p: Packet)
    requires 0 <= roverID < 256
    ensures p.destinationIP == PrivateIP(roverID) <==>
      IsRoverAddress(p.destinationIP) && AddressId(p.destinationIP) == roverID
  {
    PrivateIPIsDotted(roverID);
  }

  /** No two rovers accept the same packet. */
  lemma OneAcceptor(a: int, b: int, p: Packet)
    requires p.destinationIP == PrivateIP(a) && p.destinationIP == PrivateIP(b)
    ensures a == b
  {
    PrivateIPInjective(a, b);
  }
}
