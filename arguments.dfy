/** `ArgumentParser.parseArguments`: one pass over the command line that sets the rover's
    configuration fields, then the defaults and the pairing rule for -f and -d. */
module Arguments {
  import opened JavaBytes
  import opened Optional
  import opened Decimal

  /** The rover fields the parser sets; a Java `null` string is None. */
  datatype Settings = Settings(verboseOutputs: bool, multicastPort: Int32, ripPort: Int32,
                               multicastIp: Option<string>, roverID: Int32, destinationIP: Option<string>,
                               udpPort: Int32, fileName: Option<string>)

  /** The parser's `missing*` flags (`missingArgument` only chooses a console message). */
  datatype Missing = Missing(multicastIP: bool, roverID: bool, udpPort: bool, fileName: bool,
                             destinationIP: bool)

  /** How a parse ends: the configured rover, `displayHelp`'s `System.exit`, or the
      ArgumentException. */
  datatype Parsed = Configured(settings: Settings) | Exit | Error

  /** The fields a freshly constructed rover holds: Java's zero, null and false. */
  const Fresh := Settings(false, 0, 0, None, 0, None, 0, None)
  const AllMissing := Missing(true, true, true, true, true)

  const DefaultMulticastPort: Int32 := 20001
  const DefaultRipPort: Int32 := 32768
  const DefaultMulticastIp := "233.33.33.33"
  const DefaultUdpPort: Int32 := 6767

  /** The flags, each with a short and a long spelling. */
  datatype Flag = Help | Verbose | MulticastPort | SourcePort | MulticastIP | RoverID | DestinationIP
                | UdpPort | FileName

  /** The spellings, as `ArgumentParser` declares them. */
  const HelpS := "-h"
  const HelpL := "--help"
  const VerboseS := "-v"
  const VerboseL := "--verbose"
  const MulticastPortS := "-m"
  const MulticastPortL := "--multicast-port"
  const SourcePortS := "-s"
  const SourcePortL := "--source-port"
  const MulticastIpS := "-i"
  const MulticastIpL := "--multicast-ip"
  const RoverS := "-r"
  const RoverL := "--rover-id"
  const DestinationIpS := "-d"
  const DestinationIpL := "--destination-ip"
  const UdpPortS := "-u"
  const UdpPortL := "--udp-port"
  const FileNameS := "-f"
  const FileNameL := "--file-name"

  function Short(f: Flag): string {
    match f
    case Help => HelpS
    case Verbose => VerboseS
    case MulticastPort => MulticastPortS
    case SourcePort => SourcePortS
    case MulticastIP => MulticastIpS
    case RoverID => RoverS
    case DestinationIP => DestinationIpS
    case UdpPort => UdpPortS
    case FileName => FileNameS
  }

  function Long(f: Flag): string {
    match f
    case Help => HelpL
    case Verbose => VerboseL
    case MulticastPort => MulticastPortL
    case SourcePort => SourcePortL
    case MulticastIP => MulticastIpL
    case RoverID => RoverL
    case DestinationIP => DestinationIpL
    case UdpPort => UdpPortL
    case FileName => FileNameL
  }

  predicate Names(a: string, f: Flag) {
    a == Short(f) || a == Long(f)
  }

  const FlagCount: nat := 9

  /** The flags in the order `parseArguments` compares them. */
  function FlagAt(k: nat): Flag
    requires k < FlagCount
  {
    if k == 0 then Help else if k == 1 then Verbose else if k == 2 then MulticastPort
    else if k == 3 then SourcePort else if k == 4 then MulticastIP else if k == 5 then RoverID
    else if k == 6 then DestinationIP else if k == 7 then UdpPort else FileName
  }

  /** The first flag from position k on that a spells. */
  function Lookup(a: string, k: nat): (r: Option<Flag>)
    requires k <= FlagCount
    ensures r.Some? ==> Names(a, r.value)
    decreases FlagCount - k
  {
    if k == FlagCount then None
    else if Names(a, FlagAt(k)) then Some(FlagAt(k))
    else Lookup(a, k + 1)
  }

  /** The flag an argument spells, if any. */
  function FlagOf(a: string): Option<Flag> {
    Lookup(a, 0)
  }

  /** The flag each argument spells, position by position. */
  function FlagsOf(args: seq<string>): (r: seq<Option<Flag>>)
    ensures |r| == |args|
    decreases |args|
  {
    if |args| == 0 then [] else [FlagOf(args[0])] + FlagsOf(args[1..])
  }

  /** The arguments together with the flag each one spells. */
  datatype CommandLine = CommandLine(args: seq<string>, flags: seq<Option<Flag>>)
  type Line = c: CommandLine | |c.flags| == |c.args| witness CommandLine([], [])

  function LineOf(args: seq<string>): Line {
    CommandLine(args, FlagsOf(args))
  }

  lemma {:induction false} ArgFlagIs(args: seq<string>, i: nat)
    requires i < |args|
    ensures LineOf(args).flags[i] == FlagOf(args[i])
    decreases i
  {
    if i > 0 {
      ArgFlagIs(args[1..], i - 1);
    }
  }

  /** Flags that read the next argument, and those among them that parse it as an int. */
  predicate TakesValue(f: Flag) {
    f != Help && f != Verbose
  }

  predicate TakesInt(f: Flag) {
    f == MulticastPort || f == SourcePort || f == RoverID || f == UdpPort
  }

  /** Position i is a value flag whose `cl.args[i + 1]` is out of bounds or, for an int flag,
      not a Java int. */
  predicate Bad(cl: Line, i: nat)
    requires i < |cl.args|
  {
    var f := cl.flags[i];
    f.Some? && TakesValue(f.value)
    && (i + 1 >= |cl.args| || (TakesInt(f.value) && ParseInt(cl.args[i + 1]).None?))
  }

  /** The loop ends at position i: a help flag, or an exception. */
  predicate Stops(cl: Line, i: nat)
    requires i < |cl.args|
  {
    cl.flags[i] == Some(Help) || Bad(cl, i)
  }

  /** The result of the pass so far: still scanning with these fields, or ended. */
  datatype Scan = Scanning(settings: Settings, missing: Missing) | Halted(outcome: Parsed)

  /** The field an int flag sets, and the `missing*` flag it clears. */
  function SetInt(f: Flag, n: Int32, s: Settings, m: Missing): Scan
    requires TakesInt(f)
  {
    match f
    case MulticastPort => Scanning(s.(multicastPort := n), m)
    case SourcePort => Scanning(s.(ripPort := n), m)
    case RoverID => Scanning(s.(roverID := n), m.(roverID := false))
    case UdpPort => Scanning(s.(udpPort := n), m.(udpPort := false))
  }

  /** The field a string flag sets, and the `missing*` flag it clears. */
  function SetText(f: Flag, v: string, s: Settings, m: Missing): Scan
    requires TakesValue(f) && !TakesInt(f)
  {
    match f
    case MulticastIP => Scanning(s.(multicastIp := Some(v)), m.(multicastIP := false))
    case DestinationIP => Scanning(s.(destinationIP := Some(v)), m.(destinationIP := false))
    case FileName => Scanning(s.(fileName := Some(v)), m.(fileName := false))
  }

  /** An int flag at position i: `Integer.parseInt(args[i + 1])` into its field. */
  function IntStep(args: seq<string>, i: nat, f: Flag, s: Settings, m: Missing): Scan
    requires i < |args| && TakesInt(f)
  {
    if i + 1 >= |args| then Halted(Error)
    else match ParseInt(args[i + 1])
      case None => Halted(Error)
      case Some(n) => SetInt(f, n, s, m)
  }

  /** A string flag at position i: `args[i + 1]` into its field. */
  function TextStep(args: seq<string>, i: nat, f: Flag, s: Settings, m: Missing): Scan
    requires i < |args| && TakesValue(f) && !TakesInt(f)
  {
    if i + 1 >= |args| then Halted(Error) else SetText(f, args[i + 1], s, m)
  }

  /** One iteration of the loop at position i. */
  function Step(cl: Line, i: nat, s: Settings, m: Missing): Scan
    requires i < |cl.args|
  {
    match cl.flags[i]
    case None => Scanning(s, m)
    case Some(f) =>
      if f == Help then Halted(Exit)
      else if f == Verbose then Scanning(s.(verboseOutputs := true), m)
      else if TakesInt(f) then IntStep(cl.args, i, f, s, m)
      else TextStep(cl.args, i, f, s, m)
  }

  /** The loop from position i on. */
  function ScanFrom(cl: Line, i: nat, s: Settings, m: Missing): Scan
    requires i <= |cl.args|
    decreases |cl.args| - i
  {
    if i == |cl.args| then Scanning(s, m)
    else match Step(cl, i, s, m)
      case Halted(o) => Halted(o)
      case Scanning(s', m') => ScanFrom(cl, i + 1, s', m')
  }

  /** The statements after the loop: the rover id check, the defaults and the pairing
      rule. */
  function Finish(s: Settings, m: Missing): (r: Parsed)
    ensures r != Error
    ensures r.Configured? <==> !m.roverID && m.fileName == m.destinationIP
  {
    if m.roverID then Exit
    else
      var s1 := if s.multicastPort == 0 then s.(multicastPort := DefaultMulticastPort) else s;
      var s2 := if s1.ripPort == 0 then s1.(ripPort := DefaultRipPort) else s1;
      var s3 := if m.multicastIP then s2.(multicastIp := Some(DefaultMulticastIp)) else s2;
      var s4 := if m.udpPort then s3.(udpPort := DefaultUdpPort) else s3;
      if (m.fileName && !m.destinationIP) || (m.destinationIP && !m.fileName) then Exit
      else Configured(s4)
  }

  /** The loop and the statements after it, on a command line whose flags are known. */
  function Run(cl: Line, rover: Settings): Parsed {
    match ScanFrom(cl, 0, rover, AllMissing)
    case Halted(o) => o
    case Scanning(s, m) => Finish(s, m)
  }

  /** `parseArguments(args, rover)`, with rover's fields before the call. */
  function Parse(args: seq<string>, rover: Settings): Parsed {
    Run(LineOf(args), rover)
  }

  lemma {:induction false} LookupFinds(a: string, i: nat, k: nat)
    requires i <= k < FlagCount && Names(a, FlagAt(k))
    requires forall j :: i <= j < k ==> !Names(a, FlagAt(j))
    ensures Lookup(a, i) == Some(FlagAt(k))
    decreases k - i
  {
    if i < k {
      LookupFinds(a, i + 1, k);
    }
  }

  lemma {:induction false} LookupMisses(a: string, i: nat)
    requires i <= FlagCount
    requires forall j :: i <= j < FlagCount ==> !Names(a, FlagAt(j))
    ensures Lookup(a, i) == None
    decreases FlagCount - i
  {
    if i < FlagCount {
      LookupMisses(a, i + 1);
    }
  }

  /** The position of each flag in the order of comparison. */
  function Position(f: Flag): (k: nat)
    ensures k < FlagCount && FlagAt(k) == f
  {
    match f
    case Help => 0
    case Verbose => 1
    case MulticastPort => 2
    case SourcePort => 3
    case MulticastIP => 4
    case RoverID => 5
    case DestinationIP => 6
    case UdpPort => 7
    case FileName => 8
  }

  /** Each flag's two spellings are its own and no other flag's. */
  lemma Spelled(a: string, f: Flag)
    requires Names(a, f)
    ensures FlagOf(a) == Some(f)
  {
    LookupFinds(a, 0, Position(f));
  }

  /** An int flag's statement: `Integer.parseInt(args[i + 1])` stored into the field of f;
      an index past the end or a malformed number is the exception. */
  method IntFlag(args: seq<string>, i: nat, f: Flag, settings: Settings, missing: Missing) returns (next: Scan)
    requires i < |args| && TakesInt(f)
    ensures next == IntStep(args, i, f, settings, missing)
  {
    if i + 1 >= |args| {
      return Halted(Error);
    }
    var n := ParseInt(args[i + 1]);
    if n.None? {
      return Halted(Error);
    }
    next := SetInt(f, n.value, settings, missing);
  }

  /** A string flag's statement: `args[i + 1]` stored into the field of f. */
  method TextFlag(args: seq<string>, i: nat, f: Flag, settings: Settings, missing: Missing) returns (next: Scan)
    requires i < |args| && TakesValue(f) && !TakesInt(f)
    ensures next == TextStep(args, i, f, settings, missing)
  {
    if i + 1 >= |args| {
      return Halted(Error);
    }
    next := SetText(f, args[i + 1], settings, missing);
  }

  /** The body of `parseArguments`'s loop for `args[i]`: each flag compared in turn, a
      value flag reading the argument after it. */
  method ScanArgument(args: seq<string>, i: nat, settings: Settings, missing: Missing) returns (next: Scan)
    requires i < |args|
    ensures next == Step(LineOf(args), i, settings, missing)
  {
    ArgFlagIs(args, i);
    var argument := args[i];
    if argument == HelpS || argument == HelpL {
      Spelled(argument, Help);
      return Halted(Exit);
    }
    if argument == VerboseS || argument == VerboseL {
      Spelled(argument, Verbose);
      next := Scanning(settings.(verboseOutputs := true), missing);
    } else if argument == MulticastPortS || argument == MulticastPortL {
      Spelled(argument, MulticastPort);
      next := IntFlag(args, i, MulticastPort, settings, missing);
    } else if argument == SourcePortS || argument == SourcePortL {
      Spelled(argument, SourcePort);
      next := IntFlag(args, i, SourcePort, settings, missing);
    } else if argument == MulticastIpS || argument == MulticastIpL {
      Spelled(argument, MulticastIP);
      next := TextFlag(args, i, MulticastIP, settings, missing);
    } else if argument == RoverS || argument == RoverL {
      Spelled(argument, RoverID);
      next := IntFlag(args, i, RoverID, settings, missing);
    } else if argument == DestinationIpS || argument == DestinationIpL {
      Spelled(argument, DestinationIP);
      next := TextFlag(args, i, DestinationIP, settings, missing);
    } else if argument == UdpPortS || argument == UdpPortL {
      Spelled(argument, UdpPort);
      next := IntFlag(args, i, UdpPort, settings, missing);
    } else if argument == FileNameS || argument == FileNameL {
      Spelled(argument, FileName);
      next := TextFlag(args, i, FileName, settings, missing);
    } else {
      LookupMisses(argument, 0);
      next := Scanning(settings, missing);
    }
  }

  /** `parseArguments`: the loop over `args`, then the rover id check, the defaults and
      the pairing rule for -f and -d. */
  method ParseArguments(args: seq<string>, rover: Settings) returns (r: Parsed)
    ensures r == Parse(args, rover)
  {
    var settings := rover;
    var missing := AllMissing;
    var i := 0;
    while i < |args|
      invariant 0 <= i <= |args|
      invariant ScanFrom(LineOf(args), 0, rover, AllMissing) == ScanFrom(LineOf(args), i, settings, missing)
    {
      var next := ScanArgument(args, i, settings, missing);
      if next.Halted? {
        return next.outcome;
      }
      settings, missing := next.settings, next.missing;
      i := i + 1;
    }
    if missing.roverID {
      return Exit;
    }
    if settings.multicastPort == 0 {
      settings := settings.(multicastPort := DefaultMulticastPort);
    }
    if settings.ripPort == 0 {
      settings := settings.(ripPort := DefaultRipPort);
    }
    if missing.multicastIP {
      settings := settings.(multicastIp := Some(DefaultMulticastIp));
    }
    if missing.udpPort {
      settings := settings.(udpPort := DefaultUdpPort);
    }
    if (missing.fileName && !missing.destinationIP) || (missing.destinationIP && !missing.fileName) {
      return Exit;
    }
    r := Configured(settings);
  }

  /** The outcome of a loop that stops at position i. */
  function StopOutcome(cl: Line, i: nat): Parsed
    requires i < |cl.args|
  {
    if cl.flags[i] == Some(Help) then Exit else Error
  }

  /** No position before n stops the loop. */
  predicate NoStop(cl: Line, n: nat)
    requires n <= |cl.args|
  {
    forall i :: 0 <= i < n ==> !Stops(cl, i)
  }

  /** An iteration ends the loop exactly at a stopping position, with its outcome. */
  lemma StepStops(cl: Line, i: nat, s: Settings, m: Missing)
    requires i < |cl.args|
    ensures Step(cl, i, s, m).Halted? <==> Stops(cl, i)
    ensures Stops(cl, i) ==> Step(cl, i, s, m) == Halted(StopOutcome(cl, i))
  {
  }

  /** The first stopping position from i on, given one at k. */
  lemma {:induction false} FirstStop(cl: Line, i: nat, k: nat) returns (f: nat)
    requires i <= k < |cl.args| && Stops(cl, k)
    ensures i <= f <= k && Stops(cl, f)
    ensures forall j :: i <= j < f ==> !Stops(cl, j)
    decreases k - i
  {
    if Stops(cl, i) {
      f := i;
    } else {
      f := FirstStop(cl, i + 1, k);
    }
  }

  /** The loop from i ends with the outcome of its first stopping position k. */
  lemma {:induction false} ScanToStop(cl: Line, i: nat, k: nat, s: Settings, m: Missing)
    requires i <= k < |cl.args| && Stops(cl, k)
    requires forall j :: i <= j < k ==> !Stops(cl, j)
    ensures ScanFrom(cl, i, s, m) == Halted(StopOutcome(cl, k))
    decreases k - i
  {
    StepStops(cl, i, s, m);
    if i < k {
      var next := Step(cl, i, s, m);
      ScanToStop(cl, i + 1, k, next.settings, next.missing);
    }
  }

  /** A parse is decided by its first stopping position: Exit for a help flag, Error for
      a value flag without a usable value. */
  lemma StopDecides(cl: Line, rover: Settings, k: nat)
    requires k < |cl.args| && Stops(cl, k)
    requires forall j :: 0 <= j < k ==> !Stops(cl, j)
    ensures Run(cl, rover) == StopOutcome(cl, k)
  {
    ScanToStop(cl, 0, k, rover, AllMissing);
  }

  /** A help flag with no bad value flag before it exits, wherever it stands. */
  lemma HelpExits(args: seq<string>, rover: Settings, k: nat)
    requires k < |args| && Names(args[k], Help)
    requires forall j :: 0 <= j < k ==> !Bad(LineOf(args), j)
    ensures Parse(args, rover) == Exit
  {
    var cl := LineOf(args);
    ArgFlagIs(args, k);
    Spelled(args[k], Help);
    var f := FirstStop(cl, 0, k);
    StopDecides(cl, rover, f);
  }

  /** A help flag anywhere rules out a configured rover. */
  lemma HelpNeverConfigures(args: seq<string>, rover: Settings, k: nat)
    requires k < |args| && Names(args[k], Help)
    ensures !Parse(args, rover).Configured?
  {
    var cl := LineOf(args);
    ArgFlagIs(args, k);
    Spelled(args[k], Help);
    var f := FirstStop(cl, 0, k);
    StopDecides(cl, rover, f);
  }

  /** The index of the last occurrence of f among the first n arguments. */
  function LastIndex(cl: Line, f: Flag, n: nat): (r: Option<nat>)
    requires n <= |cl.args|
    ensures r.Some? ==> r.value < n && cl.flags[r.value] == Some(f)
    ensures r.Some? ==> forall j :: r.value < j < n ==> cl.flags[j] != Some(f)
    ensures r.None? ==> forall j :: 0 <= j < n ==> cl.flags[j] != Some(f)
    decreases n
  {
    if n == 0 then None
    else if cl.flags[n - 1] == Some(f) then Some(n - 1)
    else LastIndex(cl, f, n - 1)
  }

  /** f occurs among the first n arguments. */
  predicate Mentioned(cl: Line, f: Flag, n: nat)
    requires n <= |cl.args|
    decreases n
  {
    n > 0 && (cl.flags[n - 1] == Some(f) || Mentioned(cl, f, n - 1))
  }

  lemma {:induction false} MentionedLast(cl: Line, f: Flag, n: nat)
    requires n <= |cl.args|
    ensures Mentioned(cl, f, n) <==> LastIndex(cl, f, n).Some?
    decreases n
  {
    if n > 0 {
      MentionedLast(cl, f, n - 1);
    }
  }

  /** The value of the last occurrence of an int flag before n, else current. */
  function IntSetting(cl: Line, f: Flag, n: nat, current: Int32): Int32
    requires n <= |cl.args| && NoStop(cl, n) && TakesInt(f)
  {
    match LastIndex(cl, f, n)
    case None => current
    case Some(k) => assert !Stops(cl, k); ParseInt(cl.args[k + 1]).value
  }

  /** The value of the last occurrence of a string flag before n, else current. */
  function TextSetting(cl: Line, f: Flag, n: nat, current: Option<string>): Option<string>
    requires n <= |cl.args| && NoStop(cl, n) && TakesValue(f)
  {
    match LastIndex(cl, f, n)
    case None => current
    case Some(k) => assert !Stops(cl, k); Some(cl.args[k + 1])
  }

  /** The fields after the first n arguments, when none of them stops the loop. */
  function Fold(cl: Line, n: nat, rover: Settings): (r: Scan)
    requires n <= |cl.args| && NoStop(cl, n)
    ensures r.Scanning?
    decreases n
  {
    if n == 0 then Scanning(rover, AllMissing)
    else
      var before := Fold(cl, n - 1, rover);
      assert !Stops(cl, n - 1);
      Step(cl, n - 1, before.settings, before.missing)
  }

  /** Without a stopping position the loop from i reaches the fields for all arguments. */
  lemma {:induction false} ScanFolds(cl: Line, i: nat, rover: Settings)
    requires i <= |cl.args| && NoStop(cl, |cl.args|)
    ensures ScanFrom(cl, i, Fold(cl, i, rover).settings, Fold(cl, i, rover).missing) == Fold(cl, |cl.args|, rover)
    decreases |cl.args| - i
  {
    if i < |cl.args| {
      ScanFolds(cl, i + 1, rover);
    }
  }

  /** The flags with a `missing*` flag of their own. */
  predicate Recorded(f: Flag) {
    f == MulticastIP || f == RoverID || f == UdpPort || f == FileName || f == DestinationIP
  }

  /** The field an int flag sets. */
  function IntField(s: Settings, f: Flag): Int32
    requires TakesInt(f)
  {
    match f
    case MulticastPort => s.multicastPort
    case SourcePort => s.ripPort
    case RoverID => s.roverID
    case UdpPort => s.udpPort
  }

  /** The field a string flag sets. */
  function TextField(s: Settings, f: Flag): Option<string>
    requires TakesValue(f) && !TakesInt(f)
  {
    match f
    case MulticastIP => s.multicastIp
    case DestinationIP => s.destinationIP
    case FileName => s.fileName
  }

  /** The `missing*` flag a value flag clears; the ports -m and -s have none. */
  function MissingField(m: Missing, f: Flag): bool
    requires Recorded(f)
  {
    match f
    case MulticastIP => m.multicastIP
    case RoverID => m.roverID
    case UdpPort => m.udpPort
    case FileName => m.fileName
    case DestinationIP => m.destinationIP
  }

  /** What one iteration does to an int field. */
  lemma StepInt(cl: Line, i: nat, s: Settings, m: Missing, f: Flag)
    requires i < |cl.args| && !Stops(cl, i) && TakesInt(f)
    ensures Step(cl, i, s, m).Scanning?
    ensures IntField(Step(cl, i, s, m).settings, f)
         == if cl.flags[i] == Some(f) then ParseInt(cl.args[i + 1]).value else IntField(s, f)
  {
  }

  /** What one iteration does to a string field. */
  lemma StepText(cl: Line, i: nat, s: Settings, m: Missing, f: Flag)
    requires i < |cl.args| && !Stops(cl, i) && TakesValue(f) && !TakesInt(f)
    ensures Step(cl, i, s, m).Scanning?
    ensures TextField(Step(cl, i, s, m).settings, f)
         == if cl.flags[i] == Some(f) then Some(cl.args[i + 1]) else TextField(s, f)
  {
  }

  /** What one iteration does to a `missing*` flag. */
  lemma StepMissing(cl: Line, i: nat, s: Settings, m: Missing, f: Flag)
    requires i < |cl.args| && !Stops(cl, i) && Recorded(f)
    ensures Step(cl, i, s, m).Scanning?
    ensures MissingField(Step(cl, i, s, m).missing, f) == (MissingField(m, f) && cl.flags[i] != Some(f))
  {
    assert !Bad(cl, i);
    match cl.flags[i]
    case None =>
    case Some(g) =>
      if TakesInt(g) {
        var n := ParseInt(cl.args[i + 1]).value;
        assert Step(cl, i, s, m) == SetInt(g, n, s, m);
        SetIntMissing(g, n, s, m, f);
      } else if TakesValue(g) {
        assert Step(cl, i, s, m) == SetText(g, cl.args[i + 1], s, m);
        SetTextMissing(g, cl.args[i + 1], s, m, f);
      }
  }

  lemma SetIntMissing(g: Flag, n: Int32, s: Settings, m: Missing, f: Flag)
    requires TakesInt(g) && Recorded(f)
    ensures MissingField(SetInt(g, n, s, m).missing, f) == (MissingField(m, f) && g != f)
  {
  }

  lemma SetTextMissing(g: Flag, v: string, s: Settings, m: Missing, f: Flag)
    requires TakesValue(g) && !TakesInt(g) && Recorded(f)
    ensures MissingField(SetText(g, v, s, m).missing, f) == (MissingField(m, f) && g != f)
  {
  }

  /** An int field holds the value after the flag's last occurrence, or the rover's. */
  lemma {:induction false} FoldInt(cl: Line, n: nat, rover: Settings, f: Flag)
    requires n <= |cl.args| && NoStop(cl, n) && TakesInt(f)
    ensures IntField(Fold(cl, n, rover).settings, f) == IntSetting(cl, f, n, IntField(rover, f))
    decreases n
  {
    if n > 0 {
      FoldInt(cl, n - 1, rover, f);
      assert !Stops(cl, n - 1);
      var before := Fold(cl, n - 1, rover);
      StepInt(cl, n - 1, before.settings, before.missing, f);
    }
  }

  /** A string field holds the argument after the flag's last occurrence, or the rover's. */
  lemma {:induction false} FoldText(cl: Line, n: nat, rover: Settings, f: Flag)
    requires n <= |cl.args| && NoStop(cl, n) && TakesValue(f) && !TakesInt(f)
    ensures TextField(Fold(cl, n, rover).settings, f) == TextSetting(cl, f, n, TextField(rover, f))
    decreases n
  {
    if n > 0 {
      FoldText(cl, n - 1, rover, f);
      assert !Stops(cl, n - 1);
      var before := Fold(cl, n - 1, rover);
      StepText(cl, n - 1, before.settings, before.missing, f);
    }
  }

  /** A `missing*` flag stays set until its flag occurs. */
  lemma {:induction false} FoldMissing(cl: Line, n: nat, rover: Settings, f: Flag)
    requires n <= |cl.args| && NoStop(cl, n) && Recorded(f)
    ensures MissingField(Fold(cl, n, rover).missing, f) == !Mentioned(cl, f, n)
    decreases n
  {
    if n > 0 {
      FoldMissing(cl, n - 1, rover, f);
      assert !Stops(cl, n - 1);
      var before := Fold(cl, n - 1, rover);
      StepMissing(cl, n - 1, before.settings, before.missing, f);
    }
  }

  /** Verbose is on once -v has occurred, or when the rover had it on. */
  lemma {:induction false} FoldVerbose(cl: Line, n: nat, rover: Settings)
    requires n <= |cl.args| && NoStop(cl, n)
    ensures Fold(cl, n, rover).settings.verboseOutputs == (rover.verboseOutputs || Mentioned(cl, Verbose, n))
    decreases n
  {
    if n > 0 {
      FoldVerbose(cl, n - 1, rover);
      assert !Stops(cl, n - 1);
    }
  }

  /** Without a stopping position the statements after the loop see the folded fields. */
  lemma ParseFolds(cl: Line, rover: Settings)
    requires NoStop(cl, |cl.args|)
    ensures Run(cl, rover) == Finish(Fold(cl, |cl.args|, rover).settings, Fold(cl, |cl.args|, rover).missing)
  {
    ScanFolds(cl, 0, rover);
  }

  /** A port of 0, given or not, means the default. */
  function OrDefault(port: Int32, default: Int32): Int32 {
    if port == 0 then default else port
  }

  /** The fields the statements after the loop leave, when they configure the rover. */
  lemma FinishFields(s: Settings, m: Missing)
    ensures Finish(s, m).Configured? ==>
      var c := Finish(s, m).settings;
      && c.roverID == s.roverID
      && c.multicastPort == OrDefault(s.multicastPort, DefaultMulticastPort)
      && c.ripPort == OrDefault(s.ripPort, DefaultRipPort)
      && c.multicastIp == (if m.multicastIP then Some(DefaultMulticastIp) else s.multicastIp)
      && c.udpPort == (if m.udpPort then DefaultUdpPort else s.udpPort)
      && c.destinationIP == s.destinationIP
      && c.fileName == s.fileName
      && c.verboseOutputs == s.verboseOutputs
  {
  }

  /** Without a stopping position: Exit unless -r is given and -f and -d are given
      together or not at all; otherwise each field is its flag's last value, a port of 0
      and an absent -i or -u take their defaults, and -v only ever turns verbose on. */
  lemma ParseWithoutStop(cl: Line, rover: Settings)
    requires NoStop(cl, |cl.args|)
    ensures var n := |cl.args|;
      (Run(cl, rover).Configured? <==>
         Mentioned(cl, RoverID, n) && (Mentioned(cl, FileName, n) <==> Mentioned(cl, DestinationIP, n)))
    ensures var n := |cl.args|; Run(cl, rover).Configured? ==>
      var c := Run(cl, rover).settings;
      && c.roverID == IntSetting(cl, RoverID, n, rover.roverID)
      && c.multicastPort == OrDefault(IntSetting(cl, MulticastPort, n, rover.multicastPort), DefaultMulticastPort)
      && c.ripPort == OrDefault(IntSetting(cl, SourcePort, n, rover.ripPort), DefaultRipPort)
      && c.multicastIp == (if Mentioned(cl, MulticastIP, n) then TextSetting(cl, MulticastIP, n, rover.multicastIp)
                           else Some(DefaultMulticastIp))
      && c.udpPort == (if Mentioned(cl, UdpPort, n) then IntSetting(cl, UdpPort, n, rover.udpPort)
                       else DefaultUdpPort)
      && c.destinationIP == TextSetting(cl, DestinationIP, n, rover.destinationIP)
      && c.fileName == TextSetting(cl, FileName, n, rover.fileName)
      && c.verboseOutputs == (rover.verboseOutputs || Mentioned(cl, Verbose, n))
    ensures !Run(cl, rover).Configured? ==> Run(cl, rover) == Exit
  {
    var n := |cl.args|;
    ParseFolds(cl, rover);
    FoldInt(cl, n, rover, MulticastPort);
    FoldInt(cl, n, rover, SourcePort);
    FoldInt(cl, n, rover, RoverID);
    FoldInt(cl, n, rover, UdpPort);
    FoldText(cl, n, rover, MulticastIP);
    FoldText(cl, n, rover, DestinationIP);
    FoldText(cl, n, rover, FileName);
    FoldMissing(cl, n, rover, MulticastIP);
    FoldMissing(cl, n, rover, RoverID);
    FoldMissing(cl, n, rover, UdpPort);
    FoldMissing(cl, n, rover, FileName);
    FoldMissing(cl, n, rover, DestinationIP);
    FoldVerbose(cl, n, rover);
    FinishFields(Fold(cl, n, rover).settings, Fold(cl, n, rover).missing);
  }

  /** The last occurrence of f is the one it does not follow. */
  lemma {:induction false} LastIndexIs(cl: Line, f: Flag, n: nat, k: nat)
    requires k < n <= |cl.args| && cl.flags[k] == Some(f)
    requires forall j :: k < j < n ==> cl.flags[j] != Some(f)
    ensures LastIndex(cl, f, n) == Some(k)
    decreases n
  {
    if n - 1 > k {
      LastIndexIs(cl, f, n - 1, k);
    }
  }

  /** Spelled in either form at position k, and in neither form after it. */
  predicate LastSpelled(args: seq<string>, f: Flag, k: nat)
    requires k < |args|
  {
    Names(args[k], f) && forall j :: k < j < |args| ==> !Names(args[j], f)
  }

  lemma LastArgFlag(args: seq<string>, f: Flag, k: nat)
    requires k < |args| && LastSpelled(args, f, k)
    ensures LastIndex(LineOf(args), f, |args|) == Some(k)
  {
    var cl := LineOf(args);
    ArgFlagIs(args, k);
    Spelled(args[k], f);
    forall j | k < j < |args|
      ensures cl.flags[j] != Some(f)
    {
      ArgFlagIs(args, j);
    }
    LastIndexIs(cl, f, |args|, k);
  }

  /** For a repeated int flag the last occurrence wins; a port of 0 from -m or -s still
      means the default, while -r and -u keep the value they are given. */
  lemma LastIntWins(args: seq<string>, rover: Settings, f: Flag, k: nat)
    requires NoStop(LineOf(args), |args|) && TakesInt(f)
    requires k < |args| && LastSpelled(args, f, k)
    ensures k + 1 < |args| && ParseInt(args[k + 1]).Some?
    ensures Parse(args, rover).Configured? ==>
      var c, v := Parse(args, rover).settings, ParseInt(args[k + 1]).value;
      && (f == MulticastPort ==> c.multicastPort == OrDefault(v, DefaultMulticastPort))
      && (f == SourcePort ==> c.ripPort == OrDefault(v, DefaultRipPort))
      && (f == RoverID ==> c.roverID == v)
      && (f == UdpPort ==> c.udpPort == v)
  {
    var cl := LineOf(args);
    LastArgFlag(args, f, k);
    MentionedLast(cl, f, |args|);
    assert !Stops(cl, k);
    ParseWithoutStop(cl, rover);
  }

  /** For a repeated string flag the argument after the last occurrence wins. */
  lemma LastTextWins(args: seq<string>, rover: Settings, f: Flag, k: nat)
    requires NoStop(LineOf(args), |args|) && TakesValue(f) && !TakesInt(f)
    requires k < |args| && LastSpelled(args, f, k)
    ensures k + 1 < |args|
    ensures Parse(args, rover).Configured? ==>
      var c, v := Parse(args, rover).settings, Some(args[k + 1]);
      && (f == MulticastIP ==> c.multicastIp == v)
      && (f == DestinationIP ==> c.destinationIP == v)
      && (f == FileName ==> c.fileName == v)
  {
    var cl := LineOf(args);
    LastArgFlag(args, f, k);
    MentionedLast(cl, f, |args|);
    assert !Stops(cl, k);
    ParseWithoutStop(cl, rover);
  }

  /** On a freshly constructed rover every port ends non-zero and an absent -m, -s, -i
      or -u is replaced by its default. */
  lemma FreshDefaults(cl: Line)
    requires NoStop(cl, |cl.args|) && Run(cl, Fresh).Configured?
    ensures var c, n := Run(cl, Fresh).settings, |cl.args|;
      && c.multicastPort != 0 && c.ripPort != 0 && c.multicastIp.Some?
      && (!Mentioned(cl, MulticastPort, n) ==> c.multicastPort == DefaultMulticastPort)
      && (!Mentioned(cl, SourcePort, n) ==> c.ripPort == DefaultRipPort)
      && (!Mentioned(cl, MulticastIP, n) ==> c.multicastIp == Some(DefaultMulticastIp))
      && (!Mentioned(cl, UdpPort, n) ==> c.udpPort == DefaultUdpPort)
  {
    var n := |cl.args|;
    ParseWithoutStop(cl, Fresh);
    MentionedLast(cl, MulticastPort, n);
    MentionedLast(cl, SourcePort, n);
    MentionedLast(cl, MulticastIP, n);
    MentionedLast(cl, UdpPort, n);
  }

  /** The ArgumentException is raised exactly when some value flag lacks a usable value
      and no help flag comes before it. */
  lemma ErrorIff(cl: Line, rover: Settings)
    ensures Run(cl, rover) == Error <==>
      exists k :: 0 <= k < |cl.args| && Bad(cl, k) && forall j :: 0 <= j < k ==> cl.flags[j] != Some(Help)
  {
    if exists k :: 0 <= k < |cl.args| && Bad(cl, k) && forall j :: 0 <= j < k ==> cl.flags[j] != Some(Help) {
      var k :| 0 <= k < |cl.args| && Bad(cl, k) && forall j :: 0 <= j < k ==> cl.flags[j] != Some(Help);
      var f := FirstStop(cl, 0, k);
      StopDecides(cl, rover, f);
    } else if NoStop(cl, |cl.args|) {
      ParseFolds(cl, rover);
    } else {
      var k :| 0 <= k < |cl.args| && Stops(cl, k);
      var f := FirstStop(cl, 0, k);
      StopDecides(cl, rover, f);
      forall j | 0 <= j < f
        ensures cl.flags[j] != Some(Help)
      {
        assert !Stops(cl, j);
      }
      assert !Bad(cl, f);
    }
  }

  /** The other spelling of a flag. */
  function Respell(a: string): (r: string)
    requires FlagOf(a).Some?
    ensures FlagOf(r) == FlagOf(a)
  {
    var f := FlagOf(a).value;
    Spelled(Short(f), f);
    Spelled(Long(f), f);
    if a == Short(f) then Long(f) else Short(f)
  }

  /** Position i is read as the value of the flag before it. */
  predicate IsValue(cl: Line, i: nat)
    requires i < |cl.args|
  {
    i > 0 && cl.flags[i - 1].Some? && TakesValue(cl.flags[i - 1].value)
  }

  /** Two command lines the loop cannot tell apart: the same flag at every position and
      the same argument wherever one is read as a value. */
  predicate Alike(cl: Line, other: Line) {
    && |cl.args| == |other.args|
    && (forall i :: 0 <= i < |cl.args| ==> cl.flags[i] == other.flags[i])
    && (forall i :: 0 <= i < |cl.args| && IsValue(cl, i) ==> cl.args[i] == other.args[i])
  }

  lemma {:induction false} ScanAlike(cl: Line, other: Line, i: nat, s: Settings, m: Missing)
    requires Alike(cl, other) && i <= |cl.args|
    ensures ScanFrom(cl, i, s, m) == ScanFrom(other, i, s, m)
    decreases |cl.args| - i
  {
    if i < |cl.args| {
      if i + 1 < |cl.args| && cl.flags[i].Some? && TakesValue(cl.flags[i].value) {
        assert IsValue(cl, i + 1);
      }
      assert Step(cl, i, s, m) == Step(other, i, s, m);
      var next := Step(cl, i, s, m);
      if next.Scanning? {
        ScanAlike(cl, other, i + 1, next.settings, next.missing);
      }
    }
  }

  /** Writing a flag in its other spelling changes nothing, unless that argument is itself
      read as the value of the flag before it. */
  lemma RespellingAgrees(args: seq<string>, rover: Settings, k: nat)
    requires k < |args| && FlagOf(args[k]).Some? && !IsValue(LineOf(args), k)
    ensures Parse(args[k := Respell(args[k])], rover) == Parse(args, rover)
  {
    var other := args[k := Respell(args[k])];
    var cl, ol := LineOf(args), LineOf(other);
    forall i | 0 <= i < |args|
      ensures cl.flags[i] == ol.flags[i]
    {
      ArgFlagIs(args, i);
      ArgFlagIs(other, i);
    }
    assert forall i :: 0 <= i < |args| && IsValue(cl, i) ==> i != k;
    ScanAlike(cl, ol, 0, rover, AllMissing);
  }
}
