/** Dotted-quad addresses: `getIPAddressInStringForm`, `getPrivateIP`, and the literal
    parse that `InetAddress.getByName(..).getAddress()` performs on them. */
module Addresses {
  import opened Optional
  import opened Decimal
  import opened JavaBytes

  /** Four values, each an unsigned octet. */
  predicate IsOctets(q: seq<int>) {
    |q| == 4 && forall k :: 0 <= k < 4 ==> 0 <= q[k] < 256
  }

  /** The decimal renderings of the values of q separated by '.'. */
  function Dotted(q: seq<int>): string
    decreases |q|
  {
    if |q| == 0 then ""
    else if |q| == 1 then IntToString(q[0])
    else IntToString(q[0]) + "." + Dotted(q[1..])
  }

  /** Index of the first '.' in s. */
  function FirstDot(s: string): (k: nat)
    requires '.' in s
    ensures k < |s| && s[k] == '.' && '.' !in s[..k]
  {
    if s[0] == '.' then 0 else 1 + FirstDot(s[1..])
  }

  /** s cut at every '.', keeping empty pieces. */
  function SplitDots(s: string): (parts: seq<string>)
    ensures |parts| > 0
    decreases |s|
  {
    if '.' in s then
      var k := FirstDot(s);
      [s[..k]] + SplitDots(s[k + 1..])
    else [s]
  }


  /** Every part a decimal of at most 255: their values, else None. */
  function ParseOctets(parts: seq<string>): (r: Option<seq<int>>)
    ensures r.Some? ==> |r.value| == |parts| && forall k :: 0 <= k < |parts| ==> 0 <= r.value[k] < 256
  {
    if |parts| == 0 then Some([])
    else match ParseDecimal(parts[0])
      case None => None
      case Some(v) =>
        if v >= 256 then None
        else match ParseOctets(parts[1..])
          case None => None
          case Some(rest) => Some([v] + rest)
  }

  /** The dotted-quad literal parse of an address: four '.'-separated decimal fields,
      each at most 255. None stands for the UnknownHostException. */
  function ParseAddress(s: string): (r: Option<seq<int>>)
    ensures r.Some? ==> IsOctets(r.value)
  {
    var parts := SplitDots(s);
    if |parts| == 4 then ParseOctets(parts) else None
  }

  /** `getAddress()` of a parsed address: the octets as Java bytes. */
  function AddressBytes(q: seq<int>): (b: seq<Byte>)
    requires IsOctets(q)
    ensures |b| == 4
  {
    [ToByte(q[0]), ToByte(q[1]), ToByte(q[2]), ToByte(q[3])]
  }

  /** The four bytes from index i read unsigned: as `fillIPAddress` and `getIP` read them. */
  function OctetsAt(b: seq<Byte>, i: nat): (q: seq<int>)
    requires i + 4 <= |b|
    ensures IsOctets(q)
  {
    [ToUnsigned(b[i]), ToUnsigned(b[i + 1]), ToUnsigned(b[i + 2]), ToUnsigned(b[i + 3])]
  }

  /** Octets written as bytes read back unsigned. */
  lemma OctetsRoundTrip(q: seq<int>)
    requires IsOctets(q)
    ensures OctetsAt(AddressBytes(q), 0) == q
  {
    UnsignedOfByte(q[0]); UnsignedOfByte(q[1]); UnsignedOfByte(q[2]); UnsignedOfByte(q[3]);
  }

  /** `getPrivateIP(roverID)`: the address "10.0.<roverID>.0". */
  function PrivateIP(roverID: int): string {
    "10.0." + IntToString(roverID) + ".0"
  }

  /** The third octet of a parsed address: what `Integer.parseInt(ip.split("\\.")[2])` reads. */
  function AddressId(ip: string): int
    requires ParseAddress(ip).Some?
  {
    ParseAddress(ip).value[2]
  }

  /** The canonical form "10.0.X.0" of the rover whose id is the address's third octet. */
  predicate IsRoverAddress(ip: string) {
    ParseAddress(ip).Some? && ip == PrivateIP(AddressId(ip))
  }

  /** The number of '.' characters in s. */
  function DotCount(s: string): nat
    decreases |s|
  {
    if |s| == 0 then 0 else (if s[0] == '.' then 1 else 0) + DotCount(s[1..])
  }

  /** s is exactly the rendering of the octets it parses to. */
  predicate IsCanonical(s: string) {
    ParseAddress(s).Some? && Dotted(ParseAddress(s).value) == s
  }

  /** `getIPAddressInStringForm`: appends each value and a '.' after every value but the last. */
  method IPAddressInStringForm(ipAddress: array<int>) returns (s: string)
    ensures s == Dotted(ipAddress[..])
  {
    var sb := "";
    var i := 0;
    while i < ipAddress.Length
      invariant 0 <= i <= ipAddress.Length
      invariant i == 0 ==> sb == ""
      invariant 0 < i < ipAddress.Length ==> sb == Dotted(ipAddress[..i]) + "."
      invariant 0 < i == ipAddress.Length ==> sb == Dotted(ipAddress[..i])
    {
      GrowDotted(ipAddress[..i], ipAddress[i], sb);
      assert ipAddress[..i + 1] == ipAddress[..i] + [ipAddress[i]];
      sb := sb + IntToString(ipAddress[i]);
      if i < ipAddress.Length - 1 {
        sb := sb + ".";
      }
      i := i + 1;
    }
    assert ipAddress[..i] == ipAddress[..];
    s := sb;
  }

  /** One more value rendered after what is written so far. */
  lemma GrowDotted(q: seq<int>, x: int, sb: string)
    requires (|q| == 0 && sb == "") || (|q| > 0 && sb == Dotted(q) + ".")
    ensures sb + IntToString(x) == Dotted(q + [x])
  {
    DottedSnoc(q + [x]);
    assert (q + [x])[..|q|] == q;
  }

  /** Dotted(q) ends with the rendering of q's last value. */
  lemma {:induction false} DottedSnoc(q: seq<int>)
    requires |q| > 0
    ensures Dotted(q) == if |q| == 1 then IntToString(q[0]) else Dotted(q[..|q| - 1]) + "." + IntToString(q[|q| - 1])
    decreases |q|
  {
    if |q| > 2 {
      DottedSnoc(q[1..]);
      DottedSnocStep(q);
    } else if |q| == 2 {
      assert q[1..][0] == q[1];
      assert q[..1][0] == q[0];
    }
  }

  /** The inductive step of DottedSnoc: from the tail's last rendering to q's. */
  lemma DottedSnocStep(q: seq<int>)
    requires |q| > 2
    requires Dotted(q[1..]) == Dotted(q[1..][..|q| - 2]) + "." + IntToString(q[1..][|q| - 2])
    ensures Dotted(q) == Dotted(q[..|q| - 1]) + "." + IntToString(q[|q| - 1])
  {
    var lead, z := IntToString(q[0]) + ".", IntToString(q[|q| - 1]);
    var inner := Dotted(q[1..][..|q| - 2]);
    assert q[1..][..|q| - 2] == q[..|q| - 1][1..];
    assert q[1..][|q| - 2] == q[|q| - 1];
    assert Dotted(q[..|q| - 1]) == lead + inner;
    assert Dotted(q) == lead + (inner + "." + z);
    Assoc(lead, inner + ".", z);
    Assoc(lead, inner, ".");
  }

  lemma {:induction false} FirstDotAfter(a: string, b: string)
    requires '.' !in a
    ensures '.' in a + "." + b && FirstDot(a + "." + b) == |a|
  {
    var s := a + "." + b;
    assert s[|a|] == '.';
    if |a| > 0 {
      assert s[1..] == a[1..] + "." + b;
      FirstDotAfter(a[1..], b);
    }
  }

  lemma SplitAfter(a: string, b: string)
    requires '.' !in a
    ensures SplitDots(a + "." + b) == [a] + SplitDots(b)
  {
    var s := a + "." + b;
    FirstDotAfter(a, b);
    assert s[..|a|] == a;
    assert s[|a| + 1..] == b;
  }

  /** Cutting a rendering at its dots gives the renderings of the values. */
  lemma {:induction false} SplitDotted(q: seq<int>)
    requires |q| > 0
    ensures |SplitDots(Dotted(q))| == |q|
    ensures forall k :: 0 <= k < |q| ==> SplitDots(Dotted(q))[k] == IntToString(q[k])
    decreases |q|
  {
    var first := IntToString(q[0]);
    if |q| > 1 {
      var rest := Dotted(q[1..]);
      SplitDotted(q[1..]);
      SplitAfter(first, rest);
      var parts := SplitDots(rest);
      assert SplitDots(Dotted(q)) == [first] + parts;
      forall k | 0 < k < |q|
        ensures ([first] + parts)[k] == IntToString(q[k])
      {
        assert q[1..][k - 1] == q[k];
      }
    } else {
      assert '.' !in first;
      assert SplitDots(Dotted(q)) == [first];
    }
  }

  lemma {:induction false} ParseOctetsOf(parts: seq<string>, q: seq<int>)
    requires |parts| == |q|
    requires forall k :: 0 <= k < |q| ==> ParseDecimal(parts[k]) == Some(q[k]) && q[k] < 256
    ensures ParseOctets(parts) == Some(q)
  {
    if |q| > 0 {
      ParseOctetsOf(parts[1..], q[1..]);
      assert [q[0]] + q[1..] == q;
    }
  }

  /** The literal parse reads back the rendering of every octet quadruple. */
  lemma ParseDotted(q: seq<int>)
    requires IsOctets(q)
    ensures ParseAddress(Dotted(q)) == Some(q)
  {
    var s := Dotted(q);
    SplitDotted(q);
    forall k | 0 <= k < 4
      ensures ParseDecimal(SplitDots(s)[k]) == Some(q[k])
    {
      ParseDecimalOfInt(q[k]);
    }
    ParseOctetsOf(SplitDots(s), q);
  }

  lemma Assoc(x: string, y: string, z: string)
    ensures x + y + z == x + (y + z)
  {
  }

  lemma DottedIsCanonical(q: seq<int>)
    requires IsOctets(q)
    ensures IsCanonical(Dotted(q))
  {
    ParseDotted(q);
  }

  /** Distinct octet quadruples render as distinct strings. */
  lemma DottedInjective(p: seq<int>, q: seq<int>)
    requires IsOctets(p) && IsOctets(q)
    requires Dotted(p) == Dotted(q)
    ensures p == q
  {
    ParseDotted(p);
    ParseDotted(q);
  }

  lemma SmallRenderings()
    ensures IntToString(10) == "10" && IntToString(0) == "0"
  {
    assert NatToString(1) == "1";
    assert NatToString(10) == NatToString(1) + [DigitChar(0)];
  }

  lemma PrivateIPLayout(roverID: int)
    requires 0 <= roverID < 256
    ensures PrivateIP(roverID) == Dotted([10, 0, roverID, 0])
  {
    SmallRenderings();
    var id := IntToString(roverID);
    var q := [10, 0, roverID, 0];
    assert q[1..][1..][1..] == [0];
    assert Dotted(q[1..][1..]) == id + "." + "0";
    assert Dotted(q[1..]) == "0" + "." + Dotted(q[1..][1..]);
    assert Dotted(q) == "10" + "." + Dotted(q[1..]);
    Assoc(id, ".", "0");
    Assoc("10.", "0.", id + ".0");
    assert "10." + "0." == "10.0.";
    Assoc("10.0.", id, ".0");
  }

  /** For ids that fit an octet, `getPrivateIP` builds the dotted quad 10.0.id.0. */
  lemma PrivateIPIsDotted(roverID: int)
    requires 0 <= roverID < 256
    ensures PrivateIP(roverID) == Dotted([10, 0, roverID, 0])
    ensures ParseAddress(PrivateIP(roverID)) == Some([10, 0, roverID, 0])
    ensures AddressId(PrivateIP(roverID)) == roverID
    ensures IsRoverAddress(PrivateIP(roverID))
    ensures IsCanonical(PrivateIP(roverID))
  {
    PrivateIPLayout(roverID);
    ParseDotted([10, 0, roverID, 0]);
  }

  /** Different ids give different private addresses. */
  lemma PrivateIPInjective(a: int, b: int)
    requires PrivateIP(a) == PrivateIP(b)
    ensures a == b
  {
    var s := PrivateIP(a);
    assert IntToString(a) == s[5..|s| - 2];
    assert IntToString(b) == s[5..|s| - 2];
    IntToStringInjective(a, b);
  }

  lemma {:induction false} DotCountNone(s: string)
    requires '.' !in s
    ensures DotCount(s) == 0
    decreases |s|
  {
    if |s| > 0 {
      assert s[0] in s;
      assert forall c :: c in s[1..] ==> c in s;
      DotCountNone(s[1..]);
    }
  }

  lemma {:induction false} DotCountConcat(a: string, b: string)
    ensures DotCount(a + b) == DotCount(a) + DotCount(b)
    decreases |a|
  {
    if |a| > 0 {
      assert (a + b)[0] == a[0];
      assert (a + b)[1..] == a[1..] + b;
      DotCountConcat(a[1..], b);
    } else {
      assert a + b == b;
    }
  }

  /** The rendering of n values holds exactly n - 1 dots: one between each pair. */
  lemma {:induction false} DotCountDotted(q: seq<int>)
    requires |q| > 0
    ensures DotCount(Dotted(q)) == |q| - 1
    decreases |q|
  {
    DotCountNone(IntToString(q[0]));
    if |q| > 1 {
      DotCountDotted(q[1..]);
      DotCountConcat(IntToString(q[0]) + ".", Dotted(q[1..]));
      DotCountConcat(IntToString(q[0]), ".");
    }
  }
}
