/** util/martini_plugin.go, ACL: the allow-list every request passes
    before it reaches a handler. Addresses are IPv4 only: an address is
    four dot-separated decimal fields of at most 255, and a network is an
    address, a '/' and a prefix length of at most 32 (the prefix notation
    of section 3.1 of RFC 4632). */
module Acl {
  import opened Wrappers
  import opened Text
  import opened HaLib

  /** An IPv4 address as its 32-bit value. */
  type IPv4 = n: nat | n < 0x1_0000_0000

  /** 127.0.0.1, which is let through whatever the list says. */
  const Loopback: IPv4 := 0x7F00_0001

  // ---------------------------------------------------------------------
  // Addresses

  /** One field of a dotted quad: decimal digits with a value of at most
      255 (leading zeros accepted). */
  predicate Octet(s: string)
  {
    |s| > 0 && AllDigits(s) && DigitsValue(s) <= 255
  }

  /** The four fields of a dotted quad. */
  datatype Quad = Quad(a: nat, b: nat, c: nat, d: nat)
  {
    predicate Valid()
    {
      a <= 255 && b <= 255 && c <= 255 && d <= 255
    }

    /** The address, most significant field first. */
    function Value(): IPv4
      requires Valid()
    {
      a * 0x100_0000 + b * 0x1_0000 + c * 0x100 + d
    }
  }

  /** net.ParseIP restricted to IPv4: anything else is unparsable. */
  function ParseIPv4(s: string): Option<IPv4>
  {
    var fields := Split(s, '.');
    if |fields| == 4 && Octet(fields[0]) && Octet(fields[1]) && Octet(fields[2]) && Octet(fields[3]) then
      Some(Quad(DigitsValue(fields[0]), DigitsValue(fields[1]), DigitsValue(fields[2]), DigitsValue(fields[3])).Value())
    else None
  }

  /** The dotted-quad text of an address (net.IP.String for IPv4). */
  function FormatIPv4(q: Quad): string
  {
    Join([NatToString(q.a), NatToString(q.b), NatToString(q.c), NatToString(q.d)], ".")
  }

  lemma OctetText(n: nat)
    requires n <= 255
    ensures Octet(NatToString(n)) && DigitsValue(NatToString(n)) == n && '.' !in NatToString(n)
  {
    NatToStringDigits(n);
    NatToStringNoChar(n, '.');
  }

  /** Every address's text parses back to it. */
  lemma ParseFormat(q: Quad)
    requires q.Valid()
    ensures ParseIPv4(FormatIPv4(q)) == Some(q.Value())
    ensures '/' !in FormatIPv4(q)
  {
    OctetText(q.a);
    OctetText(q.b);
    OctetText(q.c);
    OctetText(q.d);
    var parts := [NatToString(q.a), NatToString(q.b), NatToString(q.c), NatToString(q.d)];
    SplitJoin(parts, '.');
    NoCharJoin(parts, '.', '/');
  }

  /** No '/' occurs in a join of '/'-free decimal pieces. */
  lemma {:induction false} NoCharJoin(parts: seq<string>, sep: char, c: char)
    requires c != sep && forall k :: 0 <= k < |parts| ==> AllDigits(parts[k])
    requires !IsDigit(c)
    ensures c !in Join(parts, [sep])
  {
    if |parts| > 1 {
      NoCharJoin(parts[1..], sep, c);
      assert c !in parts[0];
    } else if |parts| == 1 {
      assert c !in parts[0];
    }
  }

  // ---------------------------------------------------------------------
  // Networks

  function Pow2(n: nat): (p: nat)
    ensures p >= 1
  {
    if n == 0 then 1 else 2 * Pow2(n - 1)
  }

  /** `host` lies in the network of `ip` with a prefix of `bits` bits:
      their first `bits` bits agree. */
  predicate InNetwork(host: IPv4, ip: IPv4, bits: nat)
    requires bits <= 32
  {
    host / Pow2(32 - bits) == ip / Pow2(32 - bits)
  }

  /** The position of the first `c` in `s`. */
  function IndexOf(s: string, c: char): (k: nat)
    requires c in s
    ensures k < |s| && s[k] == c && c !in s[..k]
  {
    if s[0] == c then 0
    else
      assert c in s[1..] by {
        var j :| 0 <= j < |s| && s[j] == c;
        assert s[1..][j - 1] == c;
      }
      var k := IndexOf(s[1..], c) + 1;
      assert s[..k] == [s[0]] + s[1..][..k - 1];
      k
  }

  /** net.ParseCIDR restricted to IPv4: the address before the first '/'
      and the decimal prefix length after it. */
  function ParseCIDR(s: string): (r: Option<(IPv4, nat)>)
    ensures r.Some? ==> r.value.1 <= 32 && '/' in s
  {
    if '/' !in s then None
    else
      var k := IndexOf(s, '/');
      var mask := s[k + 1..];
      match ParseIPv4(s[..k])
      case None => None
      case Some(ip) =>
        if |mask| > 0 && AllDigits(mask) && DigitsValue(mask) <= 32 then Some((ip, DigitsValue(mask))) else None
  }

  // ---------------------------------------------------------------------
  // The decision

  /** An allow-list entry: a single address or a network. */
  datatype Rule = Address(ip: IPv4) | Network(ip: IPv4, bits: nat)

  /** An entry is read as a network first, then as an address. */
  function ParseRule(entry: string): (r: Option<Rule>)
    ensures r.Some? && r.value.Network? ==> r.value.bits <= 32
  {
    match ParseCIDR(entry)
    case Some((ip, bits)) => Some(Network(ip, bits))
    case None =>
      match ParseIPv4(entry)
      case Some(ip) => Some(Address(ip))
      case None => None
  }

  /** The entry's address equals the host, or its network contains it. */
  predicate Matches(rule: Rule, host: IPv4)
    requires rule.Network? ==> rule.bits <= 32
  {
    rule.ip == host || (rule.Network? && InNetwork(host, rule.ip, rule.bits))
  }

  /** What the middleware does with a request: let it through to the
      handler, or answer with an error. */
  datatype Verdict = Pass | Refuse(code: int, message: string)

  const AccessDenied: Verdict := Refuse(StatusForbidden, "Access Denied")
  const UnparsableRemote: Verdict := Refuse(StatusForbidden, "Unable to parse remote address")

  function FormatError(entry: string): Verdict
  {
    Refuse(StatusServiceUnavailable, "ACL format error: " + entry)
  }

  /** What one entry does to the scan: go on (an empty entry, or one that
      does not match), let the request through, or stop on a format error. */
  datatype Step = Skip | Admit | Bad(entry: string)

  function Classify(entry: string, host: IPv4): Step
  {
    if entry == "" then Skip
    else
      match ParseRule(entry)
      case None => Bad(entry)
      case Some(rule) => if Matches(rule, host) then Admit else Skip
  }

  /** The scan from position `from`: the first step that is not a skip
      decides; the end of the list refuses with 403. */
  function ScanFrom(steps: seq<Step>, from: nat): Verdict
    requires from <= |steps|
    decreases |steps| - from
  {
    if from == |steps| then AccessDenied
    else
      match steps[from]
      case Skip => ScanFrom(steps, from + 1)
      case Admit => Pass
      case Bad(entry) => FormatError(entry)
  }

  /** The steps of a whole list for one host. */
  function Steps(allowIPs: seq<string>, host: IPv4): (steps: seq<Step>)
    ensures |steps| == |allowIPs|
    ensures forall j :: 0 <= j < |allowIPs| ==> steps[j] == Classify(allowIPs[j], host)
  {
    seq(|allowIPs|, j requires 0 <= j < |allowIPs| => Classify(allowIPs[j], host))
  }

  /** The verdict for a request from `rawHost`, the remote address without
      its port. */
  function Decision(allowIPs: seq<string>, rawHost: string): Verdict
  {
    match ParseIPv4(rawHost)
    case None => UnparsableRemote
    case Some(host) => if host == Loopback then Pass else ScanFrom(Steps(allowIPs, host), 0)
  }

  /** The middleware's loop. */
  method Check(allowIPs: seq<string>, rawHost: string) returns (verdict: Verdict)
    ensures verdict == Decision(allowIPs, rawHost)
  {
    var parsed := ParseIPv4(rawHost);
    if parsed.None? {
      return UnparsableRemote;
    }
    var host := parsed.value;
    if host == Loopback {
      return Pass;
    }
    ghost var steps := Steps(allowIPs, host);
    for i := 0 to |allowIPs|
      invariant ScanFrom(steps, 0) == ScanFrom(steps, i)
    {
      var rawIP := allowIPs[i];
      if rawIP == "" {
        continue;
      }
      var rule := ParseRule(rawIP);
      if rule.None? {
        return FormatError(rawIP);
      }
      if Matches(rule.value, host) {
        return Pass;
      }
    }
    return AccessDenied;
  }

  // ---------------------------------------------------------------------
  // Properties

  /** Every step of `steps[from..i]` is a skip. */
  predicate SkipsAll(steps: seq<Step>, from: nat, i: nat)
    requires from <= i <= |steps|
  {
    forall j :: from <= j < i ==> steps[j] == Skip
  }

  /** The scan lets the request through exactly when some entry admits
      it and every entry before it skips. */
  lemma {:induction false} ScanPasses(steps: seq<Step>, from: nat)
    requires from <= |steps|
    ensures ScanFrom(steps, from) == Pass <==>
      exists i :: from <= i < |steps| && steps[i] == Admit && SkipsAll(steps, from, i)
    decreases |steps| - from
  {
    if from < |steps| {
      ScanPasses(steps, from + 1);
      if steps[from] == Admit {
        assert SkipsAll(steps, from, from);
      } else if steps[from] == Skip {
        if ScanFrom(steps, from) == Pass {
          var i :| from + 1 <= i < |steps| && steps[i] == Admit && SkipsAll(steps, from + 1, i);
          assert SkipsAll(steps, from, i);
        }
        if exists i :: from <= i < |steps| && steps[i] == Admit && SkipsAll(steps, from, i) {
          var i :| from <= i < |steps| && steps[i] == Admit && SkipsAll(steps, from, i);
          assert SkipsAll(steps, from + 1, i);
        }
      }
    }
  }

  /** Skipped entries do not change the outcome; so the first entry that
      does not skip, if unparsable, refuses with 503 naming it. */
  lemma {:induction false} ScanSkipped(steps: seq<Step>, from: nat, i: nat)
    requires from <= i <= |steps| && SkipsAll(steps, from, i)
    ensures ScanFrom(steps, from) == ScanFrom(steps, i)
    ensures i < |steps| && steps[i].Bad? ==> ScanFrom(steps, from) == FormatError(steps[i].entry)
    decreases i - from
  {
    if from < i {
      assert SkipsAll(steps, from + 1, i);
      ScanSkipped(steps, from + 1, i);
    }
  }

  /** A 503 always comes from an unparsable entry that the scan reached. */
  lemma {:induction false} FormatErrorSource(steps: seq<Step>, from: nat)
    requires from <= |steps|
    requires ScanFrom(steps, from).Refuse? && ScanFrom(steps, from).code == StatusServiceUnavailable
    ensures exists i :: (from <= i < |steps| && steps[i].Bad? && SkipsAll(steps, from, i) &&
      ScanFrom(steps, from) == FormatError(steps[i].entry))
    decreases |steps| - from
  {
    if steps[from] == Skip {
      FormatErrorSource(steps, from + 1);
      var i :| from + 1 <= i < |steps| && steps[i].Bad? && SkipsAll(steps, from + 1, i) &&
        ScanFrom(steps, from + 1) == FormatError(steps[i].entry);
      assert SkipsAll(steps, from, i);
    } else {
      assert SkipsAll(steps, from, from);
    }
  }

  /** The scan ends in "Access Denied" exactly when every entry skips. */
  lemma {:induction false} ScanDenied(steps: seq<Step>, from: nat)
    requires from <= |steps|
    ensures ScanFrom(steps, from) == AccessDenied <==> SkipsAll(steps, from, |steps|)
    decreases |steps| - from
  {
    if from < |steps| {
      ScanDenied(steps, from + 1);
    }
  }

  /** An entry skips when it is empty or parses without matching, admits
      when it parses and matches, and is bad when it is neither empty nor
      parsable. */
  lemma ClassifyCases(entry: string, host: IPv4)
    ensures Classify(entry, host) == Skip <==>
      entry == "" || (ParseRule(entry).Some? && !Matches(ParseRule(entry).value, host))
    ensures Classify(entry, host) == Admit <==>
      entry != "" && ParseRule(entry).Some? && Matches(ParseRule(entry).value, host)
    ensures Classify(entry, host) == Bad(entry) <==> entry != "" && ParseRule(entry).None?
  {
  }

  /** Requests from 127.0.0.1 always pass. */
  lemma LoopbackPasses(allowIPs: seq<string>)
    ensures Decision(allowIPs, "127.0.0.1") == Pass
  {
    DottedText(Quad(127, 0, 0, 1), "127.0.0.1");
  }

  /** An unparsable entry refuses with 503 before anything else is
      looked at: ["FAIL"] refuses 192.168.0.1. */
  lemma FormatErrorFirst(rawHost: string)
    requires ParseIPv4(rawHost).Some? && ParseIPv4(rawHost).value != Loopback
    ensures Decision(["FAIL"], rawHost) == Refuse(StatusServiceUnavailable, "ACL format error: FAIL")
  {
    assert Split("FAIL", '.') == ["FAIL"] by {
      SplitFirst("FAIL", '.');
    }
    assert ParseRule("FAIL").None?;
  }

  /** A network written as its dotted quad, '/', and its prefix length
      parses back to that network. */
  lemma ParseCIDRFormat(q: Quad, bits: nat)
    requires q.Valid() && bits <= 32
    ensures ParseRule(FormatIPv4(q) + "/" + NatToString(bits)) == Some(Network(q.Value(), bits))
  {
    ParseFormat(q);
    NatToStringDigits(bits);
    var t := FormatIPv4(q);
    var s := t + "/" + NatToString(bits);
    assert s[|t|] == '/';
    assert IndexOf(s, '/') == |t|;
    assert s[..|t|] == t;
    assert s[|t| + 1..] == NatToString(bits);
  }

  /** A /24 network holds exactly the addresses that share its first
      three fields. */
  lemma Network24(h: Quad, n: Quad)
    requires h.Valid() && n.Valid()
    ensures InNetwork(h.Value(), n.Value(), 24) <==> h.a == n.a && h.b == n.b && h.c == n.c
  {
    assert Pow2(8) == 256;
    assert h.Value() / 256 == h.a * 0x1_0000 + h.b * 0x100 + h.c;
    assert n.Value() / 256 == n.a * 0x1_0000 + n.b * 0x100 + n.c;
  }

  /** A list holding one /24 network lets a host other than 127.0.0.1
      through exactly when the host shares the network's first three
      fields, and denies it otherwise: 12.12.12.12 passes 12.12.12.0/24
      and is denied by 192.168.0.0/24. */
  lemma OneNetwork(h: Quad, n: Quad)
    requires h.Valid() && n.Valid() && h.Value() != Loopback
    ensures Decision([FormatIPv4(n) + "/" + NatToString(24)], FormatIPv4(h)) ==
      if h.a == n.a && h.b == n.b && h.c == n.c then Pass else AccessDenied
  {
    var entry := FormatIPv4(n) + "/" + NatToString(24);
    ParseCIDRFormat(n, 24);
    ParseFormat(h);
    Network24(h, n);
    assert entry != "" by {
      assert entry[|FormatIPv4(n)|] == '/';
    }
    var step := Classify(entry, h.Value());
    assert step == if InNetwork(h.Value(), n.Value(), 24) then Admit else Skip;
    var steps := Steps([entry], h.Value());
    assert steps == [step];
    assert ScanFrom(steps, 0) == if step == Admit then Pass else AccessDenied;
  }

  /** A literal dotted quad parses to its value. */
  lemma DottedText(q: Quad, text: string)
    requires q.Valid() && FormatIPv4(q) == text
    ensures ParseIPv4(text) == Some(q.Value())
  {
    ParseFormat(q);
  }
}
