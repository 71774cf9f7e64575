/**
  The host prober of scanner.py: `is_pingable`, `get_mac` (with its parsing of
  `ip neigh show` output) and `get_dns`. The external tools are not run; what
  each invocation came to is an input.
*/
module Probe {
  import opened Wrappers
  import opened Text

  /** What running an external tool at one path came to. */
  datatype ToolRun =
    | Missing                            // FileNotFoundError: no binary at that path
    | Raised                             // any other exception while running it or decoding its output
    | Exited(code: int, output: string)  // the process ran: its exit status and decoded standard output

  /** The outcome every external lookup would have for one address. */
  datatype Environment = Environment(
    fpingPrimary: ToolRun,
    fpingFallback: ToolRun,
    reverseDns: Option<string>,  // `socket.gethostbyaddr(ip)[0]`, or None where it raises
    ipPrimary: ToolRun,
    ipFallback: ToolRun)

  /** What the prober learnt about one address. */
  datatype Facts = Facts(pinged: bool, mac: Option<string>, dns: Option<string>)

  const FpingPrimary: string := "/usr/sbin/fping"
  const FpingFallback: string := "/usr/bin/fping"
  const IpPrimary: string := "/usr/sbin/ip"
  const IpFallback: string := "/sbin/ip"
  const ReverseDns: string := "gethostbyaddr"
  const Lladdr: string := "lladdr"

  predicate ExitedZero(run: ToolRun) {
    run.Exited? && run.code == 0
  }

  /** `is_pingable`: fping at /usr/sbin, then at /usr/bin only if the first is missing. */
  function IsPingable(primary: ToolRun, fallback: ToolRun): (r: Attempted<bool>)
    ensures r.result <==> ExitedZero(primary) || (primary.Missing? && ExitedZero(fallback))
    ensures r.tried == if primary.Missing? then [FpingPrimary, FpingFallback] else [FpingPrimary]
  {
    match primary
    case Exited(code, _) => Attempted(code == 0, [FpingPrimary])
    case Raised => Attempted(false, [FpingPrimary])
    case Missing =>
      var ok := match fallback
        case Exited(code, _) => code == 0
        case _ => false;
      Attempted(ok, [FpingPrimary, FpingFallback])
  }

  /**
    `line.split("lladdr")[1].split()[0]` for a line that contains "lladdr";
    `None` where there is no word after it, so the indexing raises and
    `get_mac` returns None.
  */
  function LladdrToken(line: string): (r: Option<string>)
    requires Contains(line, Lladdr)
    ensures var field := SecondField(line, Lladdr);
      (r.None? <==> forall k :: 0 <= k < |field| ==> IsSpace(field[k])) &&
      (r.Some? ==> TokenAt(field, r.value, SkipSpace(field, 0)))
  {
    FirstToken(SecondField(line, Lladdr))
  }

  /** The first line mentioning "lladdr" decides; without one there is no address. */
  function FirstLladdr(lines: seq<string>): (r: Option<string>)
    ensures r.Some? ==> |r.value| > 0 && forall i :: 0 <= i < |r.value| ==> !IsSpace(r.value[i])
    ensures (forall j :: 0 <= j < |lines| ==> !Contains(lines[j], Lladdr)) ==> r == None
  {
    if lines == [] then None
    else if Contains(lines[0], Lladdr) then LladdrToken(lines[0])
    else FirstLladdr(lines[1..])
  }

  /** The MAC address `get_mac` reads from the output of `ip neigh show`. */
  function ParseNeighbours(out: string): (r: Option<string>)
    ensures r.Some? ==> |r.value| > 0 && forall i :: 0 <= i < |r.value| ==> !IsSpace(r.value[i])
    ensures out == [] ==> r == None
  {
    FirstLladdr(SplitLines(out))
  }

  /** The line that decides is the first one that mentions "lladdr". */
  lemma {:induction false} FirstLladdrAt(lines: seq<string>, k: nat)
    requires k < |lines| && Contains(lines[k], Lladdr)
    requires forall j :: 0 <= j < k ==> !Contains(lines[j], Lladdr)
    ensures FirstLladdr(lines) == LladdrToken(lines[k])
    decreases k
  {
    if k > 0 {
      assert !Contains(lines[0], Lladdr);
      FirstLladdrAt(lines[1..], k - 1);
    }
  }

  /** Output that nowhere mentions "lladdr" gives no address. */
  lemma NoLladdrNoMac(out: string)
    requires !Contains(out, Lladdr)
    ensures ParseNeighbours(out) == None
  {
    var lines := SplitLines(out);
    forall j | 0 <= j < |lines| ensures !Contains(lines[j], Lladdr) {
      LinesOccurInText(out, j);
      var p: nat :| OccursAt(out, lines[j], p);
      NotContainedInPiece(out, lines[j], p, Lladdr);
    }
  }

  /** Where an address is read, it is a word of some line: non-empty, without whitespace, without "lladdr". */
  lemma {:induction false} FirstLladdrShape(lines: seq<string>)
    requires FirstLladdr(lines).Some?
    ensures exists k, p: nat :: 0 <= k < |lines| && OccursAt(lines[k], FirstLladdr(lines).value, p)
    ensures var t := FirstLladdr(lines).value;
      |t| > 0 && (forall i :: 0 <= i < |t| ==> !IsSpace(t[i])) && !Contains(t, Lladdr)
    decreases |lines|
  {
    var t := FirstLladdr(lines).value;
    if Contains(lines[0], Lladdr) {
      var field := SecondField(lines[0], Lladdr);
      var a := Find(lines[0], Lladdr).value + |Lladdr|;
      var b := SkipSpace(field, 0);
      assert TokenAt(field, t, b);
      OccursWithin(lines[0], field, a, t, b);
      NotContainedInPiece(field, t, b, Lladdr);
    } else {
      FirstLladdrShape(lines[1..]);
      var k, p: nat :| 0 <= k < |lines[1..]| && OccursAt(lines[1..][k], t, p);
      assert OccursAt(lines[k + 1], t, p);
    }
  }

  /** The MAC address taken from the neighbour table is one word of the tool's output. */
  lemma NeighbourMacShape(out: string)
    requires ParseNeighbours(out).Some?
    ensures var t := ParseNeighbours(out).value;
      |t| > 0 && (forall i :: 0 <= i < |t| ==> !IsSpace(t[i])) && !Contains(t, Lladdr) &&
      exists p: nat :: OccursAt(out, t, p)
  {
    var lines := SplitLines(out);
    var t := ParseNeighbours(out).value;
    FirstLladdrShape(lines);
    var k, q: nat :| 0 <= k < |lines| && OccursAt(lines[k], t, q);
    LinesOccurInText(out, k);
    var p: nat :| OccursAt(out, lines[k], p);
    OccursWithin(out, lines[k], p, t, q);
  }

  /** `get_mac`'s loop over the output lines, returning at the first that mentions "lladdr". */
  method ReadNeighbours(out: string) returns (mac: Option<string>)
    ensures mac == ParseNeighbours(out)
  {
    var lines := SplitLines(out);
    var i := 0;
    while i < |lines|
      invariant i <= |lines|
      invariant FirstLladdr(lines[i..]) == FirstLladdr(lines)
    {
      if Contains(lines[i], Lladdr) {
        return LladdrToken(lines[i]);
      }
      assert lines[i..][1..] == lines[i + 1..];
      i := i + 1;
    }
    return None;
  }

  /** `get_mac`: /usr/sbin/ip, then /sbin/ip only if the first is missing; every failure gives None. */
  function MacLookup(primary: ToolRun, fallback: ToolRun): (r: Attempted<Option<string>>)
    ensures r.tried == if primary.Missing? then [IpPrimary, IpFallback] else [IpPrimary]
    ensures r.result.Some? ==>
      (ExitedZero(primary) && r.result == ParseNeighbours(primary.output)) ||
      (primary.Missing? && ExitedZero(fallback) && r.result == ParseNeighbours(fallback.output))
    ensures ExitedZero(primary) ==> r.result == ParseNeighbours(primary.output)
    ensures primary.Missing? && ExitedZero(fallback) ==> r.result == ParseNeighbours(fallback.output)
    ensures primary.Raised? || (primary.Exited? && primary.code != 0) ==> r.result == None
    ensures primary.Missing? && !ExitedZero(fallback) ==> r.result == None
  {
    match primary
    case Exited(code, out) => Attempted(if code == 0 then ParseNeighbours(out) else None, [IpPrimary])
    case Raised => Attempted(None, [IpPrimary])
    case Missing =>
      var mac := match fallback
        case Exited(code, out) => if code == 0 then ParseNeighbours(out) else None
        case _ => None;
      Attempted(mac, [IpPrimary, IpFallback])
  }

  /** `get_mac`, step by step. */
  method GetMac(primary: ToolRun, fallback: ToolRun) returns (mac: Option<string>, tried: seq<string>)
    ensures Attempted(mac, tried) == MacLookup(primary, fallback)
  {
    tried := [IpPrimary];
    match primary {
      case Exited(code, out) =>
        if code != 0 {
          // CalledProcessError: no fallback
          return None, tried;
        }
        mac := ReadNeighbours(out);
      case Raised =>
        mac := None;
      case Missing =>
        tried := tried + [IpFallback];
        mac := None;
        if fallback.Exited? && fallback.code == 0 {
          mac := ReadNeighbours(fallback.output);
        }
    }
  }

  /** The probing half of `scan_ip`: ping first, then DNS and MAC only for a host that answered. */
  function ProbeHost(env: Environment): (r: Attempted<Facts>)
    ensures r.result.pinged == IsPingable(env.fpingPrimary, env.fpingFallback).result
    ensures !r.result.pinged ==> r.result.mac == None && r.result.dns == None
    ensures !r.result.pinged ==> forall k :: 0 <= k < |r.tried| ==> r.tried[k] in {FpingPrimary, FpingFallback}
    ensures r.result.pinged ==>
      r.result.dns == env.reverseDns && r.result.mac == MacLookup(env.ipPrimary, env.ipFallback).result &&
      ReverseDns in r.tried && IpPrimary in r.tried
  {
    var ping := IsPingable(env.fpingPrimary, env.fpingFallback);
    if !ping.result then
      Attempted(Facts(false, None, None), ping.tried)
    else
      var mac := MacLookup(env.ipPrimary, env.ipFallback);
      Attempted(Facts(true, mac.result, env.reverseDns), ping.tried + [ReverseDns] + mac.tried)
  }

  /** For a host that did not answer, what the DNS and neighbour lookups would say makes no difference. */
  lemma UnreachableIgnoresLookups(env: Environment, other: Environment)
    requires other.fpingPrimary == env.fpingPrimary && other.fpingFallback == env.fpingFallback
    requires !ProbeHost(env).result.pinged
    ensures ProbeHost(other) == ProbeHost(env)
  {
  }
}
