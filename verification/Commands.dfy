/** The configuration commands: what a line means, what a file of lines does, and how settings print. */
module Commands {
  import opened Basics
  import opened Text

  datatype Rate = Fast | Slow

  datatype Settings = Settings(srcIp: Word, dstIp: Word, gateway: Word, subnet: Word,
                               srcPort: Half, adc0Port: Half, adc1Port: Half, tcPort: Half,
                               adc0Rate: Rate, adc1Rate: Rate)

  datatype IpKey = SrcIp | DstIp | Gateway | Subnet
  datatype PortKey = SrcPort | Adc0Port | Adc1Port | TcPort
  datatype RateKey = Adc0Rate | Adc1Rate

  /** What one line asks for; `NullValue` is a keyed command without a value, which the C code dereferences. */
  datatype Command =
    | SetIp(ip: IpKey, addr: Word)
    | SetPort(port: PortKey, num: Half)
    | SetRate(rate: RateKey, value: Rate)
    | Reset
    | Bad(msg: string)
    | NullValue

  /** The address parser of the network stack, which is not part of this repository. */
  type AddrParser = seq<Ch> -> Option<Word>

  function IpCommand(aton: AddrParser, k: IpKey, val: Option<seq<Ch>>, msg: string): Command {
    if val.None? then NullValue
    else if aton(val.value).None? then Bad(msg) else SetIp(k, aton(val.value).value)
  }

  /** (uint16_t)atoi(val) */
  function PortCommand(k: PortKey, val: Option<seq<Ch>>): Command {
    if val.None? then NullValue else SetPort(k, Atoi(val.value) % 0x1_0000)
  }

  function RateCommand(k: RateKey, val: Option<seq<Ch>>, msg: string): Command {
    if val.None? then NullValue
    else if val.value == "fast" then SetRate(k, Fast)
    else if val.value == "slow" then SetRate(k, Slow) else Bad(msg)
  }

  function KeyCommand(aton: AddrParser, key: seq<Ch>, val: Option<seq<Ch>>): Command {
    if key == "ip.src" then IpCommand(aton, SrcIp, val, "unable to parse ip.src")
    else if key == "ip.dst" then IpCommand(aton, DstIp, val, "unable to parse ip.dst")
    else if key == "ip.gw" then IpCommand(aton, Gateway, val, "unable to parse ip.gw")
    else if key == "ip.subnet" then IpCommand(aton, Subnet, val, "unable to parse ip.subnet")
    else if key == "udp.src" then PortCommand(SrcPort, val)
    else if key == "udp.adc0" then PortCommand(Adc0Port, val)
    else if key == "udp.adc1" then PortCommand(Adc1Port, val)
    else if key == "udp.tc" then PortCommand(TcPort, val)
    else if key == "rate.adc0" then RateCommand(Adc0Rate, val, "invalid ADC0 rate")
    else if key == "rate.adc1" then RateCommand(Adc1Rate, val, "invalid ADC1 rate")
    else if key == "reset" then Reset
    else Bad("unknown config parameter")
  }

  /** The key of a command in lower case, and the text after the first `=`, in the case it was written in. */
  function KeyOf(cmd: seq<Ch>): seq<Ch> {
    LowerAll(cmd[..Find(cmd, '=')])
  }

  function ValueOf(cmd: seq<Ch>): Option<seq<Ch>> {
    var e := Find(cmd, '=');
    if e < |cmd| then Some(cmd[e + 1..]) else None
  }

  /** A line counts only up to its first zero byte. */
  function Meaning(aton: AddrParser, line: seq<Ch>): Command {
    KeyCommand(aton, KeyOf(CStr(line)), ValueOf(CStr(line)))
  }

  function Apply(s: Settings, c: Command): Settings {
    match c
    case SetIp(SrcIp, a) => s.(srcIp := a)
    case SetIp(DstIp, a) => s.(dstIp := a)
    case SetIp(Gateway, a) => s.(gateway := a)
    case SetIp(Subnet, a) => s.(subnet := a)
    case SetPort(SrcPort, n) => s.(srcPort := n)
    case SetPort(Adc0Port, n) => s.(adc0Port := n)
    case SetPort(Adc1Port, n) => s.(adc1Port := n)
    case SetPort(TcPort, n) => s.(tcPort := n)
    case SetRate(Adc0Rate, r) => s.(adc0Rate := r)
    case SetRate(Adc1Rate, r) => s.(adc1Rate := r)
    case _ => s
  }

  predicate IsGood(c: Command) {
    !c.Bad? && !c.NullValue?
  }

  // ---- a whole file -------------------------------------------------------------------------------------------------

  datatype Verdict = Accepted | Rejected(msg: string) | Undefined

  /** The settings after parsing, whether a reset was asked for, and how the parse ended. */
  datatype Parsed = Parsed(settings: Settings, reset: bool, verdict: Verdict)

  /** Command by command, as the scanner of the C code goes through its buffer. */
  function Parse(aton: AddrParser, text: seq<Ch>, s: Settings, reset: bool): Parsed
    decreases |text|
  {
    if text == [] then Parsed(s, reset, Accepted)
    else
      var e := Find(text, '\n');
      if e == |text| then Parsed(s, reset, Rejected("command not newline terminated"))
      else
        var c := Meaning(aton, text[..e]);
        if c.Bad? then Parsed(s, reset, Rejected(c.msg))
        else if c.NullValue? then Parsed(s, reset, Undefined)
        else Parse(aton, text[e + 1..], Apply(s, c), reset || c.Reset?)
  }

  // ---- the reference: folding over lines ----------------------------------------------------------------------------

  /** Lines joined into a file, each ended by a newline. */
  function Join(lines: seq<seq<Ch>>): seq<Ch> {
    if lines == [] then [] else lines[0] + ['\n'] + Join(lines[1..])
  }

  /** The newline-ended lines of a text, and what follows the last newline. */
  function Lines(text: seq<Ch>): (r: (seq<seq<Ch>>, seq<Ch>))
    decreases |text|
  {
    var e := Find(text, '\n');
    if e == |text| then ([], text)
    else var (ls, rest) := Lines(text[e + 1..]); ([text[..e]] + ls, rest)
  }

  lemma JoinCons(line: seq<Ch>, more: seq<seq<Ch>>)
    ensures Join([line] + more) == line + ['\n'] + Join(more)
  {
    assert ([line] + more)[1..] == more;
  }

  lemma Reassociate(text: seq<Ch>, e: nat, joined: seq<Ch>, rest: seq<Ch>)
    requires e < |text| && text[e] == '\n' && text[e + 1..] == joined + rest
    ensures text == text[..e] + ['\n'] + joined + rest
  {
    assert text == text[..e] + [text[e]] + text[e + 1..];
  }

  /** Splitting loses nothing, and no line holds a newline. */
  lemma {:induction false} LinesJoin(text: seq<Ch>)
    ensures text == Join(Lines(text).0) + Lines(text).1
    ensures '\n' !in Lines(text).1 && forall i :: 0 <= i < |Lines(text).0| ==> '\n' !in Lines(text).0[i]
    decreases |text|
  {
    var e := Find(text, '\n');
    if e < |text| {
      var (more, rest) := Lines(text[e + 1..]);
      LinesJoin(text[e + 1..]);
      JoinCons(text[..e], more);
      Reassociate(text, e, Join(more), rest);
    }
  }

  /** The first line, if any, that is not a good command. */
  function FirstBad(aton: AddrParser, lines: seq<seq<Ch>>): (i: nat)
    ensures i <= |lines|
    ensures i < |lines| ==> !IsGood(Meaning(aton, lines[i]))
    ensures forall j :: 0 <= j < i ==> IsGood(Meaning(aton, lines[j]))
  {
    if lines == [] then 0
    else if !IsGood(Meaning(aton, lines[0])) then 0 else 1 + FirstBad(aton, lines[1..])
  }

  function FoldLines(aton: AddrParser, lines: seq<seq<Ch>>, s: Settings): Settings {
    if lines == [] then s else FoldLines(aton, lines[1..], Apply(s, Meaning(aton, lines[0])))
  }

  predicate AnyReset(aton: AddrParser, lines: seq<seq<Ch>>) {
    exists i :: 0 <= i < |lines| && Meaning(aton, lines[i]).Reset?
  }

  function VerdictOf(aton: AddrParser, lines: seq<seq<Ch>>, rest: seq<Ch>): Verdict {
    var i := FirstBad(aton, lines);
    if i < |lines| then
      var c := Meaning(aton, lines[i]);
      if c.Bad? then Rejected(c.msg) else Undefined
    else if rest != [] then Rejected("command not newline terminated") else Accepted
  }

  /** What carrying out the lines of a text comes to. */
  function Folded(aton: AddrParser, ls: seq<seq<Ch>>, rest: seq<Ch>, s: Settings, reset: bool): Parsed {
    var done := ls[..FirstBad(aton, ls)];
    Parsed(FoldLines(aton, done, s), reset || AnyReset(aton, done), VerdictOf(aton, ls, rest))
  }

  /** Taking one good line off the front. */
  lemma FoldedCons(aton: AddrParser, line: seq<Ch>, more: seq<seq<Ch>>, rest: seq<Ch>, s: Settings, reset: bool)
    requires IsGood(Meaning(aton, line))
    ensures Folded(aton, [line] + more, rest, s, reset)
      == Folded(aton, more, rest, Apply(s, Meaning(aton, line)), reset || Meaning(aton, line).Reset?)
  {
    var done := more[..FirstBad(aton, more)];
    FirstBadCons(aton, line, more, rest);
    assert ([line] + done)[1..] == done;
    ResetCons(aton, line, done);
  }

  lemma FirstBadCons(aton: AddrParser, line: seq<Ch>, more: seq<seq<Ch>>, rest: seq<Ch>)
    requires IsGood(Meaning(aton, line))
    ensures var ls := [line] + more; var i := FirstBad(aton, more);
      && FirstBad(aton, ls) == i + 1 && ls[..i + 1] == [line] + more[..i]
      && VerdictOf(aton, ls, rest) == VerdictOf(aton, more, rest)
  {
    assert ([line] + more)[1..] == more;
  }

  /**
   The parser against the fold. The settings are those of the lines before the first that is not good, which
   stay applied; the file is accepted exactly if every line is good and nothing follows the last newline; and a
   reset is noted exactly if one of the lines carried out was `reset`.
   */
  lemma {:induction false} ParseIsFold(aton: AddrParser, text: seq<Ch>, s: Settings, reset: bool)
    ensures var (ls, rest) := Lines(text); Parse(aton, text, s, reset) == Folded(aton, ls, rest, s, reset)
    decreases |text|
  {
    var e := Find(text, '\n');
    if e < |text| {
      var c := Meaning(aton, text[..e]);
      var (more, rest) := Lines(text[e + 1..]);
      if IsGood(c) {
        FoldedCons(aton, text[..e], more, rest, s, reset);
        ParseIsFold(aton, text[e + 1..], Apply(s, c), reset || c.Reset?);
      }
    }
  }

  /** Every line is a good command and nothing follows the last newline. */
  predicate WholeGood(aton: AddrParser, text: seq<Ch>) {
    var (ls, rest) := Lines(text);
    FirstBad(aton, ls) == |ls| && rest == []
  }

  /** The parse in the terms a user has: which files are accepted, which of them reset, and what is set. */
  lemma ParseOutcome(aton: AddrParser, text: seq<Ch>, s: Settings)
    ensures var r := Parse(aton, text, s, false); var ls := Lines(text).0;
      && (r.verdict.Accepted? <==> WholeGood(aton, text))
      && (WholeGood(aton, text) ==> (r.reset <==> AnyReset(aton, ls)))
      && r.settings == FoldLines(aton, ls[..FirstBad(aton, ls)], s)
  {
    ParseIsFold(aton, text, s, false);
    var ls := Lines(text).0;
    assert ls[..|ls|] == ls;
  }

  lemma ResetCons(aton: AddrParser, line: seq<Ch>, ls: seq<seq<Ch>>)
    ensures AnyReset(aton, [line] + ls) <==> Meaning(aton, line).Reset? || AnyReset(aton, ls)
  {
    var all := [line] + ls;
    assert all[0] == line;
    if AnyReset(aton, ls) {
      var i :| 0 <= i < |ls| && Meaning(aton, ls[i]).Reset?;
      assert all[i + 1] == ls[i];
    }
  }

  // ---- order of settings --------------------------------------------------------------------------------------------

  /** Two commands set the same thing. */
  predicate SameKey(a: Command, b: Command) {
    || (a.SetIp? && b.SetIp? && a.ip == b.ip)
    || (a.SetPort? && b.SetPort? && a.port == b.port)
    || (a.SetRate? && b.SetRate? && a.rate == b.rate)
  }

  /** Settings of distinct keys commute, and of two settings of one key the last wins. */
  lemma SettingsOrder(s: Settings, a: Command, b: Command)
    ensures !SameKey(a, b) ==> Apply(Apply(s, a), b) == Apply(Apply(s, b), a)
    ensures SameKey(a, b) ==> Apply(Apply(s, a), b) == Apply(s, b)
  {
    match a
    case SetIp(k, _) => IpOrder(s, a, b);
    case SetPort(k, _) => PortOrder(s, a, b);
    case _ =>
  }

  lemma IpOrder(s: Settings, a: Command, b: Command)
    requires a.SetIp?
    ensures !SameKey(a, b) ==> Apply(Apply(s, a), b) == Apply(Apply(s, b), a)
    ensures SameKey(a, b) ==> Apply(Apply(s, a), b) == Apply(s, b)
  {
    match a.ip
    case SrcIp =>
    case DstIp =>
    case Gateway =>
    case Subnet =>
  }

  lemma PortOrder(s: Settings, a: Command, b: Command)
    requires a.SetPort?
    ensures !SameKey(a, b) ==> Apply(Apply(s, a), b) == Apply(Apply(s, b), a)
    ensures SameKey(a, b) ==> Apply(Apply(s, a), b) == Apply(s, b)
  {
    match a.port
    case SrcPort =>
    case Adc0Port =>
    case Adc1Port =>
    case TcPort =>
  }
}
