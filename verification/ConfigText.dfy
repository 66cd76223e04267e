/** Printing a configuration as commands and reading it back. */
module ConfigText {
  import opened Basics
  import opened Text
  import opened Commands

  /** The names of the ten settings, in the order they are printed. */
  function Name(i: nat): seq<Ch>
    requires i < 10
  {
    match i
    case 0 => "ip.src"
    case 1 => "ip.dst"
    case 2 => "ip.gw"
    case 3 => "ip.subnet"
    case 4 => "udp.src"
    case 5 => "udp.adc0"
    case 6 => "udp.adc1"
    case 7 => "udp.tc"
    case 8 => "rate.adc0"
    case _ => "rate.adc1"
  }

  type AddrPrinter = Word -> seq<Ch>

  /** The address parser undoes the printer, which prints single-line C strings. */
  ghost predicate Inverts(aton: AddrParser, ntoa: AddrPrinter) {
    forall a: Word :: aton(ntoa(a)) == Some(a) && NUL !in ntoa(a) && '\n' !in ntoa(a)
  }

  function RateText(r: Rate): seq<Ch> {
    if r.Fast? then "fast" else "slow"
  }

  function ValueText(ntoa: AddrPrinter, c: Settings, i: nat): seq<Ch>
    requires i < 10
  {
    match i
    case 0 => ntoa(c.srcIp)
    case 1 => ntoa(c.dstIp)
    case 2 => ntoa(c.gateway)
    case 3 => ntoa(c.subnet)
    case 4 => Decimal(c.srcPort)
    case 5 => Decimal(c.adc0Port)
    case 6 => Decimal(c.adc1Port)
    case 7 => Decimal(c.tcPort)
    case 8 => RateText(c.adc0Rate)
    case _ => RateText(c.adc1Rate)
  }

  /** The command the `i`-th printed line stands for. */
  function CommandAt(c: Settings, i: nat): Command
    requires i < 10
  {
    match i
    case 0 => SetIp(SrcIp, c.srcIp)
    case 1 => SetIp(DstIp, c.dstIp)
    case 2 => SetIp(Gateway, c.gateway)
    case 3 => SetIp(Subnet, c.subnet)
    case 4 => SetPort(SrcPort, c.srcPort)
    case 5 => SetPort(Adc0Port, c.adc0Port)
    case 6 => SetPort(Adc1Port, c.adc1Port)
    case 7 => SetPort(TcPort, c.tcPort)
    case 8 => SetRate(Adc0Rate, c.adc0Rate)
    case _ => SetRate(Adc1Rate, c.adc1Rate)
  }

  /** The lines from the `i`-th on, with keys as spelt by the user. */
  function Print(ntoa: AddrPrinter, keys: seq<seq<Ch>>, c: Settings, i: nat): seq<Ch>
    requires |keys| == 10 && i <= 10
    decreases 10 - i
  {
    if i == 10 then []
    else keys[i] + ['='] + ValueText(ntoa, c, i) + ['\n'] + Print(ntoa, keys, c, i + 1)
  }

  /** `d` with its first `i` settings taken from `c`. */
  function Mixed(d: Settings, c: Settings, i: nat): Settings {
    Settings(if i > 0 then c.srcIp else d.srcIp,
             if i > 1 then c.dstIp else d.dstIp,
             if i > 2 then c.gateway else d.gateway,
             if i > 3 then c.subnet else d.subnet,
             if i > 4 then c.srcPort else d.srcPort,
             if i > 5 then c.adc0Port else d.adc0Port,
             if i > 6 then c.adc1Port else d.adc1Port,
             if i > 7 then c.tcPort else d.tcPort,
             if i > 8 then c.adc0Rate else d.adc0Rate,
             if i > 9 then c.adc1Rate else d.adc1Rate)
  }

  lemma MixedNext(d: Settings, c: Settings, i: nat)
    requires i < 10
    ensures Apply(Mixed(d, c, i), CommandAt(c, i)) == Mixed(d, c, i + 1)
  {
  }

  /** A key in any letter case holds none of the characters that end a key. */
  lemma KeyIsPlain(key: seq<Ch>, i: nat)
    requires i < 10 && LowerAll(key) == Name(i)
    ensures '=' !in key && NUL !in key && '\n' !in key
  {
    NameIsPlain(i);
    forall j | 0 <= j < |key|
      ensures key[j] != '=' && key[j] != NUL && key[j] != '\n'
    {
      assert Lower(key[j]) == LowerAll(key)[j];
      assert Name(i)[j] in Name(i);
    }
  }

  lemma NameIsPlain(i: nat)
    requires i < 10
    ensures forall c :: c in Name(i) ==> c != '=' && c != NUL && c != '\n'
  {
  }

  /** The meaning of `key=value`: the key counts in lower case only, the value exactly as written. */
  lemma MeaningOfPair(aton: AddrParser, key: seq<Ch>, val: seq<Ch>)
    requires '=' !in key && NUL !in key && NUL !in val
    ensures Meaning(aton, key + ['='] + val) == KeyCommand(aton, LowerAll(key), Some(val))
  {
    var line := key + ['='] + val;
    FindIs(line, NUL, |line|);
    assert CStr(line) == line;
    FindIs(line, '=', |key|);
    assert line[..|key|] == key && line[|key| + 1..] == val;
  }

  /** Values are not brought to lower case, whatever the comment beside the loop says. */
  lemma ValuesKeepCase(aton: AddrParser, key: seq<Ch>, val: seq<Ch>, i: nat)
    requires 8 <= i < 10 && LowerAll(key) == Name(i) && NUL !in val
    ensures var rate := if i == 8 then Adc0Rate else Adc1Rate;
      Meaning(aton, key + ['='] + val)
      == if val == "fast" then SetRate(rate, Fast)
         else if val == "slow" then SetRate(rate, Slow)
         else Bad(if i == 8 then "invalid ADC0 rate" else "invalid ADC1 rate")
  {
    KeyIsPlain(key, i);
    MeaningOfPair(aton, key, val);
  }

  lemma ValueIsPlain(aton: AddrParser, ntoa: AddrPrinter, c: Settings, i: nat)
    requires i < 10 && Inverts(aton, ntoa)
    ensures NUL !in ValueText(ntoa, c, i) && '\n' !in ValueText(ntoa, c, i)
  {
  }

  lemma PairMeans(aton: AddrParser, ntoa: AddrPrinter, c: Settings, i: nat)
    requires i < 10 && Inverts(aton, ntoa)
    ensures KeyCommand(aton, Name(i), Some(ValueText(ntoa, c, i))) == CommandAt(c, i)
  {
    if 4 <= i < 8 {
      var n := if i == 4 then c.srcPort else if i == 5 then c.adc0Port else if i == 6 then c.adc1Port else c.tcPort;
      AtoiDecimal(n);
    }
    NamesDiffer(i);
  }

  lemma NamesDiffer(i: nat)
    requires i < 10
    ensures forall j :: 0 <= j < 10 && j != i ==> Name(j) != Name(i)
  {
  }

  lemma ParseLine(aton: AddrParser, line: seq<Ch>, text: seq<Ch>, s: Settings, reset: bool)
    requires '\n' !in line && IsGood(Meaning(aton, line))
    ensures Parse(aton, line + ['\n'] + text, s, reset)
      == Parse(aton, text, Apply(s, Meaning(aton, line)), reset || Meaning(aton, line).Reset?)
  {
    var all := line + ['\n'] + text;
    FindIs(all, '\n', |line|);
    assert all[..|line|] == line && all[|line| + 1..] == text;
  }

  /** Parsing one more printed line takes one more setting from `c`. */
  lemma PrintOne(aton: AddrParser, ntoa: AddrPrinter, keys: seq<seq<Ch>>, c: Settings, d: Settings, i: nat)
    requires |keys| == 10 && i < 10 && Inverts(aton, ntoa) && LowerAll(keys[i]) == Name(i)
    ensures Parse(aton, Print(ntoa, keys, c, i), Mixed(d, c, i), false)
      == Parse(aton, Print(ntoa, keys, c, i + 1), Mixed(d, c, i + 1), false)
  {
    var val := ValueText(ntoa, c, i);
    var line := keys[i] + ['='] + val;
    KeyIsPlain(keys[i], i);
    ValueIsPlain(aton, ntoa, c, i);
    MeaningOfPair(aton, keys[i], val);
    PairMeans(aton, ntoa, c, i);
    MixedNext(d, c, i);
    assert IsGood(CommandAt(c, i)) && !CommandAt(c, i).Reset?;
    assert Meaning(aton, line) == CommandAt(c, i);
    ParseLine(aton, line, Print(ntoa, keys, c, i + 1), Mixed(d, c, i), false);
  }

  lemma {:induction false} PrintParse(aton: AddrParser, ntoa: AddrPrinter, keys: seq<seq<Ch>>, c: Settings, d: Settings,
                                      i: nat)
    requires |keys| == 10 && i <= 10 && Inverts(aton, ntoa)
    requires forall j :: 0 <= j < 10 ==> LowerAll(keys[j]) == Name(j)
    ensures Parse(aton, Print(ntoa, keys, c, i), Mixed(d, c, i), false) == Parsed(c, false, Accepted)
    decreases 10 - i
  {
    if i < 10 {
      PrintOne(aton, ntoa, keys, c, d, i);
      PrintParse(aton, ntoa, keys, c, d, i + 1);
    }
  }

  /** Every configuration, printed with its keys in any letter case, parses back to itself over any other. */
  lemma PrintedConfigRestores(aton: AddrParser, ntoa: AddrPrinter, keys: seq<seq<Ch>>, c: Settings, d: Settings)
    requires |keys| == 10 && Inverts(aton, ntoa)
    requires forall j :: 0 <= j < 10 ==> LowerAll(keys[j]) == Name(j)
    ensures Parse(aton, Print(ntoa, keys, c, 0), d, false) == Parsed(c, false, Accepted)
  {
    PrintParse(aton, ntoa, keys, c, d, 0);
  }
}
