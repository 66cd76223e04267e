/**
 What a line of a configuration file means, letter by letter: which lines reset, which set something, which are bad.
 */
module LineMeaning {
  import opened Basics
  import opened Text
  import opened Commands
  import opened ConfigText
  import opened TftpSpec
  import opened TftpTheorems

  /** The line begins with the name, in any letter case, and the name ends there: at its end, at a `=` or at a zero. */
  predicate KeyIs(line: seq<Ch>, name: seq<Ch>) {
    && |name| <= |line|
    && (forall i :: 0 <= i < |name| ==> SameLetter(line[i], name[i]))
    && (|line| == |name| || line[|name|] == '=' || line[|name|] == NUL)
  }

  /** What follows the `=` behind the name, up to a zero. */
  function ValueBehind(line: seq<Ch>, name: seq<Ch>): Option<seq<Ch>>
    requires KeyIs(line, name)
  {
    if |name| < |line| && line[|name|] == '=' then Some(CStr(line[|name| + 1..])) else None
  }

  /** Names are written in lower case, without `=` and zeros. */
  predicate Plain(name: seq<Ch>) {
    forall i :: 0 <= i < |name| ==> name[i] != '=' && name[i] != NUL && Lower(name[i]) == name[i]
  }

  lemma PlainLetter(a: Ch, b: Ch)
    requires b != '=' && b != NUL && Lower(b) == b
    ensures SameLetter(a, b) ==> a != '=' && a != NUL
    ensures Lower(a) == b <==> SameLetter(a, b)
  {
  }

  /** Where the key ends, if it is a name. */
  lemma KeyEnds(line: seq<Ch>, name: seq<Ch>)
    requires Plain(name) && KeyIs(line, name)
    ensures |CStr(line)| >= |name| && Find(CStr(line), '=') == |name|
    ensures |CStr(line)| == |name| || line[|name|] == '='
    ensures CStr(line) == line[..|CStr(line)|]
  {
    forall i | 0 <= i < |name|
      ensures line[i] != '=' && line[i] != NUL
    {
      PlainLetter(line[i], name[i]);
    }
    var e := Find(line, NUL);
    assert e >= |name|;
    FindIs(line[..e], '=', |name|);
  }

  lemma {:induction false} KeyIsKey(line: seq<Ch>, name: seq<Ch>)
    requires Plain(name)
    ensures KeyIs(line, name) <==> KeyOf(CStr(line)) == name
  {
    var cmd := CStr(line);
    var e := Find(cmd, '=');
    if KeyIs(line, name) {
      KeyEnds(line, name);
      forall i | 0 <= i < |name|
        ensures LowerAll(cmd[..e])[i] == name[i]
      {
        PlainLetter(line[i], name[i]);
      }
    }
    if KeyOf(cmd) == name {
      forall i | 0 <= i < |name|
        ensures SameLetter(line[i], name[i])
      {
        assert LowerAll(cmd[..e])[i] == Lower(cmd[i]);
        PlainLetter(line[i], name[i]);
      }
      KeyStops(line);
    }
  }

  /** The key is followed by the end of the line, a `=` or a zero. */
  lemma KeyStops(line: seq<Ch>)
    ensures var e := Find(CStr(line), '='); e <= |line| && (e < |line| ==> line[e] == '=' || line[e] == NUL)
  {
  }

  lemma ValueIsBehind(line: seq<Ch>, name: seq<Ch>)
    requires Plain(name) && KeyIs(line, name)
    ensures ValueOf(CStr(line)) == ValueBehind(line, name)
  {
    KeyEnds(line, name);
    var k := |name|;
    var e := Find(line, NUL);
    if e > k {
      assert line[k] == '=';
      FindIs(line[k + 1..], NUL, e - k - 1);
      assert line[..e][k + 1..] == line[k + 1..][..e - k - 1];
    }
  }

  lemma NamesArePlain()
    ensures Plain("reset") && forall i :: 0 <= i < 10 ==> Plain(Name(i))
  {
  }

  // ---- line by line -------------------------------------------------------------------------------------------------

  /** A line is a reset if and only if its key is `reset`, in any letter case, with a value or without. */
  lemma ResetLineIff(aton: AddrParser, line: seq<Ch>)
    ensures Meaning(aton, line).Reset? <==> KeyIs(line, "reset")
  {
    NamesArePlain();
    KeyIsKey(line, "reset");
  }

  /** A line whose key is neither that nor one of the ten names is refused. */
  lemma UnknownLineIsBad(aton: AddrParser, line: seq<Ch>)
    requires !KeyIs(line, "reset") && forall i :: 0 <= i < 10 ==> !KeyIs(line, Name(i))
    ensures Meaning(aton, line) == Bad("unknown config parameter")
  {
    NamesArePlain();
    KeyIsKey(line, "reset");
    forall i | 0 <= i < 10
      ensures KeyOf(CStr(line)) != Name(i)
    {
      KeyIsKey(line, Name(i));
    }
    UnknownKey(aton, KeyOf(CStr(line)), ValueOf(CStr(line)));
  }

  lemma UnknownKey(aton: AddrParser, key: seq<Ch>, val: Option<seq<Ch>>)
    requires key != "reset" && forall i :: 0 <= i < 10 ==> key != Name(i)
    ensures KeyCommand(aton, key, val) == Bad("unknown config parameter")
  {
    assert key != Name(0) && key != Name(1) && key != Name(2) && key != Name(3) && key != Name(4);
    assert key != Name(5) && key != Name(6) && key != Name(7) && key != Name(8) && key != Name(9);
  }

  /** The value is one that the `i`-th setting takes: an address that parses, any number, `fast` or `slow`. */
  predicate GoodValue(aton: AddrParser, i: nat, val: Option<seq<Ch>>) {
    && val.Some?
    && (i < 4 ==> aton(val.value).Some?)
    && (8 <= i ==> val.value == "fast" || val.value == "slow")
  }

  /** What the client is told of a value that is not. */
  function BadValueText(i: nat): string
    requires i < 10
  {
    if i < 8 then "unable to parse " + Name(i) else if i == 8 then "invalid ADC0 rate" else "invalid ADC1 rate"
  }

  /** The command for the `i`-th setting with a good value. */
  predicate Sets(aton: AddrParser, i: nat, val: seq<Ch>, c: Command)
    requires i < 10 && GoodValue(aton, i, Some(val))
  {
    var rate := if val == "fast" then Fast else Slow;
    match i
    case 0 => c == SetIp(SrcIp, aton(val).value)
    case 1 => c == SetIp(DstIp, aton(val).value)
    case 2 => c == SetIp(Gateway, aton(val).value)
    case 3 => c == SetIp(Subnet, aton(val).value)
    case 4 => c == SetPort(SrcPort, Atoi(val) % 0x1_0000)
    case 5 => c == SetPort(Adc0Port, Atoi(val) % 0x1_0000)
    case 6 => c == SetPort(Adc1Port, Atoi(val) % 0x1_0000)
    case 7 => c == SetPort(TcPort, Atoi(val) % 0x1_0000)
    case 8 => c == SetRate(Adc0Rate, rate)
    case _ => c == SetRate(Adc1Rate, rate)
  }

  /** A line with one of the ten names sets that setting if its value is good, is refused if not, and needs a value. */
  lemma SettingLine(aton: AddrParser, line: seq<Ch>, i: nat)
    requires i < 10 && KeyIs(line, Name(i))
    ensures var val := ValueBehind(line, Name(i)); var c := Meaning(aton, line);
      if val.None? then c == NullValue
      else if GoodValue(aton, i, val) then Sets(aton, i, val.value, c)
      else c == Bad(BadValueText(i))
  {
    NamesArePlain();
    KeyIsKey(line, Name(i));
    ValueIsBehind(line, Name(i));
    KnownKey(aton, i, ValueBehind(line, Name(i)));
  }

  lemma KnownKey(aton: AddrParser, i: nat, val: Option<seq<Ch>>)
    requires i < 10
    ensures var c := KeyCommand(aton, Name(i), val);
      if val.None? then c == NullValue
      else if GoodValue(aton, i, val) then Sets(aton, i, val.value, c)
      else c == Bad(BadValueText(i))
  {
    NamesDiffer(i);
  }

  // ---- a whole file -------------------------------------------------------------------------------------------------

  predicate GoodLine(aton: AddrParser, line: seq<Ch>) {
    KeyIs(line, "reset")
    || exists i :: 0 <= i < 10 && KeyIs(line, Name(i)) && GoodValue(aton, i, ValueBehind(line, Name(i)))
  }

  lemma GoodLineIff(aton: AddrParser, line: seq<Ch>)
    ensures IsGood(Meaning(aton, line)) <==> GoodLine(aton, line)
  {
    ResetLineIff(aton, line);
    if i :| 0 <= i < 10 && KeyIs(line, Name(i)) {
      SettingLine(aton, line, i);
      forall j | 0 <= j < 10 && KeyIs(line, Name(j))
        ensures j == i
      {
        OneName(line, i, j);
      }
    } else if !KeyIs(line, "reset") {
      UnknownLineIsBad(aton, line);
    }
  }

  lemma OneName(line: seq<Ch>, i: nat, j: nat)
    requires i < 10 && j < 10 && KeyIs(line, Name(i)) && KeyIs(line, Name(j))
    ensures i == j
  {
    NamesArePlain();
    KeyIsKey(line, Name(i));
    KeyIsKey(line, Name(j));
    NamesDiffer(i);
  }

  /** Every line of the text is good, and nothing follows the last newline. */
  predicate GoodFile(aton: AddrParser, text: seq<Ch>) {
    var (ls, rest) := Lines(text);
    rest == [] && forall i :: 0 <= i < |ls| ==> GoodLine(aton, ls[i])
  }

  predicate AsksReset(text: seq<Ch>) {
    var ls := Lines(text).0;
    exists i :: 0 <= i < |ls| && KeyIs(ls[i], "reset")
  }

  lemma GoodFileIff(aton: AddrParser, text: seq<Ch>)
    ensures WholeGood(aton, text) <==> GoodFile(aton, text)
    ensures AnyReset(aton, Lines(text).0) <==> AsksReset(text)
  {
    var ls := Lines(text).0;
    forall i | 0 <= i < |ls|
      ensures IsGood(Meaning(aton, ls[i])) <==> GoodLine(aton, ls[i])
      ensures Meaning(aton, ls[i]).Reset? <==> KeyIs(ls[i], "reset")
    {
      GoodLineIff(aton, ls[i]);
      ResetLineIff(aton, ls[i]);
    }
  }

  /**
   What an uploaded text does, on its letters: the device restarts exactly if every line is good and one has the key
   `reset`, and the client is told of success exactly if every line is good, none has it, and the flash write worked.
   */
  lemma FileOutcome(aton: AddrParser, s: Server, from: Peer, saved: bool)
    requires s.status == Running
    ensures var (r, ok) := RunCommands(aton, s, from, saved);
      && (r.status == Restarting <==> GoodFile(aton, s.file) && AsksReset(s.file))
      && (ok <==> GoodFile(aton, s.file) && !AsksReset(s.file) && saved)
  {
    ResetIff(aton, s, from, saved);
    GoodFileIff(aton, s.file);
  }

  /** What the client is told of a line that is not good: the value of a name, or that the name is not known. */
  predicate TextFor(line: seq<Ch>, text: string) {
    && (forall i :: 0 <= i < 10 && KeyIs(line, Name(i)) ==> text == BadValueText(i))
    && ((forall i :: 0 <= i < 10 ==> !KeyIs(line, Name(i))) ==> text == "unknown config parameter")
  }

  /** A name without a value, which the code does not survive. */
  predicate NeedsValue(line: seq<Ch>) {
    exists i :: 0 <= i < 10 && KeyIs(line, Name(i)) && ValueBehind(line, Name(i)).None?
  }

  lemma BadLineText(aton: AddrParser, line: seq<Ch>)
    requires !GoodLine(aton, line)
    ensures var c := Meaning(aton, line);
      if NeedsValue(line) then c == NullValue else c.Bad? && TextFor(line, c.msg)
  {
    if i :| 0 <= i < 10 && KeyIs(line, Name(i)) {
      SettingLine(aton, line, i);
      forall j | 0 <= j < 10 && KeyIs(line, Name(j))
        ensures j == i
      {
        OneName(line, i, j);
      }
    } else {
      UnknownLineIsBad(aton, line);
    }
  }

  /**
   What the client is told of an uploaded text, with `k` good lines before the first that is not: the text for that
   line; or that the last command is not ended; or that saving failed; or nothing.
   */
  lemma FirstErrorIsTold(aton: AddrParser, s: Server, from: Peer, saved: bool, k: nat)
    requires s.status == Running && k <= |Lines(s.file).0|
    requires forall i :: 0 <= i < k ==> GoodLine(aton, Lines(s.file).0[i])
    requires k < |Lines(s.file).0| ==> !GoodLine(aton, Lines(s.file).0[k]) && !NeedsValue(Lines(s.file).0[k])
    ensures var (ls, rest) := Lines(s.file); var out := RunCommands(aton, s, from, saved).0.out;
      if k < |ls| then exists text :: TextFor(ls[k], text) && out == s.out + [Sent(from, Err(text), |s.file|)]
      else if rest != [] then out == s.out + [Sent(from, Err("command not newline terminated"), |s.file|)]
      else if !saved then out == s.out + [Sent(from, Err("failed to save configuration to flash"), |s.file|)]
      else out == s.out
  {
    var (ls, rest) := Lines(s.file);
    FirstBadIs(aton, ls, k);
    ParseIsFold(aton, s.file, s.settings, false);
    if k < |ls| {
      BadLineText(aton, ls[k]);
      assert TextFor(ls[k], Meaning(aton, ls[k]).msg);
    }
  }

  lemma {:induction false} FirstBadIs(aton: AddrParser, ls: seq<seq<Ch>>, k: nat)
    requires k <= |ls| && (forall i :: 0 <= i < k ==> GoodLine(aton, ls[i]))
    requires k < |ls| ==> !GoodLine(aton, ls[k])
    ensures FirstBad(aton, ls) == k
  {
    var i := FirstBad(aton, ls);
    if i < k { GoodLineIff(aton, ls[i]); }
    if k < |ls| { GoodLineIff(aton, ls[k]); }
  }
}
