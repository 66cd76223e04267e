/** The TFTP server of main.c with its globals and its receive buffer, edited in place; proved against `TftpSpec`. */
module TftpDriver {
  import opened Basics
  import opened Text
  import opened Commands
  import opened TftpSpec
  import opened TftpTheorems

  // ---- C strings inside the buffer ----------------------------------------------------------------------------------

  /** The string at the head of `s` is its first `n` characters if a zero follows them and none comes before. */
  lemma CStrIs(s: seq<Ch>, n: nat)
    requires n < |s| && s[n] == NUL && NUL !in s[..n]
    ensures CStr(s) == s[..n]
  {
    forall j | 0 <= j < n
      ensures s[j] != NUL
    {
      assert s[j] == s[..n][j];
    }
    FindIs(s, NUL, n);
  }

  lemma LowerKeepsNonzero(s: seq<Ch>)
    requires NUL !in s
    ensures NUL !in LowerAll(s)
  {
    forall j | 0 <= j < |s|
      ensures LowerAll(s)[j] != NUL
    {
      assert s[j] in s;
    }
  }

  /** A string with its first `i` characters in lower case. */
  function PartLower(s: seq<Ch>, i: nat): seq<Ch>
    requires i <= |s|
  {
    LowerAll(s[..i]) + s[i..]
  }

  lemma PartLowerStep(s: seq<Ch>, i: nat)
    requires i < |s|
    ensures PartLower(s, i)[i := Lower(s[i])] == PartLower(s, i + 1)
    ensures PartLower(s, i)[i] == s[i]
  {
  }

  lemma PartLowerString(s: seq<Ch>, i: nat, tail: seq<Ch>)
    requires i <= |s| && NUL !in s && |tail| > 0 && tail[0] == NUL
    ensures CStr(PartLower(s, i) + tail) == PartLower(s, i)
  {
    LowerKeepsNonzero(s[..i]);
    var all := PartLower(s, i) + tail;
    assert all[..|s|] == PartLower(s, i);
    CStrIs(all, |s|);
  }

  /** Store one character of the string at `start`. */
  method Put(data: array<Ch>, start: nat, i: nat, c: Ch, ghost was: seq<Ch>)
    requires start + i < data.Length && data[start..] == was
    modifies data
    ensures data[..start] == old(data[..start])
    ensures data[start..] == was[i := c]
  {
    data[start + i] := c;
  }

  /** The string at `start` while it is being brought to lower case: `i` characters done, or cut after `i - 1`. */
  ghost predicate Lowering(s: seq<Ch>, str: seq<Ch>, tail: seq<Ch>, e: nat, i: nat, found: bool)
    requires e <= |str|
  {
    && i <= |str|
    && (!found ==> i <= e && s == PartLower(str, i) + tail)
    && (found ==> e < |str| && i == e + 1 && s == Cut(str, e, tail))
  }

  /** The string with its key in lower case and its first `=` replaced by the terminator. */
  function Cut(str: seq<Ch>, e: nat, tail: seq<Ch>): seq<Ch>
    requires e < |str|
  {
    LowerAll(str[..e]) + [NUL] + str[e + 1..] + tail
  }

  /** Where the loop stops: at the first `=` if it cuts, else at the end. */
  function StopAt(str: seq<Ch>, cut: bool): (e: nat)
    ensures e <= |str|
  {
    if cut then Find(str, '=') else |str|
  }

  lemma LoopLength(s: seq<Ch>, str: seq<Ch>, tail: seq<Ch>, e: nat, i: nat, found: bool)
    requires e <= |str| && Lowering(s, str, tail, e, i, found) && NUL !in str && |tail| > 0 && tail[0] == NUL
    ensures |CStr(s)| == if found then e else |str|
  {
    if found { CutString(str, e, tail); } else { PartLowerString(str, i, tail); }
  }

  lemma LowerOne(s: seq<Ch>, str: seq<Ch>, tail: seq<Ch>, e: nat, i: nat)
    requires e <= |str| && Lowering(s, str, tail, e, i, false) && i < |str|
    ensures i < |s| && s[i] == str[i] && s[i := Lower(str[i])] == PartLower(str, i + 1) + tail
  {
    PartLowerStep(str, i);
  }

  lemma NextNotCut(s: seq<Ch>, str: seq<Ch>, tail: seq<Ch>, i: nat, cut: bool)
    requires i < |str| && i <= StopAt(str, cut) && s == PartLower(str, i + 1) + tail && !(cut && Lower(str[i]) == '=')
    ensures Lowering(s, str, tail, StopAt(str, cut), i + 1, false)
  {
    NotEquals(str, i, cut);
  }

  lemma NextCut(s: seq<Ch>, str: seq<Ch>, tail: seq<Ch>, i: nat)
    requires i < |str| && i <= StopAt(str, true) && s == PartLower(str, i + 1) + tail && Lower(str[i]) == '='
    ensures StopAt(str, true) == i && i < |s| && Lowering(s[i := NUL], str, tail, i, i + 1, true)
  {
    AtEquals(str, i);
    CutAt(str, i, tail);
  }

  /**
   Bring the string at `data[start..]` to lower case, character by character, testing its length every time
   round, and cut it at the first `=` if `cut` is set: that character becomes the terminator, which ends the loop.
   */
  method LowerInPlace(data: array<Ch>, start: nat, cut: bool, ghost str: seq<Ch>,
                      ghost tail: seq<Ch>) returns (val: int)
    requires start <= data.Length && data[start..] == str + tail && NUL !in str && |tail| > 0 && tail[0] == NUL
    modifies data
    ensures data[..start] == old(data[..start])
    ensures var e := StopAt(str, cut);
      if e == |str| then val == -1 && data[start..] == LowerAll(str) + tail
      else val == start + e + 1 && data[start..] == Cut(str, e, tail)
  {
    ghost var e := StopAt(str, cut);
    ghost var now := data[start..];
    val := -1;
    var i := 0;
    assert str[..0] == [] && str[0..] == str;
    while i < |CStr(data[start..])|
      invariant data[..start] == old(data[..start]) && data[start..] == now
      invariant val == -1 || val == start + i
      invariant Lowering(now, str, tail, e, i, val != -1)
      decreases |str| - i
    {
      LoopLength(now, str, tail, e, i, val != -1);
      LowerOne(now, str, tail, e, i);
      var c := Lower(data[start + i]);
      assert data[start + i] == now[i];
      Put(data, start, i, c, now);
      now := now[i := c];
      if cut && c == '=' {
        NextCut(now, str, tail, i);
        val := start + i + 1;
        Put(data, start, i, NUL, now);
        now := now[i := NUL];
      } else {
        NextNotCut(now, str, tail, i, cut);
      }
      i := i + 1;
    }
    LoopLength(now, str, tail, e, i, val != -1);
    assert str[..|str|] == str;
  }

  lemma AtEquals(str: seq<Ch>, i: nat)
    requires i < |str| && Lower(str[i]) == '=' && i <= Find(str, '=')
    ensures Find(str, '=') == i
  {
  }

  lemma NotEquals(str: seq<Ch>, i: nat, cut: bool)
    requires i < |str| && (cut ==> Lower(str[i]) != '=' && i <= Find(str, '='))
    ensures cut ==> i + 1 <= Find(str, '=')
  {
  }

  lemma CutAt(str: seq<Ch>, e: nat, tail: seq<Ch>)
    requires e < |str|
    ensures (PartLower(str, e + 1) + tail)[e := NUL] == Cut(str, e, tail)
  {
  }

  lemma CutString(str: seq<Ch>, e: nat, tail: seq<Ch>)
    requires e < |str| && NUL !in str
    ensures CStr(Cut(str, e, tail)) == LowerAll(str[..e])
  {
    LowerKeepsNonzero(str[..e]);
    var all := Cut(str, e, tail);
    assert all[..e] == LowerAll(str[..e]);
    CStrIs(all, e);
  }

  // ---- lines in the buffer ------------------------------------------------------------------------------------------

  /** Look for the end of the line at `start` and turn its newline into a terminator. */
  method CutLine(buff: array<Ch>, start: nat, n: nat) returns (index: nat, newline: bool)
    requires start <= n <= buff.Length
    modifies buff
    ensures var e := start + Find(old(buff[start..n]), '\n');
      if e < n then newline && index == e + 1 && buff[..] == old(buff[..])[e := NUL]
      else !newline && index == n && buff[..] == old(buff[..])
  {
    ghost var text := buff[start..n];
    newline := false;
    index := start;
    while index < n
      invariant start <= index <= n && buff[..] == old(buff[..])
      invariant forall j :: 0 <= j < index - start ==> text[j] != '\n'
    {
      if buff[index] == '\n' {
        FindIs(text, '\n', index - start);
        buff[index] := NUL;
        newline := true;
        index := index + 1;
        return;
      }
      index := index + 1;
    }
    FindIs(text, '\n', n - start);
  }

  /** The key a cut string shows is that of the command. */
  lemma CutKey(str: seq<Ch>, tail: seq<Ch>)
    requires NUL !in str && |tail| > 0 && tail[0] == NUL && Find(str, '=') < |str|
    ensures CStr(Cut(str, Find(str, '='), tail)) == KeyOf(str)
  {
    CutString(str, Find(str, '='), tail);
  }

  /** So is its value. */
  lemma CutValue(str: seq<Ch>, e: nat, tail: seq<Ch>)
    requires NUL !in str && |tail| > 0 && tail[0] == NUL && e < |str|
    ensures CStr(Cut(str, e, tail)[e + 1..]) == str[e + 1..]
  {
    var rest := Cut(str, e, tail)[e + 1..];
    CutRest(str, e, tail);
    assert rest[..|str| - e - 1] == str[e + 1..];
    CStrIs(rest, |str| - e - 1);
  }

  lemma CutRest(str: seq<Ch>, e: nat, tail: seq<Ch>)
    requires e < |str|
    ensures Cut(str, e, tail)[e + 1..] == str[e + 1..] + tail
  {
  }

  lemma UncutShows(str: seq<Ch>, tail: seq<Ch>)
    requires NUL !in str && |tail| > 0 && tail[0] == NUL && Find(str, '=') == |str|
    ensures CStr(LowerAll(str) + tail) == KeyOf(str)
  {
    LowerKeepsNonzero(str);
    var all := LowerAll(str) + tail;
    assert all[..|str|] == LowerAll(str);
    assert str[..|str|] == str;
    CStrIs(all, |str|);
  }

  /** A terminated line is its C string followed by a terminator. */
  lemma LineSplits(s: seq<Ch>, line: seq<Ch>)
    requires |line| < |s| && s[..|line|] == line && s[|line|] == NUL
    ensures var str := CStr(line); s == str + s[|str|..] && s[|str|] == NUL
  {
    var str := CStr(line);
    if |str| < |line| { assert line[|str|] == NUL && s[|str|] == line[|str|]; }
    assert s[..|str|] == str;
  }

  /** Bring the key of the terminated line at `start`, `m` characters long, to lower case and cut it off. */
  method SplitLine(buff: array<Ch>, start: nat, ghost s: seq<Ch>, ghost m: nat) returns (val: int, ghost now: seq<Ch>)
    requires start <= buff.Length && buff[start..] == s && m < |s| && s[m] == NUL
    modifies buff
    ensures buff[start..] == now && |now| == |s| && now[m + 1..] == s[m + 1..]
    ensures CStr(now) == KeyOf(CStr(s[..m]))
    ensures val == -1 ==> ValueOf(CStr(s[..m])) == None
    ensures val != -1 ==> start <= val <= buff.Length && ValueOf(CStr(s[..m])) == Some(CStr(now[val - start..]))
  {
    ghost var str, tail := LineParts(s, s[..m], s[m]);
    val := LowerInPlace(buff, start, true, str, tail);
    now := buff[start..];
    SplitShows(now, s, str, tail, m);
  }

  lemma LineParts(s: seq<Ch>, line: seq<Ch>, stop: Ch) returns (str: seq<Ch>, tail: seq<Ch>)
    requires |line| < |s| && s[..|line|] == line && s[|line|] == stop == NUL
    ensures s == str + tail && str == CStr(line) && NUL !in str && |str| <= |line| && |tail| > 0 && tail[0] == NUL
  {
    LineSplits(s, line);
    str := CStr(line);
    tail := s[|str|..];
  }

  lemma SplitShows(now: seq<Ch>, was: seq<Ch>, str: seq<Ch>, tail: seq<Ch>, n: nat)
    requires was == str + tail && NUL !in str && |tail| > 0 && tail[0] == NUL && |str| <= n < |was|
    requires var e := Find(str, '='); now == if e == |str| then LowerAll(str) + tail else Cut(str, e, tail)
    ensures CStr(now) == KeyOf(str) && |now| == |was| && now[n + 1..] == was[n + 1..]
    ensures var e := Find(str, '=');
      if e == |str| then ValueOf(str) == None else e + 1 <= |now| && ValueOf(str) == Some(CStr(now[e + 1..]))
  {
    Shown(now, str, tail);
    TailKept(now, was, str, tail, n);
  }

  /** What the terminated line at `start` means; what follows it is left alone. */
  method ReadLine(aton: AddrParser, buff: array<Ch>, start: nat, ghost s: seq<Ch>, ghost m: nat)
    returns (c: Command, ghost now: seq<Ch>)
    requires start <= buff.Length && buff[start..] == s && m < |s| && s[m] == NUL
    modifies buff
    ensures c == Meaning(aton, s[..m])
    ensures buff[start..] == now && |now| == |s| && now[m + 1..] == s[m + 1..]
  {
    var val;
    val, now := SplitLine(buff, start, s, m);
    assert val != -1 ==> buff[val..] == now[val - start..];
    c := KeyCommand(aton, CStr(buff[start..]), if val == -1 then None else Some(CStr(buff[val..])));
  }

  /** The key and the value that the string shows once the loop is done. */
  lemma Shown(now: seq<Ch>, str: seq<Ch>, tail: seq<Ch>)
    requires NUL !in str && |tail| > 0 && tail[0] == NUL
    requires var e := Find(str, '='); now == if e == |str| then LowerAll(str) + tail else Cut(str, e, tail)
    ensures CStr(now) == KeyOf(str)
    ensures var e := Find(str, '='); e < |str| ==> e + 1 <= |now| && ValueOf(str) == Some(CStr(now[e + 1..]))
  {
    var e := Find(str, '=');
    if e == |str| {
      UncutShows(str, tail);
    } else {
      CutKey(str, tail);
      CutValue(str, e, tail);
    }
  }

  lemma TailKept(now: seq<Ch>, was: seq<Ch>, str: seq<Ch>, tail: seq<Ch>, n: nat)
    requires was == str + tail && |str| <= n < |was|
    requires now == LowerAll(str) + tail || (Find(str, '=') < |str| && now == Cut(str, Find(str, '='), tail))
    ensures |now| == |was| && now[n + 1..] == was[n + 1..]
  {
    assert now[|str|..] == tail == was[|str|..];
    assert now[n + 1..] == now[|str|..][n + 1 - |str|..];
    assert was[n + 1..] == was[|str|..][n + 1 - |str|..];
  }

  /** The next command in `buff[index..n]`, or nothing if no newline follows; the text after it is left alone. */
  method NextCommand(aton: AddrParser, buff: array<Ch>, index: nat, n: nat, ghost rest: seq<Ch>)
    returns (c: Option<Command>, next: nat)
    requires index <= n <= buff.Length && buff[index..n] == rest
    modifies buff
    ensures var e := Find(rest, '\n');
      if e == |rest| then c.None?
      else c == Some(Meaning(aton, rest[..e])) && next == index + e + 1 <= n && buff[next..n] == rest[e + 1..]
  {
    ghost var was := buff[..];
    var newline;
    next, newline := CutLine(buff, index, n);
    if !newline {
      return None, next;
    }
    ghost var e := Find(rest, '\n');
    LineInBuffer(was, buff[..], rest, index, n, e);
    assert buff[index..] == buff[..][index..];
    ghost var s := buff[index..];
    var m; ghost var now;
    m, now := ReadLine(aton, buff, index, s, e);
    RestInBuffer(buff, index, n, e, now, s, rest);
    return Some(m), next;
  }

  lemma LineInBuffer(was: seq<Ch>, now: seq<Ch>, rest: seq<Ch>, index: nat, n: nat, e: nat)
    requires index <= n <= |was| && rest == was[index..n] && e < |rest| && now == was[index + e := NUL]
    ensures now[index..][..e] == rest[..e] && now[index..][e] == NUL
    ensures now[index..][e + 1..][..|rest| - e - 1] == rest[e + 1..]
  {
  }

  lemma RestInBuffer(buff: array<Ch>, index: nat, n: nat, e: nat, now: seq<Ch>, s: seq<Ch>, rest: seq<Ch>)
    requires index <= n <= buff.Length && buff[index..] == now && |s| == |now| && e < |rest| == n - index
    requires now[e + 1..] == s[e + 1..] && s[e + 1..][..|rest| - e - 1] == rest[e + 1..]
    ensures buff[index + e + 1..n] == rest[e + 1..]
  {
    assert buff[index + e + 1..n] == now[e + 1..][..|rest| - e - 1];
  }

  /** One step of the parse, with its result known. */
  lemma {:induction false} ParseStep(aton: AddrParser, rest: seq<Ch>, s: Settings, reset: bool, goal: Parsed)
    requires rest != [] && Parse(aton, rest, s, reset) == goal
    ensures var e := Find(rest, '\n');
      if e == |rest| then goal == Parsed(s, reset, Rejected("command not newline terminated"))
      else
        var c := Meaning(aton, rest[..e]);
        if c.Bad? then goal == Parsed(s, reset, Rejected(c.msg))
        else if c.NullValue? then goal == Parsed(s, reset, Verdict.Undefined)
        else Parse(aton, rest[e + 1..], Apply(s, c), reset || c.Reset?) == goal
  {
  }

  /** The scan for the end of the file name. */
  method NameEnd(data: array<Ch>, len: nat) returns (i: nat)
    requires 4 <= len <= data.Length
    ensures i == 2 + Find(data[2..len], NUL)
  {
    i := 2;
    while i < len && data[i] != NUL
      invariant 2 <= i <= len
      invariant forall j :: 0 <= j < i - 2 ==> data[2..len][j] != NUL
    {
      i := i + 1;
    }
    FindIs(data[2..len], NUL, i - 2);
  }

  /** Bring the mode string to lower case where it stands. */
  method LowerMode(data: array<Ch>, len: nat, at: nat)
    requires at <= len <= data.Length && NUL in data[len..]
    modifies data
    ensures CStr(data[at..]) == LowerAll(CStr(old(data[at..])))
  {
    assert data[len..] == data[..][len..] && data[at..] == data[..][at..];
    ghost var str, tail := ModeString(data[..], len, at);
    var val := LowerInPlace(data, at, false, str, tail);
    LowerKeepsNonzero(str);
    StringThenTail(LowerAll(str), tail);
  }

  lemma StringThenTail(str: seq<Ch>, tail: seq<Ch>)
    requires NUL !in str && |tail| > 0 && tail[0] == NUL
    ensures CStr(str + tail) == str
  {
    var all := str + tail;
    assert all[..|str|] == str;
    CStrIs(all, |str|);
  }

  // ---- the server ---------------------------------------------------------------------------------------------------

  class Tftp {
    const aton: AddrParser
    const buff: array<Ch>
    var buffIndex: nat
    var currBlock: Half
    var ackNum: Half
    var sending: bool
    var last: Peer
    var settings: Settings
    /** What `local_udp_reset` last set the network interface up from. */
    var net: Settings
    var out: seq<Sent>
    var parsed: seq<seq<Ch>>
    var status: TftpSpec.Status

    constructor (aton: AddrParser, settings: Settings, last: Peer)
      ensures Valid() && fresh(buff) && this.aton == aton
      ensures View() == Server(0, [], 0, false, last, settings, settings, [], [], Running)
    {
      this.aton := aton;
      buff := new Ch[BUFFER_SIZE](_ => NUL);
      buffIndex, currBlock, ackNum, sending := 0, 0, 0, false;
      this.last, this.settings, net := last, settings, settings;
      out, parsed, status := [], [], Running;
    }

    ghost predicate Valid()
      reads this
    {
      buff.Length == BUFFER_SIZE && buffIndex < BUFFER_SIZE
    }

    ghost function View(): Server
      requires Valid()
      reads this, buff
    {
      Server(currBlock, buff[..buffIndex], ackNum, sending, last, settings, net, out, parsed, status)
    }

    method Send(to: Peer, r: Reply)
      requires Valid()
      modifies this`out
      ensures View() == Tell(old(View()), to, r)
    {
      out := out + [Sent(to, r, buffIndex)];
    }

    /** The effect of a parse that does not accept, once it has ended: an error text sent, or nothing defined. */
    twostate predicate EndedBadly(from: Peer, goal: Parsed)
      reads this
    {
      && settings == goal.settings && !goal.verdict.Accepted?
      && (goal.verdict.Rejected? ==> status == Running)
      && (goal.verdict.Rejected? ==> out == old(out) + [Sent(from, Err(goal.verdict.msg), buffIndex)])
      && (goal.verdict.Undefined? ==> status == TftpSpec.Status.Undefined && out == old(out))
    }

    /** One command: carry it out, or end the parse. */
    method OneCommand(from: Peer, index: nat, reset: bool, ghost rest: seq<Ch>, ghost goal: Parsed)
      returns (more: bool, next: nat, resetNow: bool)
      requires Valid() && status == Running && index < buffIndex && buff[index..buffIndex] == rest
      requires Parse(aton, rest, settings, reset) == goal
      modifies this`settings, this`out, this`status, buff
      ensures Valid()
      ensures more ==> index < next <= buffIndex && out == old(out) && status == Running
      ensures more ==> Parse(aton, buff[next..buffIndex], settings, resetNow) == goal
      ensures !more ==> EndedBadly(from, goal)
    {
      ParseStep(aton, rest, settings, reset, goal);
      more, resetNow := false, reset;
      var c;
      c, next := NextCommand(aton, buff, index, buffIndex, rest);
      if c.None? {
        Send(from, Err("command not newline terminated"));
      } else if c.value.Bad? {
        Send(from, Err(c.value.msg));
      } else if c.value.NullValue? {
        status := TftpSpec.Status.Undefined;
      } else {
        more, resetNow := true, reset || c.value.Reset?;
        settings := Apply(settings, c.value);
      }
    }

    /** The command loop: settings are applied line by line until a line is not good or not terminated. */
    method CommandLoop(from: Peer) returns (ret: bool, reset: bool)
      requires Valid() && status == Running
      modifies this`settings, this`out, this`status, buff
      ensures Valid()
      ensures var r := Parse(aton, old(buff[..buffIndex]), old(settings), false);
        if ret then settings == r.settings && r.verdict.Accepted? && reset == r.reset
           && out == old(out) && status == Running
        else EndedBadly(from, r)
    {
      ghost var goal := Parse(aton, buff[..buffIndex], settings, false);
      reset := false;
      var index := 0;
      assert buff[index..buffIndex] == buff[..buffIndex];
      while index < buffIndex
        invariant index <= buffIndex && Valid()
        invariant Parse(aton, buff[index..buffIndex], settings, reset) == goal
        invariant out == old(out) && status == Running
      {
        var more;
        more, index, reset := OneCommand(from, index, reset, buff[index..buffIndex], goal);
        if !more {
          return false, reset;
        }
      }
      ret := true;
    }

    /**
     Run the commands in the buffer, which is cut up on the way. Apart from that the effect is that of
     `RunCommands`, and the value returned is its value.
     */
    method ParseConfigCommands(from: Peer, saved: bool) returns (ret: bool)
      requires Valid() && status == Running
      modifies this`settings, this`net, this`out, this`parsed, this`status, buff
      ensures Valid()
      ensures var (r, ok) := RunCommands(aton, old(View()), from, saved); ret == ok && View().(file := r.file) == r
    {
      parsed := parsed + [buff[..buffIndex]];
      var reset;
      ret, reset := CommandLoop(from);
      if ret {
        net := settings;
        if !saved {
          Send(from, Err("failed to save configuration to flash"));
          ret := false;
        }
        if reset {
          status := Restarting;
          ret := false;
        }
      }
    }

    /** Whether a request is in octet mode; the mode string is brought to lower case in the packet itself. */
    method CheckOctetMode(data: array<Ch>, len: nat, from: Peer) returns (ok: bool)
      requires Valid() && data != buff && len <= data.Length && NUL in data[len..]
      modifies this`out, data
      ensures Valid()
      ensures len < 4 ==> !ok && View() == old(View())
      ensures len >= 4 ==> var e := OctetError(old(data[..]), len);
        ok == e.None? && View() == if e.Some? then Tell(old(View()), from, Err(e.value)) else old(View())
    {
      if len < 4 {
        return false;
      }
      ghost var mem := data[..];
      var i := NameEnd(data, len);
      if i == len {
        Send(from, Err("no filename given"));
        return false;
      }
      if data[len - 1] != NUL {
        Send(from, Err("mode string not null-terminated"));
        return false;
      }
      LowerMode(data, len, i + 1);
      if CStr(data[i + 1..]) != "octet" {
        Send(from, Err("only supported mode is octet"));
        return false;
      }
      return true;
    }

    /** The receive callback. A packet that is too small is told so, and handled all the same. */
    method TftpRecv(data: array<Ch>, len: nat, total: nat, from: Peer, saved: bool)
      requires Valid() && status == Running && data != buff && 4 <= data.Length && len <= data.Length
      requires NUL in data[len..]
      modifies this, buff, data
      ensures Valid()
      ensures var r := Receive(aton, old(View()), Datagram(len, total, old(data[..])), from, saved);
        View().(file := r.file) == r && (status == Running ==> View() == r)
    {
      if len != total {
        Send(from, Err("cannot fragment packets"));
        return;
      }
      if len < 4 {
        Send(from, Err("packet too small"));
      }
      HandlePacket(data, len, from, saved);
    }

    method HandlePacket(data: array<Ch>, len: nat, from: Peer, saved: bool)
      requires Valid() && status == Running && data != buff && 4 <= data.Length && len <= data.Length
      requires NUL in data[len..]
      modifies this, buff, data
      ensures Valid()
      ensures var r := Dispatch(aton, old(View()), Datagram(len, len, old(data[..])), from, saved);
        View().(file := r.file) == r && (status == Running ==> View() == r)
    {
      var opcode := Be16(data[0], data[1]);
      if opcode == WRQ {
        RecvWrite(data, len, from);
      } else if opcode == DATA {
        RecvData(data, len, from, saved);
      } else if opcode == RRQ {
        if sending {
          Send(from, Err("server busy"));
          return;
        }
        var ok := CheckOctetMode(data, len, from);
        if ok {
          last := from;
          sending := true;
        }
      } else if opcode == ACK {
        ackNum := Be16(data[2], data[3]);
      } else {
        Send(from, Err("unsupported opcode"));
      }
    }

    method RecvWrite(data: array<Ch>, len: nat, from: Peer)
      requires Valid() && data != buff && 4 <= data.Length && len <= data.Length && NUL in data[len..]
      modifies this`out, this`currBlock, data
      ensures Valid() && View() == ReceiveWrite(old(View()), Datagram(len, len, old(data[..])), from)
    {
      if currBlock == 0 {
        if sending {
          Send(from, Err("server busy"));
          return;
        }
        var ok := CheckOctetMode(data, len, from);
        if ok {
          Send(from, Ack(currBlock));
          currBlock := currBlock + 1;
        }
      } else {
        Send(from, Err("write request already in progress, abandoning"));
        currBlock := 0;
      }
    }

    method RecvData(data: array<Ch>, len: nat, from: Peer, saved: bool)
      requires Valid() && status == Running && data != buff && 4 <= data.Length && len <= data.Length
      requires NUL in data[len..]
      modifies this, buff
      ensures Valid()
      ensures var r := ReceiveData(aton, old(View()), Datagram(len, len, data[..]), from, saved);
        View().(file := r.file) == r && (status == Running ==> View() == r)
    {
      ghost var s, p := View(), Datagram(len, len, data[..]);
      if currBlock == 0 {
        Send(from, Err("no write request in progress"));
        return;
      }
      if sending {
        Send(from, Err("server busy"));
        return;
      }
      if len - 4 > BLOCK {
        Send(from, Err("too much data in one packet"));
        return;
      }
      if Be16(data[2], data[3]) != currBlock {
        Send(from, Err("unexpected block number"));
        return;
      }
      // in unsigned arithmetic a sum below 0 is above the size as well
      if buffIndex + len < 4 || buffIndex + len - 4 >= BUFFER_SIZE {
        Send(from, Err("file too large"));
        buffIndex := 0;
        currBlock := 0;
        return;
      }
      if len < 4 {
        // the length to copy wraps around
        status := TftpSpec.Status.Undefined;
        return;
      }
      TakeBlock(data, len, from, saved);
    }

    /** Store a block in turn, acknowledge it, and, if it is the last, run the commands. */
    method TakeBlock(data: array<Ch>, len: nat, from: Peer, saved: bool)
      requires Valid() && status == Running && data != buff && 4 <= len <= data.Length && NUL in data[len..]
      requires DataError(View(), Datagram(len, len, data[..])).None?
      modifies this, buff
      ensures Valid()
      ensures var r := ReceiveData(aton, old(View()), Datagram(len, len, data[..]), from, saved);
        View().(file := r.file) == r && (status == Running ==> View() == r)
    {
      ghost var s, p := View(), Datagram(len, len, data[..]);
      TakenBlock(aton, s, p, from, saved);
      Store(data, len);
      Send(from, Ack(currBlock));
      if len - 4 < BLOCK {
        EndTransfer(from, saved);
      } else {
        currBlock := (currBlock + 1) % 0x1_0000;
      }
    }

    /** The end of a transfer. */
    method EndTransfer(from: Peer, saved: bool)
      requires Valid() && status == Running
      modifies this, buff
      ensures Valid()
      ensures var r := Finish(aton, old(View()), from, saved);
        View().(file := r.file) == r && (status == Running ==> View() == r)
    {
      var ok := ParseConfigCommands(from, saved);
      if status == Running {
        if ok {
          Send(from, Ack(currBlock));
        }
        buffIndex := 0;
        currBlock := 0;
      }
    }

    /** Append the payload of a data packet to the buffer. */
    method Store(data: array<Ch>, len: nat)
      requires Valid() && data != buff && 4 <= len <= data.Length && buffIndex + len - 4 < BUFFER_SIZE
      modifies this`buffIndex, buff
      ensures Valid() && View() == old(View()).(file := old(View()).file + data[4..len])
    {
      ghost var file := buff[..buffIndex];
      var i := 0;
      while i < len - 4
        invariant 0 <= i <= len - 4 && buffIndex == old(buffIndex) && buff[..buffIndex + i] == file + data[4..4 + i]
      {
        buff[buffIndex + i] := data[4 + i];
        i := i + 1;
      }
      buffIndex := buffIndex + (len - 4);
    }

    /**
     Send a text in blocks; `waits` tells which waits end with the acknowledgement. `TftpSender` has the waits
     themselves.
     */
    method TftpSendData(str: seq<Ch>, to: Peer, waits: seq<bool>)
      requires Valid()
      modifies this`out
      ensures out == old(out) + Addressed(Outgoing(CStr(str), 1, waits), to, buffIndex)
    {
      var blockNum: Half := 1;
      var text, left := CStr(str), waits;
      ghost var goal := out + Addressed(Outgoing(text, 1, waits), to, buffIndex);
      while |text| > 511
        invariant out + Addressed(Outgoing(text, blockNum, left), to, buffIndex) == goal
        decreases |text|
      {
        ghost var was := out;
        Send(to, Data(blockNum, text[..BLOCK]));
        if left != [] && !left[0] {
          Send(to, Err("timed out waiting for acknowledgment"));
          return;
        }
        ghost var next := Outgoing(text[BLOCK..], (blockNum + 1) % 0x1_0000, if left == [] then [] else left[1..]);
        AddressedCons(was, Data(blockNum, text[..BLOCK]), next, to, buffIndex);
        blockNum := (blockNum + 1) % 0x1_0000;
        text := text[BLOCK..];
        left := if left == [] then [] else left[1..];
      }
      Send(to, Data(blockNum, text));
    }
  }

  lemma AddressedCons(out: seq<Sent>, p: Reply, ps: seq<Reply>, to: Peer, held: nat)
    ensures out + Addressed([p] + ps, to, held) == out + [Sent(to, p, held)] + Addressed(ps, to, held)
  {
  }

  /** The mode string of a request: there is one, because a zero byte lies past the packet. */
  lemma ModeString(mem: seq<Ch>, len: nat, at: nat) returns (str: seq<Ch>, tail: seq<Ch>)
    requires at <= len <= |mem| && NUL in mem[len..]
    ensures mem[at..] == str + tail && str == CStr(mem[at..]) && NUL !in str && |tail| > 0 && tail[0] == NUL
  {
    var s := mem[at..];
    var j :| 0 <= j < |mem[len..]| && mem[len..][j] == NUL;
    assert s[len - at + j] == NUL;
    str := CStr(s);
    tail := s[|str|..];
  }
}
