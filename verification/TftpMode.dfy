/**
 The mode check of requests, byte by byte, for packets of every layout: options behind the mode make no difference.
 */
module TftpMode {
  import opened Basics
  import opened Text
  import opened TftpSpec
  import opened TftpTheorems

  /** The file name starts at byte 2; `z` is its terminating zero, the first inside the packet. */
  predicate NameEndsAt(mem: seq<Ch>, len: nat, z: nat)
    requires len <= |mem|
  {
    2 <= z < len && mem[z] == NUL && forall j :: 2 <= j < z ==> mem[j] != NUL
  }

  /** From `at` on the memory holds the string "octet", in any letter case, and its terminating zero. */
  predicate OctetAt(mem: seq<Ch>, at: nat) {
    && at + 5 < |mem|
    && (forall i :: 0 <= i < 5 ==> SameLetter(mem[at + i], "octet"[i]))
    && mem[at + 5] == NUL
  }

  /** A request in octet mode: a file name that ends, a zero at the end, and the mode behind the name. */
  ghost predicate OctetRequest(mem: seq<Ch>, len: nat)
    requires 4 <= len <= |mem|
  {
    mem[len - 1] == NUL && exists z: nat :: NameEndsAt(mem, len, z) && OctetAt(mem, z + 1)
  }

  lemma StringIsOctet(mem: seq<Ch>, at: nat)
    requires at <= |mem| && NUL in mem[at..]
    ensures LowerAll(CStr(mem[at..])) == "octet" <==> OctetAt(mem, at)
  {
    var tail := mem[at..];
    var str := CStr(tail);
    var j :| 0 <= j < |tail| && tail[j] == NUL;
    assert Find(tail, NUL) <= j;
    LowerIsOctet(str);
    if OctetAt(mem, at) {
      forall i | 0 <= i < 5
        ensures tail[i] != NUL && SameLetter(tail[i], "octet"[i])
      {
        assert tail[i] == mem[at + i];
        assert "octet"[i] in "octet" && NUL !in "octet";
        assert Lower("octet"[i]) == "octet"[i];
      }
      FindIs(tail, NUL, 5);
    }
    if |str| == 5 {
      assert forall i :: 0 <= i < 5 ==> str[i] == mem[at + i];
      assert tail[5] == mem[at + 5];
    }
  }

  lemma NameEnd(mem: seq<Ch>, len: nat)
    requires 4 <= len <= |mem|
    ensures var i := 2 + Find(mem[2..len], NUL);
      && (i < len <==> exists z: nat :: NameEndsAt(mem, len, z))
      && forall z: nat :: NameEndsAt(mem, len, z) ==> z == i
  {
    var i := 2 + Find(mem[2..len], NUL);
    assert forall j :: 2 <= j < len ==> mem[j] == mem[2..len][j - 2];
    if i < len { assert NameEndsAt(mem, len, i); }
  }

  lemma ZeroBehind(mem: seq<Ch>, at: nat, len: nat)
    requires at <= len <= |mem| && NUL in mem[len..]
    ensures NUL in mem[at..]
  {
    var j :| 0 <= j < |mem[len..]| && mem[len..][j] == NUL;
    assert mem[at..][len - at + j] == NUL;
  }

  /**
   The check is exact for every packet of four bytes or more, whatever lies behind its mode string: it is passed if and
   only if the packet is an octet request, and otherwise the first thing missing is told.
   */
  lemma OctetExact(mem: seq<Ch>, len: nat)
    requires 4 <= len <= |mem| && NUL in mem[len..]
    ensures OctetError(mem, len).None? <==> OctetRequest(mem, len)
    ensures !(exists z: nat :: NameEndsAt(mem, len, z)) ==> OctetError(mem, len) == Some("no filename given")
    ensures (exists z: nat :: NameEndsAt(mem, len, z)) && mem[len - 1] != NUL ==>
      OctetError(mem, len) == Some("mode string not null-terminated")
    ensures (exists z: nat :: NameEndsAt(mem, len, z)) && mem[len - 1] == NUL && !OctetRequest(mem, len) ==>
      OctetError(mem, len) == Some("only supported mode is octet")
  {
    var i := 2 + Find(mem[2..len], NUL);
    NameEnd(mem, len);
    if i < len { ModeBehind(mem, len, i); }
  }

  lemma ModeBehind(mem: seq<Ch>, len: nat, z: nat)
    requires 4 <= len <= |mem| && NUL in mem[len..] && NameEndsAt(mem, len, z)
    requires forall y: nat :: NameEndsAt(mem, len, y) ==> y == z
    ensures OctetRequest(mem, len) <==> mem[len - 1] == NUL && LowerAll(CStr(mem[z + 1..])) == "octet"
  {
    ZeroBehind(mem, z + 1, len);
    StringIsOctet(mem, z + 1);
  }
}
