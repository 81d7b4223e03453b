/** The text of an IPv6 address: one run of zero groups, the first, becomes a double colon. */
module Addresses {
  import opened Hexadecimal

  const DOUBLE := "::"

  /** Groups with single colons between them. */
  function Join(groups: seq<nat>): string {
    if groups == [] then ""
    else if |groups| == 1 then Hex(groups[0])
    else Hex(groups[0]) + ":" + Join(groups[1..])
  }

  /** The index of the first zero group, or of the end. */
  function FirstZero(groups: seq<nat>): (i: nat)
    ensures i <= |groups| && (i < |groups| ==> groups[i] == 0)
    ensures forall j :: 0 <= j < i ==> groups[j] != 0
  {
    if groups == [] || groups[0] == 0 then 0 else 1 + FirstZero(groups[1..])
  }

  /** The index of the first group that is not zero, or of the end. */
  function FirstNonzero(groups: seq<nat>): (i: nat)
    ensures i <= |groups| && (i < |groups| ==> groups[i] != 0)
    ensures forall j :: 0 <= j < i ==> groups[j] == 0
  {
    if groups == [] || groups[0] != 0 then 0 else 1 + FirstNonzero(groups[1..])
  }

  /** The end of the first run of zero groups. */
  function ZerosEnd(groups: seq<nat>): (e: nat)
    ensures FirstZero(groups) <= e <= |groups| && (e < |groups| ==> groups[e] != 0)
    ensures forall j :: FirstZero(groups) <= j < e ==> groups[j] == 0
    ensures FirstZero(groups) < |groups| ==> FirstZero(groups) < e
  {
    FirstZero(groups) + FirstNonzero(groups[FirstZero(groups)..])
  }

  /** What is printed between the brackets. */
  function Printed(groups: seq<nat>): string {
    var s := FirstZero(groups);
    if s == |groups| then Join(groups)
    else Join(groups[..s]) + DOUBLE + Join(groups[ZerosEnd(groups)..])
  }

  /** The first run of zeros lies before group `i` and has been printed. */
  predicate ZerosUsed(groups: seq<nat>, i: nat) {
    FirstZero(groups) < |groups| && ZerosEnd(groups) < i
  }

  /** What has been printed before group `i`. */
  function PrintedTo(groups: seq<nat>, i: nat): string
    requires i <= |groups|
  {
    var s := FirstZero(groups);
    if i <= s then Join(groups[..i])
    else if !ZerosUsed(groups, i) then Join(groups[..s])
    else Join(groups[..s]) + DOUBLE + Join(groups[ZerosEnd(groups)..i])
  }

  lemma PrintStep(groups: seq<nat>, i: nat)
    requires i < |groups|
    ensures var used := ZerosUsed(groups, i);
      var ends := i != 0 && groups[i - 1] == 0 && !used;
      if groups[i] == 0 && !used then PrintedTo(groups, i + 1) == PrintedTo(groups, i) && !ZerosUsed(groups, i + 1)
      else
        && PrintedTo(groups, i + 1)
             == PrintedTo(groups, i) + (if ends then ":" else "") + (if i != 0 then ":" else "") + Hex(groups[i])
        && (ZerosUsed(groups, i + 1) <==> used || ends)
  {
    hide Hex, Join, FirstZero, ZerosEnd, FirstNonzero;
    var s, e := FirstZero(groups), ZerosEnd(groups);
    if i < s {
      assert groups[..i + 1] == groups[..i] + [groups[i]];
      JoinMore(groups[..i], groups[i]);
      JoinNone();
    } else if i == e && s < |groups| {
      assert groups[e..i + 1] == [groups[i]];
      JoinOne(groups[i]);
    } else if e < i {
      assert groups[e..i + 1] == groups[e..i] + [groups[i]];
      JoinMore(groups[e..i], groups[i]);
    }
  }

  lemma JoinNone()
    ensures Join([]) == ""
  {
  }

  lemma JoinOne(g: nat)
    ensures Join([g]) == Hex(g)
  {
  }

  /** The loop of `IPv6Address::insert`, up to the closing bracket. */
  method Insert(addr: seq<nat>) returns (os: string)
    requires |addr| == 8
    ensures os == Printed(addr)
  {
    hide *;
    PrintStart(addr);
    os := "";
    var usedZeros := false;
    for i := 0 to 8
      invariant usedZeros == ZerosUsed(addr, i) && os == PrintedTo(addr, i)
    {
      PrintStep(addr, i);
      if addr[i] == 0 && !usedZeros {
        continue;
      }
      if i != 0 && addr[i - 1] == 0 && !usedZeros {
        os := os + ":";
        usedZeros := true;
      }
      if i != 0 {
        os := os + ":";
      }
      os := os + Hex(addr[i]);
    }
    PrintEnd(addr);
    if !usedZeros && addr[7] == 0 {
      os := os + "::";
    }
  }

  lemma PrintStart(groups: seq<nat>)
    ensures PrintedTo(groups, 0) == "" && !ZerosUsed(groups, 0)
  {
  }

  lemma PrintEnd(groups: seq<nat>)
    requires groups != []
    ensures Printed(groups)
         == PrintedTo(groups, |groups|)
          + if !ZerosUsed(groups, |groups|) && groups[|groups| - 1] == 0 then "::" else ""
  {
    hide Hex, FirstZero, ZerosEnd, FirstNonzero;
    var s, e := FirstZero(groups), ZerosEnd(groups);
    assert groups[..|groups|] == groups;
    if s < |groups| && e == |groups| {
      assert groups[e..] == [];
    }
  }

  lemma {:induction false} JoinMore(groups: seq<nat>, g: nat)
    ensures Join(groups + [g]) == if groups == [] then Hex(g) else Join(groups) + ":" + Hex(g)
  {
    if groups != [] {
      JoinMore(groups[1..], g);
      assert (groups + [g])[1..] == groups[1..] + [g];
    }
  }

  // ----- reading the text back (section 2.2 of RFC 4291)

  function ColonAt(s: string): (i: nat)
    ensures i <= |s| && (i < |s| ==> s[i] == ':') && forall j :: 0 <= j < i ==> s[j] != ':'
  {
    if s == "" || s[0] == ':' then 0 else 1 + ColonAt(s[1..])
  }

  predicate DoubleColon(s: string, i: nat) {
    i + 1 < |s| && s[i] == ':' && s[i + 1] == ':'
  }

  /** The index of the first double colon, or the length. */
  function DoubleAt(s: string): (i: nat)
    ensures i <= |s| && (i < |s| ==> DoubleColon(s, i)) && forall j :: 0 <= j < i ==> !DoubleColon(s, j)
  {
    if s == "" || DoubleColon(s, 0) then 0 else
    var i := 1 + DoubleAt(s[1..]);
    assert forall j: nat :: 0 < j < |s| ==> (DoubleColon(s, j) <==> DoubleColon(s[1..], j - 1));
    i
  }

  /** The number a field between colons stands for. */
  function GroupOf(field: string): nat {
    if forall i :: 0 <= i < |field| ==> IsDigit(field[i]) then Parse(field) else 0
  }

  function Groups(s: string): seq<nat> {
    if s == "" then [] else
    var i := ColonAt(s);
    if i == |s| then [GroupOf(s)] else [GroupOf(s[..i])] + Groups(s[i + 1..])
  }

  /** A double colon stands for as many zero groups as are missing from `n`. */
  function Expand(s: string, n: nat): seq<nat> {
    var i := DoubleAt(s);
    if i == |s| then Groups(s) else
    var left, right := Groups(s[..i]), Groups(s[i + 2..]);
    left + seq(if |left| + |right| <= n then n - |left| - |right| else 0, _ => 0) + right
  }

  lemma {:induction false} GroupsJoin(groups: seq<nat>)
    ensures Groups(Join(groups)) == groups
  {
    if |groups| == 1 {
      GroupsOne(groups[0]);
    } else if groups != [] {
      GroupsJoin(groups[1..]);
      GroupsMore(groups[0], Join(groups[1..]));
    }
  }

  lemma GroupsOne(g: nat)
    ensures Groups(Hex(g)) == [g]
  {
    ParseHex(g);
    ColonAfter(Hex(g), "");
    assert Hex(g) + "" == Hex(g);
  }

  lemma GroupsMore(g: nat, rest: string)
    ensures Groups(Hex(g) + ":" + rest) == [g] + Groups(rest)
  {
    hide Hex, Parse;
    var h := Hex(g);
    var s := h + ":" + rest;
    ParseHex(g);
    ColonAfter(h, ":" + rest);
    assert s == h + (":" + rest);
    assert s[..|h|] == h && s[|h| + 1..] == rest;
  }

  /** The first colon after a number. */
  lemma ColonAfter(h: string, rest: string)
    requires forall i :: 0 <= i < |h| ==> IsDigit(h[i])
    requires rest == "" || rest[0] == ':'
    ensures ColonAt(h + rest) == |h|
  {
    var s := h + rest;
    assert forall i :: 0 <= i < |h| ==> s[i] == h[i] && s[i] != ':';
    assert rest != "" ==> s[|h|] == ':';
  }

  /** No double colon, and no colon at either end. */
  predicate Tight(s: string) {
    && (s != "" ==> s[0] != ':' && s[|s| - 1] != ':')
    && forall i :: 0 <= i < |s| ==> !DoubleColon(s, i)
  }

  lemma {:induction false} JoinTight(groups: seq<nat>)
    ensures Tight(Join(groups)) && (groups != [] ==> Join(groups) != "")
  {
    if |groups| > 1 {
      var h, rest := Hex(groups[0]), Join(groups[1..]);
      JoinTight(groups[1..]);
      var s := h + ":" + rest;
      forall i | 0 <= i < |s|
        ensures !DoubleColon(s, i)
      {
        if i < |h| {
          assert s[i] == h[i];
        } else if i == |h| {
          assert i + 1 < |s| ==> s[i + 1] == rest[0];
        } else {
          assert !DoubleColon(rest, i - |h| - 1);
        }
      }
    }
  }

  /** Two tight texts with a double colon between them have it there and nowhere else. */
  lemma OneDouble(a: string, b: string)
    requires Tight(a) && Tight(b)
    ensures forall i :: DoubleColon(a + DOUBLE + b, i) <==> i == |a|
  {
    var s := a + DOUBLE + b;
    forall i: nat
      ensures DoubleColon(s, i) <==> i == |a|
    {
      if i < |a| {
        assert s[i] == a[i];
        assert !DoubleColon(a, i);
        assert i + 1 < |a| ==> s[i + 1] == a[i + 1];
      } else if i == |a| + 1 {
        assert i + 1 < |s| ==> s[i + 1] == b[0];
      } else if |a| + 1 < i < |s| {
        assert s[i] == b[i - |a| - 2];
        assert !DoubleColon(b, i - |a| - 2);
        assert i + 1 < |s| ==> s[i + 1] == b[i - |a| - 1];
      }
    }
  }

  /** The text has at most one double colon. */
  lemma AtMostOneDouble(groups: seq<nat>, i: nat, j: nat)
    requires DoubleColon(Printed(groups), i) && DoubleColon(Printed(groups), j)
    ensures i == j
  {
    var s, e := FirstZero(groups), ZerosEnd(groups);
    if s == |groups| {
      JoinTight(groups);
      assert false;
    } else {
      JoinTight(groups[..s]);
      JoinTight(groups[e..]);
      OneDouble(Join(groups[..s]), Join(groups[e..]));
    }
  }

  lemma ExpandDouble(a: string, b: string, n: nat)
    requires Tight(a) && Tight(b) && |Groups(a)| + |Groups(b)| <= n
    ensures Expand(a + DOUBLE + b, n) == Groups(a) + seq(n - |Groups(a)| - |Groups(b)|, _ => 0) + Groups(b)
  {
    hide Groups, Tight;
    var text := a + DOUBLE + b;
    OneDouble(a, b);
    assert DoubleColon(text, |a|);
    assert DoubleAt(text) == |a|;
    assert text[..|a|] == a && text[|a| + 2..] == b;
  }

  lemma ExpandTight(s: string, n: nat)
    requires Tight(s)
    ensures Expand(s, n) == Groups(s)
  {
    hide Groups;
  }

  /** Expanding the text gives back every group, wherever the zeros are. */
  lemma ExpandPrinted(groups: seq<nat>)
    ensures Expand(Printed(groups), |groups|) == groups
  {
    hide Expand, Join, Groups, Tight, FirstZero, ZerosEnd;
    var s, e := FirstZero(groups), ZerosEnd(groups);
    if s == |groups| {
      JoinTight(groups);
      GroupsJoin(groups);
      ExpandTight(Join(groups), |groups|);
    } else {
      JoinTight(groups[..s]);
      JoinTight(groups[e..]);
      GroupsJoin(groups[..s]);
      GroupsJoin(groups[e..]);
      ExpandDouble(Join(groups[..s]), Join(groups[e..]), |groups|);
      assert groups == groups[..s] + seq(e - s, _ => 0) + groups[e..];
    }
  }

  lemma HexMore(h: nat, d: nat)
    requires d < 16
    ensures (0 < h ==> Hex(16 * h + d) == Hex(h) + [Digit(d)]) && Hex(d) == [Digit(d)]
  {
    hide *;
    HexUnfold(16 * h + d);
    HexUnfold(d);
  }

  lemma HexUnfold(n: nat)
    ensures Hex(n) == if n < 16 then [Digit(n)] else Hex(n / 16) + [Digit(n % 16)]
  {
    hide Digit, Value;
  }

  lemma DigitText()
    ensures Digit(0) == '0' && Digit(1) == '1' && Digit(2) == '2' && Digit(8) == '8'
    ensures Digit(0xa) == 'a' && Digit(0xb) == 'b' && Digit(0xd) == 'd'
  {
  }

  lemma HexText()
    ensures Hex(0x2001) == "2001" && Hex(0xdb8) == "db8" && Hex(0xa) == "a" && Hex(0) == "0" && Hex(1) == "1"
  {
    hide Hex, Digit;
    DigitText();
    HexMore(0, 0);
    HexMore(0, 1);
    HexMore(0, 0xa);
    HexMore(0, 2);
    HexMore(2, 0);
    HexMore(0x20, 0);
    HexMore(0x200, 1);
    HexMore(0, 0xd);
    HexMore(0xd, 0xb);
    HexMore(0xdb, 8);
  }

  lemma JoinFirst(g: nat, rest: seq<nat>)
    ensures Join([g]) == Hex(g) && (rest != [] ==> Join([g] + rest) == Hex(g) + ":" + Join(rest))
  {
    assert ([g] + rest)[1..] == rest;
  }

  lemma JoinText()
    ensures Join([0x2001] + [0xdb8]) == "2001:db8" && Join([0xa] + ([0] + ([0] + [1]))) == "a:0:0:1"
  {
    hide *;
    HexText();
    JoinFirst(0x2001, [0xdb8]);
    JoinFirst(0xdb8, []);
    JoinFirst(0xa, [0] + ([0] + [1]));
    JoinFirst(0, [0] + [1]);
    JoinFirst(0, [1]);
    JoinFirst(1, []);
  }

  /** An address with two runs of zeros: the first is shortened, digits are in lower case, leading zeros are left out. */
  lemma PrintedText()
    ensures Printed([0x2001, 0xdb8, 0, 0, 0xa, 0, 0, 1]) == "2001:db8::a:0:0:1"
  {
    hide Hex, Join, FirstZero, FirstNonzero, ZerosEnd;
    var g := [0x2001, 0xdb8, 0, 0, 0xa, 0, 0, 1];
    assert FirstZero(g) == 2 && ZerosEnd(g) == 4 by {
      assert g[2] == 0 && g[3] == 0 && g[4] != 0;
    }
    assert g[..2] == [0x2001] + [0xdb8] && g[4..] == [0xa] + ([0] + ([0] + [1]));
    JoinText();
  }
}
