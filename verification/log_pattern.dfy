/** The parser of log patterns such as `%d{%H:%M} [%p] %m%n`. */
module LogPatterns {

  /** A literal, or an item with its format (empty if there is none). */
  datatype Item = Text(text: string) | Field(name: string, format: string)

  const ERROR := Text("<<pattern_error>>")

  predicate IsAlpha(c: char) {
    'a' <= c <= 'z' || 'A' <= c <= 'Z'
  }

  /** How far an item's name reaches: over letters and closing braces. */
  function NameEnd(p: string): (n: nat)
    ensures n <= |p| && (forall j :: 0 <= j < n ==> IsAlpha(p[j]) || p[j] == '}')
    ensures n < |p| ==> !IsAlpha(p[n]) && p[n] != '}'
  {
    if p == "" || !(IsAlpha(p[0]) || p[0] == '}') then 0 else 1 + NameEnd(p[1..])
  }

  function BraceAt(p: string): (n: nat)
    ensures n <= |p| && (n < |p| ==> p[n] == '}') && forall j :: 0 <= j < n ==> p[j] != '}'
  {
    if p == "" || p[0] == '}' then 0 else 1 + BraceAt(p[1..])
  }

  /** What follows a percent sign: an item and how much of the pattern it takes, or an unclosed brace. */
  datatype Scanned = Scanned(item: Item, taken: nat) | Unclosed

  function ScanItem(p: string): (r: Scanned)
    ensures r.Scanned? ==> r.taken <= |p|
  {
    var n := NameEnd(p);
    if n == |p| || p[n] != '{' then Scanned(Field(p[..n], ""), n) else
    var m := BraceAt(p[n + 1..]);
    if n + 1 + m == |p| then Unclosed else Scanned(Field(p[..n], p[n + 1..n + 1 + m]), n + 1 + m + 1)
  }

  function Flush(nstr: string): seq<Item> {
    if nstr == "" then [] else [Text(nstr)]
  }

  /** The items of the pattern `p`, read with `nstr` as the literal so far. */
  function Parse(p: string, nstr: string): seq<Item>
    decreases |p|
  {
    if p == "" then Flush(nstr)
    else if p[0] != '%' then Parse(p[1..], nstr + [p[0]])
    else if 1 < |p| && p[1] == '%' then Parse(p[1..], nstr + "%")
    else
      var r := ScanItem(p[1..]);
      if r.Unclosed? then [ERROR] + Parse(p[1..], nstr)
      else Flush(nstr) + [r.item] + Parse(p[1 + r.taken..], "")
  }

  lemma NameEnds(p: string, n: nat)
    requires n <= |p| && (forall j :: 0 <= j < n ==> IsAlpha(p[j]) || p[j] == '}')
    requires n < |p| ==> !IsAlpha(p[n]) && p[n] != '}'
    ensures NameEnd(p) == n
  {
  }

  lemma ScansBare(p: string, n: nat)
    requires NameEnd(p) == n && (n < |p| ==> p[n] != '{')
    ensures ScanItem(p) == Scanned(Field(p[..n], ""), n)
  {
  }

  lemma ScansBraced(p: string, b: nat, e: nat)
    requires NameEnd(p) == b < e <= |p| && p[b] == '{'
    requires (forall j :: b < j < e ==> p[j] != '}') && (e < |p| ==> p[e] == '}')
    ensures ScanItem(p) == if e == |p| then Unclosed else Scanned(Field(p[..b], p[b + 1..e]), e + 1)
  {
    hide NameEnd, BraceAt;
    var rest := p[b + 1..];
    assert forall j :: 0 <= j < |rest| ==> rest[j] == p[b + 1 + j];
    BraceEnds(rest, e - b - 1);
  }

  lemma BraceEnds(p: string, n: nat)
    requires n <= |p| && (forall j :: 0 <= j < n ==> p[j] != '}') && (n < |p| ==> p[n] == '}')
    ensures BraceAt(p) == n
  {
  }

  /** The inner loop of `init`, from a percent sign at `i`: the item, the index after it, and whether it is closed. */
  method Scan(p: string, i: nat) returns (str: string, fmt: string, n: nat, status: nat)
    requires i < |p|
    ensures status == if ScanItem(p[i + 1..]).Unclosed? then 1 else 0
    ensures status == 0 ==> i < n <= |p| && ScanItem(p[i + 1..]) == Scanned(Field(str, fmt), n - i - 1)
  {
    hide ScanItem, NameEnd, BraceAt;
    n, status, str, fmt := i + 1, 0, "", "";
    var begin: nat := 0;
    ghost var q := p[i + 1..];
    assert forall j :: 0 <= j < |q| ==> q[j] == p[i + 1 + j];
    while n < |p|
      invariant i + 1 <= n <= |p| && status <= 1 && fmt == ""
      invariant status == 0 ==> forall j :: i < j < n ==> IsAlpha(p[j]) || p[j] == '}'
      invariant status == 0 ==> str == if n == |p| then q else ""
      invariant status == 1 ==> i < begin < n && NameEnd(q) == begin - i - 1 && p[begin] == '{'
      invariant status == 1 && n < |p| ==> str == p[i + 1..begin]
      invariant status == 1 ==> forall j :: begin < j < n ==> p[j] != '}'
      decreases |p| - n
    {
      if status == 0 && !IsAlpha(p[n]) && p[n] != '{' && p[n] != '}' {
        str := p[i + 1..n];
        NameEnds(q, n - i - 1);
        ScansBare(q, n - i - 1);
        assert str == q[..n - i - 1];
        return;
      }
      if status == 0 {
        if p[n] == '{' {
          str := p[i + 1..n];
          NameEnds(q, n - i - 1);
          status, begin := 1, n;
          n := n + 1;
          continue;
        }
      }
      if status == 1 {
        if p[n] == '}' {
          fmt := p[begin + 1..n];
          ScansBraced(q, begin - i - 1, n - i - 1);
          assert str == q[..begin - i - 1] && fmt == q[begin - i..n - i - 1];
          status := 0;
          n := n + 1;
          return;
        }
      }
      n := n + 1;
      if n == |p| {
        if str == "" {
          str := p[i + 1..];
        }
      }
    }
    if status == 0 {
      NameEnds(q, |q|);
      ScansBare(q, |q|);
      assert str == q[..|q|];
    } else {
      ScansBraced(q, begin - i - 1, |q|);
    }
  }

  /** Some brace is never closed. */
  predicate Fails(p: string)
    decreases |p|
  {
    p != "" &&
    if p[0] != '%' || (1 < |p| && p[1] == '%') then Fails(p[1..])
    else
      var r := ScanItem(p[1..]);
      r.Unclosed? || Fails(p[1 + r.taken..])
  }

  // One step of the parse, by what comes next.

  lemma ParseChar(p: string, nstr: string)
    requires p != "" && (p[0] != '%' || (1 < |p| && p[1] == '%'))
    ensures Parse(p, nstr) == Parse(p[1..], nstr + [p[0]]) && Fails(p) == Fails(p[1..])
  {
  }

  lemma ParseItem(p: string, nstr: string)
    requires p != "" && p[0] == '%' && !(1 < |p| && p[1] == '%')
    ensures var r := ScanItem(p[1..]);
      if r.Unclosed? then Fails(p) && Parse(p, nstr) == [ERROR] + Parse(p[1..], nstr)
      else Fails(p) == Fails(p[1 + r.taken..]) && Parse(p, nstr) == Flush(nstr) + [r.item] + Parse(p[1 + r.taken..], "")
  {
  }

  lemma ParseEnd(nstr: string)
    ensures Parse("", nstr) == Flush(nstr) && !Fails("")
  {
  }

  /** The scan of the whole pattern; `failed` is `m_error`. */
  method Init(pattern: string) returns (vec: seq<Item>, failed: bool)
    ensures vec == Parse(pattern, "") && (failed <==> Fails(pattern))
  {
    hide ScanItem, Parse, Fails;
    vec, failed := [], false;
    var nstr := "";
    var i := 0;
    while i < |pattern|
      invariant i <= |pattern|
      invariant vec + Parse(pattern[i..], nstr) == Parse(pattern, "")
      invariant failed || Fails(pattern[i..]) <==> Fails(pattern)
      decreases |pattern| - i
    {
      ghost var p := pattern[i..];
      assert p[1..] == pattern[i + 1..];
      if pattern[i] != '%' {
        ParseChar(p, nstr);
        nstr := nstr + [pattern[i]];
        i := i + 1;
        continue;
      }
      if i + 1 < |pattern| {
        if pattern[i + 1] == '%' {
          ParseChar(p, nstr);
          nstr := nstr + "%";
          i := i + 1;
          continue;
        }
      }
      ParseItem(p, nstr);
      var str, fmt, n, status := Scan(pattern, i);
      if status == 0 {
        assert p[1 + (n - i - 1)..] == pattern[n..];
        if nstr != "" {
          vec := vec + [Text(nstr)];
          nstr := "";
        }
        vec := vec + [Field(str, fmt)];
        i := n - 1;
      }
      if status == 1 {
        failed := true;
        vec := vec + [ERROR];
      }
      i := i + 1;
    }
    ParseEnd(nstr);
    assert pattern[i..] == "";
    if nstr != "" {
      vec := vec + [Text(nstr)];
    }
  }

  // ----- printing a list of items and parsing it again

  function PrintItem(item: Item): string {
    match item
    case Text(text) => text
    case Field(name, format) => "%" + name + (if format == "" then "" else "{" + format + "}")
  }

  function Print(items: seq<Item>): string {
    if items == [] then "" else PrintItem(items[0]) + Print(items[1..])
  }

  /** A percent-free literal, or an alphabetic item with a format that does not close the brace. */
  predicate Printable(item: Item) {
    match item
    case Text(text) => text != "" && forall i :: 0 <= i < |text| ==> text[i] != '%'
    case Field(name, format) =>
      && name != "" && (forall i :: 0 <= i < |name| ==> IsAlpha(name[i]))
      && forall i :: 0 <= i < |format| ==> format[i] != '}'
  }

  /** Literals are not adjacent, and one after a bare item does not start with a letter or a brace. */
  predicate Follows(item: Item, next: Item) {
    next.Text? && next.text != "" ==>
      item.Field? && (item.format == "" ==> !IsAlpha(next.text[0]) && next.text[0] != '{' && next.text[0] != '}')
  }

  predicate WellFormed(items: seq<Item>) {
    && (forall i :: 0 <= i < |items| ==> Printable(items[i]))
    && (forall i :: 0 < i < |items| ==> Follows(items[i - 1], items[i]))
  }

  lemma {:induction false} ParseText(text: string, rest: string, nstr: string)
    requires forall i :: 0 <= i < |text| ==> text[i] != '%'
    ensures Parse(text + rest, nstr) == Parse(rest, nstr + text) && Fails(text + rest) == Fails(rest)
  {
    hide ScanItem;
    if text == "" {
      assert text + rest == rest && nstr + text == nstr;
    } else {
      var p := text + rest;
      assert p[1..] == text[1..] + rest;
      ParseChar(p, nstr);
      ParseText(text[1..], rest, nstr + [text[0]]);
      assert nstr + [text[0]] + text[1..] == nstr + text;
    }
  }

  lemma Braced(a: string, m: string, rest: string)
    ensures var p := a + "{" + m + "}" + rest;
      && p[..|a|] == a && p[|a|] == '{' && p[|a| + 1..|a| + 1 + |m|] == m && p[|a| + 1 + |m|] == '}'
      && p[|a| + 2 + |m|..] == rest
  {
  }

  lemma ScanBare(name: string, rest: string)
    requires forall i :: 0 <= i < |name| ==> IsAlpha(name[i])
    requires rest != "" ==> !IsAlpha(rest[0]) && rest[0] != '{' && rest[0] != '}'
    ensures ScanItem(name + rest) == Scanned(Field(name, ""), |name|)
  {
    hide ScanItem, NameEnd;
    var p := name + rest;
    assert p[..|name|] == name;
    NameEnds(p, |name|);
    ScansBare(p, |name|);
  }

  lemma ScanBraced(name: string, format: string, rest: string)
    requires forall i :: 0 <= i < |name| ==> IsAlpha(name[i])
    requires forall i :: 0 <= i < |format| ==> format[i] != '}'
    ensures ScanItem(name + "{" + format + "}" + rest) == Scanned(Field(name, format), |name| + |format| + 2)
  {
    hide ScanItem, NameEnd;
    var p := name + "{" + format + "}" + rest;
    var n, e := |name|, |name| + 1 + |format|;
    Braced(name, format, rest);
    forall j | n < j < e
      ensures p[j] != '}'
    {
      assert p[j] == p[n + 1..e][j - n - 1];
    }
    NameEnds(p, n);
    ScansBraced(p, n, e);
  }

  lemma ScanPrinted(item: Item, rest: string)
    requires Printable(item) && item.Field?
    requires item.format == "" && rest != "" ==> !IsAlpha(rest[0]) && rest[0] != '{' && rest[0] != '}'
    ensures var p := PrintItem(item)[1..] + rest;
      ScanItem(p) == Scanned(item, |PrintItem(item)| - 1) && p[0] != '%' && p[|PrintItem(item)| - 1..] == rest
  {
    hide ScanItem, NameEnd;
    var p := PrintItem(item)[1..] + rest;
    if item.format == "" {
      assert PrintItem(item)[1..] == item.name;
      ScanBare(item.name, rest);
    } else {
      assert PrintItem(item)[1..] == item.name + "{" + item.format + "}";
      ScanBraced(item.name, item.format, rest);
    }
  }

  lemma ParsePrinted(item: Item, rest: string, nstr: string)
    requires Printable(item) && item.Field?
    requires item.format == "" && rest != "" ==> !IsAlpha(rest[0]) && rest[0] != '{' && rest[0] != '}'
    ensures Parse(PrintItem(item) + rest, nstr) == Flush(nstr) + [item] + Parse(rest, "")
    ensures Fails(PrintItem(item) + rest) == Fails(rest)
  {
    hide ScanItem, Parse, Fails;
    var p := PrintItem(item) + rest;
    assert p[1..] == PrintItem(item)[1..] + rest;
    ScanPrinted(item, rest);
    ParseItem(p, nstr);
    assert p[|PrintItem(item)|..] == rest;
  }

  /** How a printed list starts. */
  lemma PrintStarts(items: seq<Item>)
    requires WellFormed(items) && items != []
    ensures Print(items) != ""
    ensures Print(items)[0] == if items[0].Text? && items[0].text != "" then items[0].text[0] else '%'
  {
    assert Printable(items[0]);
  }

  /** After an item, the rest of a printed list starts as the item needs. */
  lemma RestStarts(items: seq<Item>)
    requires WellFormed(items) && items != []
    ensures WellFormed(items[1..]) && Printable(items[0])
    ensures items[0].Field? && items[0].format == "" ==> var p := Print(items[1..]);
      p != "" ==> !IsAlpha(p[0]) && p[0] != '{' && p[0] != '}'
    ensures items[0].Text? && items[1..] != [] ==> items[1].Field?
  {
    hide Print, Printable;
    var rest := items[1..];
    forall i | 0 <= i < |rest|
      ensures Printable(rest[i]) && (0 < i ==> Follows(rest[i - 1], rest[i]))
    {
      assert rest[i] == items[i + 1];
    }
    if rest != [] {
      PrintStarts(rest);
      assert Follows(items[0], items[1]) && Printable(items[1]);
      NotEmpty(items[1]);
    } else {
      NoneEmpty();
    }
  }

  lemma NotEmpty(item: Item)
    requires Printable(item)
    ensures item.Text? ==> item.text != ""
  {
  }

  lemma NoneEmpty()
    ensures Print([]) == ""
  {
  }

  lemma SomeField(items: seq<Item>)
    requires WellFormed(items)
    ensures items != [] ==> Printable(items[0])
  {
  }

  /** A literal read before a printed list that does not start with one becomes an item of its own. */
  lemma FlushFirst(items: seq<Item>, nstr: string)
    requires WellFormed(items) && (items != [] ==> items[0].Field?)
    ensures Parse(Print(items), nstr) == Flush(nstr) + Parse(Print(items), "")
  {
    hide ScanItem, Parse, Printable, Follows, PrintItem, WellFormed;
    if items == [] {
      ParseEnd(nstr);
      ParseEnd("");
    } else {
      SomeField(items);
      RestStarts(items);
      FlushItem(items[0], Print(items[1..]), nstr);
    }
  }

  lemma FlushItem(item: Item, rest: string, nstr: string)
    requires Printable(item) && item.Field?
    requires item.format == "" && rest != "" ==> !IsAlpha(rest[0]) && rest[0] != '{' && rest[0] != '}'
    ensures Parse(PrintItem(item) + rest, nstr) == Flush(nstr) + Parse(PrintItem(item) + rest, "")
  {
    hide ScanItem, Parse, Printable, PrintItem, Fails;
    ParsePrinted(item, rest, nstr);
    ParsePrinted(item, rest, "");
    var tail := Parse(rest, "");
    assert Flush(nstr) + [item] + tail == Flush(nstr) + ([item] + tail);
    assert Flush("") + [item] + tail == [item] + tail;
  }

  /** Parsing undoes printing, without an error. */
  lemma {:induction false} ParsePrint(items: seq<Item>)
    requires WellFormed(items)
    ensures Parse(Print(items), "") == items && !Fails(Print(items))
  {
    hide ScanItem, Parse, Follows, Fails;
    if items == [] {
      ParseEnd("");
    } else {
      var rest := items[1..];
      RestStarts(items);
      ParsePrint(rest);
      if items[0].Text? {
        ParseText(items[0].text, Print(rest), "");
        FlushFirst(rest, items[0].text);
        assert "" + items[0].text == items[0].text;
      } else {
        ParsePrinted(items[0], Print(rest), "");
      }
      assert items == [items[0]] + rest;
    }
  }

  lemma ScannedField(p: string)
    requires ScanItem(p).Scanned?
    ensures ScanItem(p).item.Field?
  {
  }

  /** A literal that has begun comes first, complete, unless an error does. */
  lemma {:induction false} LiteralFirst(p: string, nstr: string)
    requires nstr != ""
    ensures Parse(p, nstr) != [] && Parse(p, nstr)[0].Text?
    ensures Parse(p, nstr)[0] == ERROR || |nstr| <= |Parse(p, nstr)[0].text|
    decreases |p|
  {
    if p == "" {
      ParseEnd(nstr);
    } else {
      hide Parse, ScanItem, Fails;
      if p[0] != '%' || (1 < |p| && p[1] == '%') {
        ParseChar(p, nstr);
        LiteralFirst(p[1..], nstr + [p[0]]);
      } else {
        ParseItem(p, nstr);
      }
    }
  }

  /** Different literals before the same pattern are told apart. */
  lemma {:induction false} LiteralsDiffer(p: string, a: string, b: string)
    requires Parse(p, a) == Parse(p, b)
    ensures a == b
    decreases |p|
  {
    if p == "" {
      ParseEnd(a);
      ParseEnd(b);
    } else {
      hide Parse, ScanItem, Fails;
      if p[0] != '%' || (1 < |p| && p[1] == '%') {
        ParseChar(p, a);
        ParseChar(p, b);
        LiteralsDiffer(p[1..], a + [p[0]], b + [p[0]]);
        SameInit(a, b, p[0]);
      } else {
        ParseItem(p, a);
        ParseItem(p, b);
        var r := ScanItem(p[1..]);
        if r.Unclosed? {
          SameTail([ERROR], Parse(p[1..], a), Parse(p[1..], b));
          LiteralsDiffer(p[1..], a, b);
        } else {
          ScannedField(p[1..]);
          SameFlush(a, b, r.item, Parse(p[1 + r.taken..], ""));
        }
      }
    }
  }

  lemma SameInit(a: string, b: string, c: char)
    requires a + [c] == b + [c]
    ensures a == b
  {
    assert (a + [c])[..|a|] == a && (b + [c])[..|b|] == b;
  }

  lemma SameTail(head: seq<Item>, s: seq<Item>, t: seq<Item>)
    requires head + s == head + t
    ensures s == t
  {
    assert (head + s)[|head|..] == s && (head + t)[|head|..] == t;
  }

  lemma SameFlush(a: string, b: string, field: Item, rest: seq<Item>)
    requires Flush(a) + [field] + rest == Flush(b) + [field] + rest && field.Field?
    ensures a == b
  {
    assert (Flush(a) + [field] + rest)[0] == if a == "" then field else Text(a);
    assert (Flush(b) + [field] + rest)[0] == if b == "" then field else Text(b);
  }

  /**
   * The second half of a doubled percent sign is read again. So a doubled percent sign is never just a literal one,
   * whatever stands before and behind it.
   */
  lemma DoubledPercent(rest: string, nstr: string)
    ensures Parse("%%" + rest, nstr) == Parse("%" + rest, nstr + "%") != Parse(rest, nstr + "%")
  {
    var p, q, m := "%%" + rest, "%" + rest, nstr + "%";
    assert p[1..] == q && q[1..] == rest;
    hide Parse, ScanItem, Fails;
    ParseChar(p, nstr);
    assert nstr + [p[0]] == m;
    if rest != "" && rest[0] == '%' {
      ParseChar(q, m);
      assert m + [q[0]] == m + "%";
      assert |m + "%"| != |m|;
      if Parse(rest, m + "%") == Parse(rest, m) {
        LiteralsDiffer(rest, m + "%", m);
      }
    } else {
      ParseItem(q, m);
      if ScanItem(rest).Scanned? {
        ScannedField(rest);
      }
      if rest == "" {
        ParseEnd(m);
      } else {
        ParseChar(rest, m);
        LiteralFirst(rest[1..], m + [rest[0]]);
        assert m[|m| - 1] == '%' && ERROR.text[|ERROR.text| - 1] == '>';
      }
    }
  }

  /** With letters behind it, a doubled percent sign is a literal one and an item. */
  lemma DoubledPercentItem(name: string)
    requires forall i :: 0 <= i < |name| ==> IsAlpha(name[i])
    ensures Parse("%%" + name, "") == [Text("%"), Field(name, "")]
  {
    hide ScanItem, Parse, Fails, NameEnd, Flush;
    DoubledPercent(name, "");
    assert "" + "%" == "%";
    NameEnds(name, |name|);
    ScansBare(name, |name|);
    NameAlone("%" + name, name);
    ParseItem("%" + name, "%");
    ParseEnd("");
    FlushPercent();
  }

  lemma NameAlone(q: string, name: string)
    requires q == "%" + name
    ensures q[1..] == name && name[..|name|] == name && q[1 + |name|..] == ""
  {
  }

  lemma FlushPercent()
    ensures Flush("%") == [Text("%")] && Flush("") == []
  {
  }
}
