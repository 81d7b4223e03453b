/** What each part of a log pattern parses to, said of characters alone. */
module LogLaws {
  import opened LogPatterns

  /** The ASCII letters, by their codes. */
  predicate Letter(c: char) {
    65 <= c as int <= 90 || 97 <= c as int <= 122
  }

  /** An item's name: letters, and closing braces that close nothing. */
  predicate IsName(s: string) {
    forall i :: 0 <= i < |s| ==> Letter(s[i]) || s[i] == '}'
  }

  predicate NoPercent(s: string) {
    forall i :: 0 <= i < |s| ==> s[i] != '%'
  }

  /** A literal makes an item unless it is empty. */
  function Literal(s: string): seq<Item> {
    if s == "" then [] else [Text(s)]
  }

  lemma NameEndsAt(name: string, rest: string)
    requires IsName(name) && (rest != "" ==> !Letter(rest[0]) && rest[0] != '}')
    ensures NameEnd(name + rest) == |name|
  {
    var p := name + rest;
    forall j | 0 <= j < |name|
      ensures IsAlpha(p[j]) || p[j] == '}'
    {
      assert p[j] == name[j];
    }
    NameEnds(p, |name|);
  }

  /** After a percent-free literal, from a percent sign that is not doubled. */
  lemma FromPercent(literal: string, p: string)
    requires NoPercent(literal) && (p != "" ==> p[0] != '%')
    ensures var r := ScanItem(p);
      && (r.Unclosed? ==> Fails(literal + "%" + p) && Parse(literal + "%" + p, "") == [ERROR] + Parse(p, literal))
      && (r.Scanned? ==>
            && Fails(literal + "%" + p) == Fails(p[r.taken..])
            && Parse(literal + "%" + p, "") == Literal(literal) + [r.item] + Parse(p[r.taken..], ""))
  {
    hide ScanItem, Parse, Fails;
    var q := "%" + p;
    assert literal + "%" + p == literal + q && "" + literal == literal;
    ParseText(literal, q, "");
    assert q[1..] == p && q[0] == '%';
    ParseItem(q, literal);
    if ScanItem(p).Scanned? {
      assert q[1 + ScanItem(p).taken..] == p[ScanItem(p).taken..];
    }
  }

  /** An item without a format ends before the first character that is neither a letter nor a brace. */
  lemma BareItem(literal: string, name: string, rest: string)
    requires NoPercent(literal) && IsName(name) && (name == "" && rest != "" ==> rest[0] != '%')
    requires rest != "" ==> !Letter(rest[0]) && rest[0] != '{' && rest[0] != '}'
    ensures var p := literal + "%" + (name + rest);
      && Parse(p, "") == Literal(literal) + [Field(name, "")] + Parse(rest, "")
      && Fails(p) == Fails(rest)
  {
    hide ScanItem, Parse, Fails, NameEnd;
    NameEndsAt(name, rest);
    ScansBare(name + rest, |name|);
    Parts(name, rest);
    FromPercent(literal, name + rest);
  }

  lemma Parts(a: string, b: string)
    ensures (a + b)[..|a|] == a && (a + b)[|a|..] == b
  {
  }

  /** A brace after the name opens the format, which ends at the first closing brace. */
  lemma ItemWithFormat(literal: string, name: string, format: string, rest: string)
    requires NoPercent(literal) && IsName(name) && (forall i :: 0 <= i < |format| ==> format[i] != '}')
    ensures var p := literal + "%" + (name + "{" + format + "}" + rest);
      && Parse(p, "") == Literal(literal) + [Field(name, format)] + Parse(rest, "")
      && Fails(p) == Fails(rest)
  {
    hide ScanItem, Parse, Fails, NameEnd;
    var p := name + "{" + format + "}" + rest;
    var tail := "{" + format + "}" + rest;
    assert p == name + tail;
    NameEndsAt(name, tail);
    Braced(name, format, rest);
    var e := |name| + 1 + |format|;
    forall j | |name| < j < e
      ensures p[j] != '}'
    {
      assert p[j] == p[|name| + 1..e][j - |name| - 1];
    }
    ScansBraced(p, |name|, e);
    Parts(name, tail);
    FromPercent(literal, p);
  }

  /**
   * A format that is never closed makes the pattern an error: an error item comes first, before the literal, and the
   * percent sign is skipped; name, brace and format then count as literal text, joined to what stood before.
   */
  lemma UnclosedItem(literal: string, name: string, format: string)
    requires NoPercent(literal) && IsName(name) && NoPercent(format) && (forall i :: 0 <= i < |format| ==> format[i] != '}')
    ensures var p := literal + "%" + (name + "{" + format);
      Fails(p) && Parse(p, "") == [Text("<<pattern_error>>"), Text(literal + name + "{" + format)]
  {
    hide ScanItem, Parse, Fails, NameEnd;
    var p, tail := name + "{" + format, "{" + format;
    assert p == name + tail;
    NameEndsAt(name, tail);
    assert forall j :: |name| < j < |p| ==> p[j] == format[j - |name| - 1];
    ScansBraced(p, |name|, |p|);
    FromPercent(literal, p);
    forall i | 0 <= i < |p|
      ensures p[i] != '%'
    {
      assert p[i] == if i < |name| then name[i] else tail[i - |name|];
    }
    ParseText(p, "", literal);
    assert p + "" == p;
    ParseEnd(literal + p);
    assert literal + p == literal + name + "{" + format;
  }

  /** A pattern without a percent sign is its own literal. */
  lemma LiteralOnly(p: string)
    requires NoPercent(p)
    ensures Parse(p, "") == Literal(p) && !Fails(p)
  {
    hide Parse, Fails;
    ParseText(p, "", "");
    assert p + "" == p && "" + p == p;
    ParseEnd(p);
  }
}
