/**
 * When a chunked body comes out right: exactly which read ends inside a chunk-size line make it be misread.
 */
module ChunkedCuts {
  import opened ChunkedBodies
  import opened Hexadecimal
  import opened Wrappers

  /** No read ends inside one of the size lines of a body that starts at `start`. */
  ghost predicate WholeLines(chunks: seq<Chunk>, last: Chunk, start: int, cuts: set<nat>) {
    if chunks == [] then Whole(start, |SizeLine(last.digits, last.params)|, cuts)
    else
      && Whole(start, |SizeLine(chunks[0].digits, chunks[0].params)|, cuts)
      && WholeLines(chunks[1..], last, start + |Encode(chunks[0])|, cuts)
  }

  /** A line no read ends inside is read right. */
  lemma WholeLine(digits: string, params: seq<Param>, rest: string, start: int, cuts: set<nat>)
    requires Digits(digits) && GoodParams(params) && Whole(start, |SizeLine(digits, params)|, cuts)
    ensures LineOutcome(SizeLine(digits, params) + rest, start, cuts) == Got(Parse(digits), rest)
  {
    hide ParseLine, Parse, LineOutcome, SizeLine;
    var line := SizeLine(digits, params);
    ParseSizeLine(digits, params, "");
    assert line + "" == line;
    Undropped(line, rest, start, cuts);
    assert line[|line|..] + rest == rest;
  }

  /**
   * When no read ends inside a chunk-size line, the body is the payloads put together, and what follows the last chunk
   * is left.
   */
  lemma {:induction false} BodyOfWholeLines(chunks: seq<Chunk>, last: Chunk, rest: string, start: int, cuts: set<nat>)
    requires GoodChunks(chunks, last) && WholeLines(chunks, last, start, cuts)
    ensures Body(EncodeAll(chunks, last) + rest, start, cuts) == Some((Payloads(chunks), rest))
    decreases |chunks|
  {
    hide LineOutcome, SizeLine, Digits, GoodParams, Parse, Whole;
    var stream := EncodeAll(chunks, last) + rest;
    if chunks == [] {
      assert GoodChunk(last);
      WholeLine(last.digits, last.params, CRLF + rest, start, cuts);
      assert stream == SizeLine(last.digits, last.params) + (CRLF + rest);
      BodyIs(stream, start, cuts, "");
      AfterNothing(stream, start);
    } else {
      var c := chunks[0];
      assert GoodChunk(c);
      var next := EncodeAll(chunks[1..], last) + rest;
      var tail := c.payload + CRLF + next;
      WholeLine(c.digits, c.params, tail, start, cuts);
      assert stream == SizeLine(c.digits, c.params) + tail;
      BodyOfWholeLines(chunks[1..], last, rest, start + |Encode(c)|, cuts);
      assert tail[..|c.payload|] == c.payload && tail[|c.payload| + 2..] == next;
      BodyIs(stream, start, cuts, "");
      AfterNothing(stream, start);
    }
  }

  /** A read may end inside the line's leading zeros, but nowhere else in it. */
  ghost predicate OnlyZerosCut(digits: string, start: int, cuts: set<nat>)
    requires forall i :: 0 <= i < |digits| ==> IsDigit(digits[i])
  {
    forall c :: c in cuts && start < c < start + |digits| + 2 ==>
      c - start < |digits| && Parse(digits[..c - start]) == 0
  }

  /** What a line without an extension can be misread as is never more than its size. */
  lemma {:induction false} MisreadLess(digits: string, rest: string, start: int, cuts: set<nat>)
    requires Digits(digits)
    ensures var r := LineOutcome(SizeLine(digits, []) + rest, start, cuts); r.Got? ==> r.size <= Parse(digits)
    decreases |digits|
  {
    hide ParseLine, SizeLine, Parse, LineOutcome;
    var n := CutFrom(start, 1, |digits| + 2, cuts);
    LineFrom(digits, rest, start, cuts);
    if n < |digits| {
      MisreadLess(digits[n..], rest, start + n, cuts);
      ParseSplit(digits[..n], digits[n..]);
      assert digits[..n] + digits[n..] == digits;
    }
  }

  /** A line without an extension, by the first read end inside it. */
  lemma LineFrom(digits: string, rest: string, start: int, cuts: set<nat>)
    requires Digits(digits)
    ensures var n := CutFrom(start, 1, |digits| + 2, cuts); var r := LineOutcome(SizeLine(digits, []) + rest, start, cuts);
      if n == |digits| + 2 then r == Got(Parse(digits), rest)
      else if n < |digits| then r == LineOutcome(SizeLine(digits[n..], []) + rest, start + n, cuts)
      else r == Closed
  {
    hide Parse, ParseLine, SizeLine, LineOutcome;
    var line := SizeLine(digits, []);
    var stream := line + rest;
    ParseSizeLine(digits, [], rest);
    BareLine(digits);
    var n := CutFrom(start, 1, |digits| + 2, cuts);
    OutcomeIs(stream, start, cuts);
    if n == |digits| + 2 {
      assert stream[n..] == rest;
    } else if n < |digits| {
      BareLine(digits[n..]);
      assert line[n..] == SizeLine(digits[n..], []);
      assert stream[n..] == line[n..] + rest;
    } else {
      assert stream[n] == if n == |digits| then '\r' else '\n';
      BeginRejects(stream[n..]);
    }
  }

  lemma BareLine(digits: string)
    ensures SizeLine(digits, []) == digits + CRLF
  {
    assert Extension([]) == "";
    assert digits + "" == digits;
  }

  lemma BeginRejects(data: string)
    requires data != "" && !IsDigit(data[0])
    ensures ParseLine(data) == Bad(1)
    ensures forall start, cuts :: LineOutcome(data, start, cuts) == Closed
  {
  }

  /**
   * A line without an extension is read right if and only if every read that ends inside it ends inside its leading
   * zeros.
   */
  lemma {:induction false} ReadRightExactly(digits: string, rest: string, start: int, cuts: set<nat>)
    requires Digits(digits)
    ensures LineOutcome(SizeLine(digits, []) + rest, start, cuts) == Got(Parse(digits), rest)
      <==> OnlyZerosCut(digits, start, cuts)
    decreases |digits|
  {
    hide ParseLine, SizeLine, Parse, LineOutcome;
    var n := CutFrom(start, 1, |digits| + 2, cuts);
    LineFrom(digits, rest, start, cuts);
    if n < |digits| {
      var a, b := digits[..n], digits[n..];
      assert a + b == digits;
      ParseSplit(a, b);
      MisreadLess(b, rest, start + n, cuts);
      ReadRightExactly(b, rest, start + n, cuts);
      ZerosShift(digits, n, start, cuts);
    } else if n < |digits| + 2 {
      assert !OnlyZerosCut(digits, start, cuts) by {
        assert start + n in cuts;
      }
    }
  }

  /** With the first read end in the leading zeros, the others are judged in what follows it. */
  lemma ZerosShift(digits: string, n: nat, start: int, cuts: set<nat>)
    requires Digits(digits) && 0 < n < |digits| && start + n in cuts && Whole(start, n, cuts)
    ensures forall i :: 0 <= i < |digits[n..]| ==> IsDigit(digits[n..][i])
    ensures forall i :: 0 <= i < n ==> IsDigit(digits[..n][i])
    ensures OnlyZerosCut(digits, start, cuts) <==>
      Parse(digits[..n]) == 0 && OnlyZerosCut(digits[n..], start + n, cuts)
  {
    hide Parse;
    var b := digits[n..];
    forall c | c in cuts && start + n < c < start + |digits|
      ensures Parse(digits[..n]) == 0 ==> Parse(digits[..c - start]) == Parse(b[..c - start - n])
    {
      ParseSplit(digits[..n], b[..c - start - n]);
      assert digits[..n] + b[..c - start - n] == digits[..c - start];
    }
  }

  /** Without leading zeros: exactly when no read ends inside it. */
  lemma ReadRightWhole(size: nat, rest: string, start: int, cuts: set<nat>)
    ensures LineOutcome(SizeLine(Hex(size), []) + rest, start, cuts) == Got(size, rest)
      <==> Whole(start, |Hex(size)| + 2, cuts)
  {
    hide LineOutcome, SizeLine, Parse;
    ReadRightExactly(Hex(size), rest, start, cuts);
    ParseHex(size);
    forall n | 0 < n < |Hex(size)|
      ensures Parse(Hex(size)[..n]) != 0
    {
      NoLeadingZero(size, n);
    }
  }

  // ----- lines with an extension

  /** What can follow in a line, from a state of the parser on: what is left of the present part, and parameters. */
  datatype Remainder = Remainder(head: string, value: Option<string>, params: seq<Param>) {
    function Text(): string {
      head + (if value.Some? then "=" + value.value else "") + Extension(params) + CRLF
    }

    predicate Follows(state: State) {
      GoodParams(params) &&
      match state
      case Begin => Digits(head) && value.None?
      case Size => (forall i :: 0 <= i < |head| ==> IsDigit(head[i])) && value.None?
      case NameBegin => Tokens(head) && (value.Some? ==> Tokens(value.value))
      case Name => (forall i :: 0 <= i < |head| ==> IsToken(head[i])) && (value.Some? ==> Tokens(value.value))
      case ValueBegin => Tokens(head) && value.None?
      case Value => (forall i :: 0 <= i < |head| ==> IsToken(head[i])) && value.None?
      case Return => false
    }
  }

  /** What the parser accepts up to a carriage return and a newline is by the grammar. */
  lemma {:induction false} Decompose(state: State, s: string) returns (r: Remainder)
    requires state != Return && Scan(state, s) == Stops(true, |s|) && 2 <= |s| && s[|s| - 2..] == CRLF
    ensures r.Follows(state) && s == r.Text()
    decreases |s|
  {
    hide Remainder.Follows, Remainder.Text, Tokens, Digits, GoodParams, Extension, IsToken;
    var c, rest := s[0], s[1..];
    if c == '\r' || c == '\n' {
      LineEnd(state, s);
      r := Remainder("", None, []);
      EndFollows(state, s);
    } else {
      GoesOn(state, s);
      var state' := Next(state, c).state;
      var r' := Decompose(state', rest);
      r := Before(state, c, r');
    }
  }

  lemma LineEnd(state: State, s: string)
    requires state != Return && Scan(state, s) == Stops(true, |s|) && 2 <= |s| && s[|s| - 2..] == CRLF
    requires s[0] == '\r' || s[0] == '\n'
    ensures CanEnd(state) && s == CRLF
  {
    Separators();
    if s[0] == '\r' {
      assert s[1..] != "";
      assert Scan(Return, s[1..]).Stops?;
      assert Scan(Return, s[1..]).used == 1;
    }
  }

  lemma EndFollows(state: State, s: string)
    requires CanEnd(state) && s == CRLF
    ensures Remainder("", None, []).Follows(state) && s == Remainder("", None, []).Text()
  {
    assert Extension([]) == "";
    assert "" + "" + "" + CRLF == CRLF;
  }

  lemma GoesOn(state: State, s: string)
    requires state != Return && Scan(state, s) == Stops(true, |s|) && 2 <= |s| && s[|s| - 2..] == CRLF
    requires s[0] != '\r' && s[0] != '\n'
    ensures Next(state, s[0]).To? && Next(state, s[0]).state != Return
    ensures Scan(Next(state, s[0]).state, s[1..]) == Stops(true, |s[1..]|)
    ensures 2 <= |s[1..]| && s[1..][|s[1..]| - 2..] == CRLF
  {
    hide IsToken;
    assert s[|s| - 2] == s[|s| - 2..][0] == '\r';
    assert s[1..][|s[1..]| - 2..] == s[|s| - 2..];
  }

  /** One character more in front. */
  lemma Before(state: State, c: char, r: Remainder) returns (r': Remainder)
    requires state != Return && Next(state, c).To? && Next(state, c).state != Return && r.Follows(Next(state, c).state)
    ensures r'.Follows(state) && r'.Text() == [c] + r.Text()
  {
    hide Remainder.Text, Remainder.Follows;
    if c == ';' {
      r' := BeforeParam(state, r);
    } else if c == '=' {
      r' := BeforeValue(state, r);
    } else {
      r' := BeforeMore(state, c, r);
    }
  }

  lemma BeforeParam(state: State, r: Remainder) returns (r': Remainder)
    requires state != Return && Next(state, ';').To? && Next(state, ';').state != Return && r.Follows(Next(state, ';').state)
    ensures r'.Follows(state) && r'.Text() == ";" + r.Text()
  {
    Separators();
    hide Tokens, IsToken, Digits;
    r' := Remainder("", None, [Param(r.head, r.value)] + r.params);
    assert r'.params[1..] == r.params;
    var more := if r.value.Some? then "=" + r.value.value else "";
    assert Extension(r'.params) == ";" + r.head + more + Extension(r.params);
    hide Extension;
    assert "" + "" + (";" + r.head + more + Extension(r.params)) + CRLF == ";" + (r.head + more + Extension(r.params) + CRLF);
  }

  lemma BeforeValue(state: State, r: Remainder) returns (r': Remainder)
    requires state != Return && Next(state, '=').To? && Next(state, '=').state != Return && r.Follows(Next(state, '=').state)
    ensures r'.Follows(state) && r'.Text() == "=" + r.Text()
  {
    Separators();
    hide Tokens, IsToken, Digits, Extension;
    r' := Remainder("", Some(r.head), r.params);
    assert "" + ("=" + r.head) + Extension(r.params) + CRLF == "=" + (r.head + "" + Extension(r.params) + CRLF);
  }

  lemma BeforeMore(state: State, c: char, r: Remainder) returns (r': Remainder)
    requires state != Return && Next(state, c).To? && Next(state, c).state != Return && r.Follows(Next(state, c).state)
    requires c != ';' && c != '='
    ensures r'.Follows(state) && r'.Text() == [c] + r.Text()
  {
    hide Extension, IsToken;
    r' := r.(head := [c] + r.head);
    var more := if r.value.Some? then "=" + r.value.value else "";
    assert [c] + r.head + more + Extension(r.params) + CRLF == [c] + (r.head + more + Extension(r.params) + CRLF);
  }

  /** The only read end inside a line is `n` characters into it. */
  ghost predicate CutOnlyAt(start: int, n: nat, used: nat, cuts: set<nat>) {
    0 < n < used && start + n in cuts && forall c :: c in cuts && start < c < start + used ==> c == start + n
  }

  /** The text is a line of the grammar that gives the size. */
  ghost predicate IsLineOf(text: string, size: nat) {
    exists digits, params :: Digits(digits) && GoodParams(params) && text == SizeLine(digits, params) && Parse(digits) == size
  }

  /** The parser takes exactly the lines of the grammar, among texts that end in a carriage return and a newline. */
  lemma ParsesLines(text: string, size: nat)
    requires 2 <= |text| && text[|text| - 2..] == CRLF
    ensures ParseLine(text) == Complete(size, |text|) <==> IsLineOf(text, size)
  {
    hide Scan, Parse, Extension, Tokens, GoodParams, Remainder.Text;
    if ParseLine(text) == Complete(size, |text|) {
      var r := Decompose(Begin, text);
      RemainderLine(r);
      assert text + "" == text;
      ParseSizeLine(r.head, r.params, "");
      assert text == SizeLine(r.head, r.params);
    }
    if IsLineOf(text, size) {
      var digits, params :| Digits(digits) && GoodParams(params) && text == SizeLine(digits, params) && Parse(digits) == size;
      assert text + "" == text;
      ParseSizeLine(digits, params, "");
    }
  }

  lemma RemainderLine(r: Remainder)
    requires r.Follows(Begin)
    ensures r.Text() == SizeLine(r.head, r.params) && Digits(r.head) && GoodParams(r.params)
  {
    assert r.head + "" == r.head;
  }

  /**
   * A line with one read end inside it, with or without an extension: cut in its digits, it is read right if and only if
   * only zeros are lost; cut right after them, or within its end, the connection is closed; cut in the extension, it is
   * read right if and only if what follows the cut happens to be a line of the same size.
   */
  lemma OneCutExactly(digits: string, params: seq<Param>, rest: string, start: int, cuts: set<nat>, n: nat)
    requires Digits(digits) && GoodParams(params) && CutOnlyAt(start, n, |SizeLine(digits, params)|, cuts)
    ensures var line := SizeLine(digits, params); var r := LineOutcome(line + rest, start, cuts);
      && (n < |digits| ==> (r == Got(Parse(digits), rest) <==> Parse(digits[..n]) == 0))
      && (n == |digits| || |line| - 2 <= n ==> r == Closed)
      && (|digits| < n < |line| - 2 ==> (r == Got(Parse(digits), rest) <==> IsLineOf(line[n..], Parse(digits))))
  {
    hide ParseLine, Parse, SizeLine, Scan, Extension, IsLineOf;
    var line := SizeLine(digits, params);
    var r := LineOutcome(line + rest, start, cuts);
    FirstCutIs(line, rest, digits, params, start, cuts, n);
    LineIs(digits, params);
    if n < |digits| {
      var a, b := digits[..n], digits[n..];
      assert a + b == digits;
      ParseSplit(a, b);
      LineIs(b, params);
      assert line[n..] == SizeLine(b, params);
      WholeLine(b, params, rest, start + n, cuts);
    } else if n == |digits| {
      AfterDigits(params);
      assert line[n..] == Extension(params) + CRLF;
      BeginRejects(line[n..] + rest);
    } else if n < |line| - 2 {
      LineEnds(line, n);
      Undropped(line[n..], rest, start + n, cuts);
      assert line[n..][|line[n..]| - 2..] == line[|line| - 2..] == CRLF;
      ParsesLines(line[n..], Parse(digits));
      SameRest(line[n..], rest);
    } else {
      assert line[n] == line[|line| - 2..][n - (|line| - 2)];
      BeginRejects(line[n..] + rest);
    }
  }

  lemma FirstCutIs(line: string, rest: string, digits: string, params: seq<Param>, start: int, cuts: set<nat>, n: nat)
    requires Digits(digits) && GoodParams(params) && line == SizeLine(digits, params) && CutOnlyAt(start, n, |line|, cuts)
    ensures LineOutcome(line + rest, start, cuts) == LineOutcome(line[n..] + rest, start + n, cuts)
    ensures Whole(start + n, |line| - n, cuts)
  {
    hide ParseLine, Parse, SizeLine;
    ParseSizeLine(digits, params, rest);
    assert CutFrom(start, 1, |line|, cuts) == n;
    assert (line + rest)[n..] == line[n..] + rest;
  }

  lemma LineIs(digits: string, params: seq<Param>)
    ensures SizeLine(digits, params) == digits + Extension(params) + CRLF
    ensures |SizeLine(digits, params)| == |digits| + |Extension(params)| + 2
  {
  }

  lemma AfterDigits(params: seq<Param>)
    ensures !IsDigit((Extension(params) + CRLF)[0])
  {
  }

  lemma LineEnds(line: string, n: nat)
    requires n < |line| && line[|line| - 1] == '\n'
    ensures ParseLine(line[n..]) != Partial
  {
    hide Scan, DigitsEnd, Parse;
    NewlineStops(Begin, line[n..]);
    assert line[n..][|line| - n - 1] == '\n';
  }

  /** What is left over is nothing exactly when the whole text has been used. */
  lemma SameRest(text: string, rest: string)
    ensures forall n :: 0 <= n <= |text| ==> (text[n..] + rest == rest <==> n == |text|)
  {
    forall n | 0 <= n <= |text|
      ensures text[n..] + rest == rest <==> n == |text|
    {
      assert |text[n..] + rest| == |text| - n + |rest|;
      assert n == |text| ==> text[n..] + rest == rest;
    }
  }

  // ----- any number of read ends

  /** The last read end at most `n` characters on, or 0. */
  ghost function LastCut(start: int, n: nat, cuts: set<nat>): (c: nat)
    ensures c <= n && (0 < c ==> start + c in cuts) && forall e :: e in cuts ==> !(start + c < e <= start + n)
  {
    if n == 0 || start + n in cuts then n else LastCut(start, n - 1, cuts)
  }

  /** The text between `a` and `b` is read in one piece, which begins and ends with read ends. */
  ghost predicate Piece(start: int, a: nat, b: nat, cuts: set<nat>) {
    a < b && (a == 0 || start + a in cuts) && start + b in cuts && Whole(start + a, b - a, cuts)
  }

  /** The pieces before the last read end leave the parser wanting more, and what follows it is a line of the size. */
  ghost predicate RightWhenCut(line: string, start: int, cuts: set<nat>, size: nat)
    requires line != ""
  {
    var last := LastCut(start, |line| - 1, cuts);
    && (forall a: nat, b: nat :: b <= last && Piece(start, a, b, cuts) ==> ParseLine(line[a..b]) == Partial)
    && IsLineOf(line[last..], size)
  }

  /** A carriage return, a newline, and no newline before; or the newline alone. */
  predicate Ends(line: string) {
    && line != "" && line[|line| - 1] == '\n' && (forall i :: 0 <= i < |line| - 1 ==> line[i] != '\n')
    && (2 <= |line| ==> line[|line| - 2] == '\r')
  }

  lemma UncutLine(line: string, rest: string, start: int, cuts: set<nat>, size: nat)
    requires Ends(line) && Whole(start, |line|, cuts)
    ensures LineOutcome(line + rest, start, cuts) == Got(size, rest) <==> IsLineOf(line, size)
  {
    hide ParseLine, LineOutcome, IsLineOf;
    LineEnds(line, 0);
    assert line[0..] == line;
    Undropped(line, rest, start, cuts);
    SameRest(line, rest);
    if 2 <= |line| {
      assert line[|line| - 2..] == CRLF;
      ParsesLines(line, size);
    } else {
      NewlineAlone(line, size);
    }
  }

  lemma NewlineAlone(line: string, size: nat)
    requires line == "\n"
    ensures !IsLineOf(line, size) && ParseLine(line) == Bad(1)
  {
    forall digits, params | Digits(digits) && line == SizeLine(digits, params)
      ensures false
    {
      LineIs(digits, params);
    }
  }

  /** A piece that the parser decides is an error: the newline is not in it. */
  lemma DecidedPiece(line: string, n: nat, rest: string, start: int, cuts: set<nat>)
    requires Ends(line) && 0 < n < |line| && Whole(start, n, cuts) && ParseLine(line[..n]) != Partial
    ensures LineOutcome(line + rest, start, cuts) == Closed
  {
    hide ParseLine, LineOutcome, Scan;
    var piece := line[..n];
    AcceptsNewline(piece);
    assert line + rest == piece + (line[n..] + rest);
    ParseMore(piece, line[n..] + rest);
    OutcomeIs(line + rest, start, cuts);
  }

  lemma AcceptsNewline(data: string)
    ensures ParseLine(data).Complete? ==> data[ParseLine(data).used - 1] == '\n'
  {
    NewlineStops(Begin, data);
  }

  lemma LostPiece(line: string, n: nat, rest: string, start: int, cuts: set<nat>)
    requires Ends(line) && 0 < n < |line| && start + n in cuts && Whole(start, n, cuts) && ParseLine(line[..n]) == Partial
    ensures LineOutcome(line + rest, start, cuts) == LineOutcome(line[n..] + rest, start + n, cuts)
  {
    hide ParseLine, LineOutcome;
    assert line + rest == line[..n] + (line[n..] + rest);
    Dropped(line[..n], line[n..] + rest, start, cuts);
  }

  lemma LastCutShift(start: int, n: nat, m: nat, cuts: set<nat>)
    requires n <= m && start + n in cuts
    ensures LastCut(start, m, cuts) == n + LastCut(start + n, m - n, cuts)
  {
    var a, b := LastCut(start, m, cuts), n + LastCut(start + n, m - n, cuts);
    assert start + b in cuts;
    assert !(start + a < start + b <= start + m);
    assert a != 0 ==> !(start + n + (b - n) < start + a <= start + n + (m - n));
  }

  /** The first piece, and the others from where it ends. */
  lemma RightShift(line: string, n: nat, start: int, cuts: set<nat>, size: nat)
    requires 0 < n < |line| && start + n in cuts && Whole(start, n, cuts)
    ensures RightWhenCut(line, start, cuts, size) <==>
            ParseLine(line[..n]) == Partial && RightWhenCut(line[n..], start + n, cuts, size)
  {
    hide ParseLine, IsLineOf, LastCut;
    LastCutShift(start, n, |line| - 1, cuts);
    var last, rest := LastCut(start, |line| - 1, cuts), line[n..];
    assert rest[last - n..] == line[last..];
    if RightWhenCut(line, start, cuts, size) {
      assert Piece(start, 0, n, cuts);
      assert line[0..n] == line[..n];
      forall a: nat, b: nat | b <= last - n && Piece(start + n, a, b, cuts)
        ensures ParseLine(rest[a..b]) == Partial
      {
        assert Piece(start, n + a, n + b, cuts);
        assert rest[a..b] == line[n + a..n + b];
      }
    }
    if ParseLine(line[..n]) == Partial && RightWhenCut(rest, start + n, cuts, size) {
      forall a: nat, b: nat | b <= last && Piece(start, a, b, cuts)
        ensures ParseLine(line[a..b]) == Partial
      {
        if a < n {
          assert a == 0 && b == n;
          assert line[0..n] == line[..n];
        } else {
          assert Piece(start + n, a - n, b - n, cuts);
          assert rest[a - n..b - n] == line[a..b];
        }
      }
    }
  }

  /** What a text that ends in one end of line is read as, wherever reads end inside it. */
  lemma {:induction false} ReadExactly(line: string, rest: string, start: int, cuts: set<nat>, size: nat)
    requires Ends(line)
    ensures LineOutcome(line + rest, start, cuts) == Got(size, rest) <==> RightWhenCut(line, start, cuts, size)
    decreases |line|
  {
    hide ParseLine, LineOutcome, IsLineOf, Piece;
    var n := CutFrom(start, 1, |line|, cuts);
    if n == |line| {
      UncutLine(line, rest, start, cuts, size);
      NoPieces(line, start, cuts, size);
    } else {
      RightShift(line, n, start, cuts, size);
      if ParseLine(line[..n]) == Partial {
        LostPiece(line, n, rest, start, cuts);
        ReadExactly(line[n..], rest, start + n, cuts, size);
      } else {
        DecidedPiece(line, n, rest, start, cuts);
      }
    }
  }

  lemma NoPieces(line: string, start: int, cuts: set<nat>, size: nat)
    requires line != "" && Whole(start, |line|, cuts)
    ensures RightWhenCut(line, start, cuts, size) <==> IsLineOf(line, size)
  {
    hide IsLineOf, ParseLine;
    assert LastCut(start, |line| - 1, cuts) == 0;
    assert line[0..] == line;
  }

  /**
   * A line with or without an extension, and any number of read ends inside it, is read right if and only if each piece
   * before the last read end leaves the parser wanting more, and what follows the last one happens to be a line of the
   * same size.
   */
  lemma CutsExactly(digits: string, params: seq<Param>, rest: string, start: int, cuts: set<nat>)
    requires Digits(digits) && GoodParams(params)
    ensures var line := SizeLine(digits, params);
      LineOutcome(line + rest, start, cuts) == Got(Parse(digits), rest) <==> RightWhenCut(line, start, cuts, Parse(digits))
  {
    hide LineOutcome, RightWhenCut, Parse;
    LineEndsOnce(digits, params);
    ReadExactly(SizeLine(digits, params), rest, start, cuts, Parse(digits));
  }

  lemma LineEndsOnce(digits: string, params: seq<Param>)
    requires Digits(digits) && GoodParams(params)
    ensures Ends(SizeLine(digits, params))
  {
    hide Extension, Parse;
    NoNewlines(params);
    LineIs(digits, params);
    var line := SizeLine(digits, params);
    forall i | 0 <= i < |line| - 1
      ensures line[i] != '\n'
    {
      assert line[i] == if i < |digits| then digits[i] else if i < |line| - 2 then Extension(params)[i - |digits|] else '\r';
    }
  }

  lemma {:induction false} NoNewlines(params: seq<Param>)
    requires GoodParams(params)
    ensures '\n' !in Extension(params)
    decreases |params|
  {
    if params != [] {
      NoNewlines(params[1..]);
    }
  }

  /** By luck a cut line can be read right: its lost part only repeated the size. */
  lemma CutByLuck(rest: string, cuts: set<nat>)
    requires CutOnlyAt(0, 2, 5, cuts)
    ensures SizeLine("5", [Param("5", None)]) == "5;5\r\n"
    ensures LineOutcome("5;5\r\n" + rest, 0, cuts) == Got(5, rest)
  {
    var params := [Param("5", None)];
    assert Extension([]) == "";
    assert Extension(params) == ";5";
    assert SizeLine("5", params) == "5;5\r\n";
    assert Parse("") == 0 && "5"[..0] == "";
    assert Parse("5") == 5;
    OneCutExactly("5", params, rest, 0, cuts, 2);
    LineIs("5", []);
    assert "5;5\r\n"[2..] == SizeLine("5", []) + "";
    ParseSizeLine("5", [], "");
  }

  /**
   * A body can come out wrong: when a read ends after the first digit of the line "10", which announces 16 bytes, what
   * follows is read as the last chunk, the body is empty, and the payload is left on the connection.
   */
  lemma BodyTruncated(payload: string, rest: string, cuts: set<nat>)
    requires |payload| == 16 && CutOnlyAt(0, 1, 4, cuts)
    ensures var c, last := Chunk("10", [], payload), Chunk("0", [], "");
      && GoodChunks([c], last) && Payloads([c]) == payload
      && Body(EncodeAll([c], last) + rest, 0, cuts) == Some(("", payload[2..] + CRLF + SizeLine("0", []) + CRLF + rest))
  {
    hide *;
    var c, last := Chunk("10", [], payload), Chunk("0", [], "");
    var tail := payload + CRLF + SizeLine("0", []) + CRLF + rest;
    var stream := EncodeAll([c], last) + rest;
    TenGood(payload);
    EncodedIs(c, last, rest);
    TenCut(tail, cuts);
    BodyIs(stream, 0, cuts, "");
    AfterNothing(stream, 0);
    assert tail[2..] == payload[2..] + CRLF + SizeLine("0", []) + CRLF + rest;
  }

  lemma TenGood(payload: string)
    requires |payload| == 16
    ensures GoodChunks([Chunk("10", [], payload)], Chunk("0", [], "")) && Payloads([Chunk("10", [], payload)]) == payload
  {
    hide Parse;
    SmallNumbers();
    assert Payloads([]) == "" && payload + "" == payload;
    assert [Chunk("10", [], payload)][1..] == [];
  }

  lemma SmallNumbers()
    ensures Digits("0") && Digits("10") && Parse("0") == 0 && Parse("10") == 16
  {
    assert Parse("") == 0 && "0"[..0] == "" && "1"[..0] == "" && "10"[..1] == "1";
    assert Parse("1") == 1;
  }

  lemma EncodedIs(c: Chunk, last: Chunk, rest: string)
    ensures EncodeAll([c], last) + rest
         == SizeLine(c.digits, c.params) + (c.payload + CRLF + SizeLine(last.digits, last.params) + CRLF + rest)
  {
    hide SizeLine;
    assert [c][1..] == [];
  }

  lemma TenCut(tail: string, cuts: set<nat>)
    requires CutOnlyAt(0, 1, 4, cuts)
    ensures LineOutcome(SizeLine("10", []) + tail, 0, cuts) == Got(0, tail)
  {
    hide LineOutcome, SizeLine;
    LineFrom("10", tail, 0, cuts);
    assert CutFrom(0, 1, 4, cuts) == 1;
    assert "10"[1..] == "0";
    LineIs("0", []);
    assert Extension([]) == "";
    WholeLine("0", [], tail, 1, cuts);
    assert Parse("") == 0 && "0"[..0] == "";
  }

  /** However later reads end, after that one the line is not read as a positive size. */
  lemma TenLost(tail: string, cuts: set<nat>)
    requires 1 in cuts
    ensures var r := LineOutcome(SizeLine("10", []) + tail, 0, cuts); r.Got? ==> r.size == 0
  {
    hide LineOutcome, SizeLine, Parse;
    SmallNumbers();
    assert CutFrom(0, 1, 4, cuts) == 1;
    LineFrom("10", tail, 0, cuts);
    assert "10"[1..] == "0";
    MisreadLess("0", tail, 1, cuts);
  }

  lemma NotSent(payload: string, tail: string, cuts: set<nat>)
    requires |payload| == 16 && 1 in cuts
    ensures var body := Body(SizeLine("10", []) + tail, 0, cuts); body.Some? ==> body.value.0 != payload
  {
    hide LineOutcome, SizeLine;
    TenLost(tail, cuts);
  }

  /**
   * The loops fail with such a read: the buffer holds the "1" of the line "10" when the chunked branch begins, and
   * whatever the reads to come take, the body received is not the payload sent.
   */
  method ReceiveFails(payload: string, rest: string, buffSize: nat) returns (body: Option<string>)
    requires |payload| == 16 && 2 <= buffSize
    ensures GoodChunks([Chunk("10", [], payload)], Chunk("0", [], "")) && Payloads([Chunk("10", [], payload)]) == payload
    ensures body != Some(payload)
  {
    ghost var c, last := Chunk("10", [], payload), Chunk("0", [], "");
    ghost var tail := payload + CRLF + SizeLine("0", []) + CRLF + rest;
    TenGood(payload);
    EncodedIs(c, last, rest);
    LineIs("10", []);
    var conn := new Connection("0" + Extension([]) + CRLF + (payload + CRLF + SizeLine("0", []) + CRLF + rest), 1);
    assert "1" + conn.wire == SizeLine("10", []) + tail;
    ghost var stream := EncodeAll([c], last) + rest;
    assert "1" + conn.wire == stream;
    hide Body, LineOutcome, EncodeAll, Encode, SizeLine, Payloads, GoodChunks;
    var data';
    body, data' := Receive(conn, "1", buffSize);
    NotSent(payload, tail, conn.cuts);
  }
}
