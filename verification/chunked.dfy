/** Reassembly of a chunked response body (section 7.1 of RFC 9112), over any segmentation of the stream. */
module ChunkedBodies {
  import opened Hexadecimal
  import opened Wrappers

  // ----- the parser of chunk-size lines

  /** A character of a token: printable, no space, none of the separators. */
  predicate IsToken(c: char) {
    '!' <= c <= '~' && c !in "()<>@,;:\\\"/[]?={}"
  }

  /** The characters of a token, by their ASCII codes. */
  lemma TokenCodes(c: char)
    ensures IsToken(c) <==>
      33 <= c as int <= 126 && c as int !in {34, 40, 41, 44, 47, 58, 59, 60, 61, 62, 63, 64, 91, 92, 93, 123, 125}
  {
  }

  /** The automaton's states: before and in the size, a name, a value; after a carriage return. */
  datatype State = Begin | Size | NameBegin | Name | ValueBegin | Value | Return

  datatype Move = To(state: State) | Accept | Reject

  /** What ends a size, a name or a value. */
  function Ending(c: char): Move {
    if c == ';' then To(NameBegin) else if c == '\r' then To(Return) else if c == '\n' then Accept else Reject
  }

  function Next(state: State, c: char): Move {
    match state
    case Begin => if IsDigit(c) then To(Size) else Reject
    case Size => if IsDigit(c) then To(Size) else Ending(c)
    case NameBegin => if IsToken(c) then To(Name) else Reject
    case Name => if IsToken(c) then To(Name) else if c == '=' then To(ValueBegin) else Ending(c)
    case ValueBegin => if IsToken(c) then To(Value) else Reject
    case Value => if IsToken(c) then To(Value) else Ending(c)
    case Return => if c == '\n' then Accept else Reject
  }

  /** The automaton stops after `used` characters, or wants more of them. */
  datatype Scanned = Stops(accepts: bool, used: nat) | Wants(state: State)

  function Scan(state: State, data: string): (r: Scanned)
    ensures r.Stops? ==> 0 < r.used <= |data|
    decreases |data|
  {
    if data == "" then Wants(state) else
    match Next(state, data[0])
    case Accept => Stops(true, 1)
    case Reject => Stops(false, 1)
    case To(state') => Shift(Scan(state', data[1..]), 1)
  }

  function Shift(r: Scanned, n: nat): Scanned {
    if r.Stops? then Stops(r.accepts, r.used + n) else r
  }

  function DigitsEnd(data: string): (i: nat)
    ensures i <= |data| && (i < |data| ==> !IsDigit(data[i])) && forall j :: 0 <= j < i ==> IsDigit(data[j])
  {
    if data == "" || !IsDigit(data[0]) then 0 else 1 + DigitsEnd(data[1..])
  }

  /** What the parser makes of the data: a whole line, giving the chunk size; an error; or only part of a line. */
  datatype Line = Complete(size: nat, used: nat) | Bad(used: nat) | Partial

  function ParseLine(data: string): (line: Line)
    ensures !line.Partial? ==> 0 < line.used <= |data|
  {
    match Scan(Begin, data)
    case Wants(_) => Partial
    case Stops(true, n) => Complete(Parse(data[..DigitsEnd(data)]), n)
    case Stops(false, n) => Bad(n)
  }

  lemma {:induction false} ScanSplit(state: State, a: string, b: string)
    ensures Scan(state, a + b) == match Scan(state, a)
      case Wants(state') => Shift(Scan(state', b), |a|)
      case Stops(accepts, n) => Stops(accepts, n)
    decreases |a|
  {
    if a == "" {
      assert a + b == b;
    } else {
      assert (a + b)[1..] == a[1..] + b;
      match Next(state, a[0])
      case To(state') => ScanSplit(state', a[1..], b);
      case _ =>
    }
  }

  lemma DigitsEnds(data: string, i: nat)
    requires i <= |data| && (i < |data| ==> !IsDigit(data[i])) && forall j :: 0 <= j < i ==> IsDigit(data[j])
    ensures DigitsEnd(data) == i
  {
  }

  /** An end of line stops the automaton, and nothing else is accepted. */
  lemma {:induction false} NewlineStops(state: State, data: string)
    ensures Scan(state, data).Wants? ==> '\n' !in data
    ensures Scan(state, data).Stops? && Scan(state, data).accepts ==> data[Scan(state, data).used - 1] == '\n'
    decreases |data|
  {
    if data != "" {
      match Next(state, data[0])
      case To(state') => NewlineStops(state', data[1..]);
      case _ =>
    }
  }

  /** What is decided is decided the same whatever follows. */
  lemma ParseMore(data: string, more: string)
    requires ParseLine(data) != Partial
    ensures ParseLine(data + more) == ParseLine(data)
  {
    hide Scan, DigitsEnd, Parse;
    ScanSplit(Begin, data, more);
    var all, d := data + more, DigitsEnd(data);
    if ParseLine(data).Complete? {
      NewlineStops(Begin, data);
      assert !IsDigit('\n');
      assert d < |data|;
      DigitsEnds(all, d);
      assert all[..d] == data[..d];
    }
  }

  // ----- the wire format

  datatype Param = Param(name: string, value: Option<string>)

  /** A chunk: its size as it is written, the extension's parameters, and its payload. */
  datatype Chunk = Chunk(digits: string, params: seq<Param>, payload: string)

  const CRLF := "\r\n"

  predicate Tokens(s: string) {
    s != "" && forall i :: 0 <= i < |s| ==> IsToken(s[i])
  }

  predicate Digits(s: string) {
    s != "" && forall i :: 0 <= i < |s| ==> IsDigit(s[i])
  }

  predicate GoodParams(params: seq<Param>) {
    forall i :: 0 <= i < |params| ==> Tokens(params[i].name) && (params[i].value.Some? ==> Tokens(params[i].value.value))
  }

  function Extension(params: seq<Param>): string {
    if params == [] then "" else
    ";" + params[0].name + (if params[0].value.Some? then "=" + params[0].value.value else "") + Extension(params[1..])
  }

  function SizeLine(digits: string, params: seq<Param>): string {
    digits + Extension(params) + CRLF
  }

  /** A chunk other than the last: its line, its payload, the end of line after it. */
  function Encode(c: Chunk): string {
    SizeLine(c.digits, c.params) + c.payload + CRLF
  }

  /** The chunks, then the last one, of size zero, and the end of line after it. */
  function EncodeAll(chunks: seq<Chunk>, last: Chunk): string {
    if chunks == [] then SizeLine(last.digits, last.params) + CRLF else Encode(chunks[0]) + EncodeAll(chunks[1..], last)
  }

  /** The digits, with leading zeros or not, give the payload's length. */
  predicate GoodChunk(c: Chunk) {
    Digits(c.digits) && GoodParams(c.params) && Parse(c.digits) == |c.payload|
  }

  predicate GoodChunks(chunks: seq<Chunk>, last: Chunk) {
    && GoodChunk(last) && last.payload == ""
    && forall i :: 0 <= i < |chunks| ==> GoodChunk(chunks[i]) && chunks[i].payload != ""
  }

  function Payloads(chunks: seq<Chunk>): string {
    if chunks == [] then "" else chunks[0].payload + Payloads(chunks[1..])
  }

  /** The text of a chunk with an extension, and of the last one. */
  lemma WireFormat()
    ensures EncodeAll([Chunk("04", [Param("k", Some("v")), Param("n", None)], "data")], Chunk("0", [], ""))
      == "04;k=v;n\r\ndata\r\n0\r\n\r\n"
  {
    var k, n := Param("k", Some("v")), Param("n", None);
    assert [k, n][1..] == [n] && [n][1..] == [];
    assert Extension([n]) == ";n" && Extension([k, n]) == ";k=v;n";
    var c, last := Chunk("04", [k, n], "data"), Chunk("0", [], "");
    assert [c][1..] == [] && EncodeAll([], last) == "0\r\n\r\n";
  }

  /** The states in which a line can end. */
  predicate CanEnd(state: State) {
    state == Size || state == Name || state == Value
  }

  lemma {:induction false} DigitsScan(s: string)
    requires forall i :: 0 <= i < |s| ==> IsDigit(s[i])
    ensures Scan(Size, s) == Wants(Size)
    decreases |s|
  {
    if s != "" {
      DigitsScan(s[1..]);
    }
  }

  lemma {:induction false} TokensScan(state: State, s: string)
    requires (state == Name || state == Value) && forall i :: 0 <= i < |s| ==> IsToken(s[i])
    ensures Scan(state, s) == Wants(state)
    decreases |s|
  {
    if s != "" {
      TokensScan(state, s[1..]);
    }
  }

  lemma ParamScan(state: State, name: string, value: Option<string>)
    requires CanEnd(state) && Tokens(name) && (value.Some? ==> Tokens(value.value))
    ensures Scan(state, ";" + name + (if value.Some? then "=" + value.value else ""))
         == Wants(if value.Some? then Value else Name)
  {
    hide IsToken;
    TokenStarts(NameBegin, name);
    var s := ";" + name;
    assert s[1..] == name;
    Separators();
    if value.Some? {
      TokenStarts(ValueBegin, value.value);
      var t := "=" + value.value;
      assert t[1..] == value.value;
      ScanSplit(state, s, t);
    } else {
      assert s + "" == s;
    }
  }

  lemma Separators()
    ensures !IsToken(';') && !IsToken('=') && !IsToken('\r') && !IsToken('\n') && !IsDigit(';') && !IsDigit('\r') && !IsDigit('\n')
  {
  }

  lemma TokenStarts(state: State, s: string)
    requires (state == NameBegin || state == ValueBegin) && Tokens(s)
    ensures Scan(state, s) == Wants(if state == NameBegin then Name else Value)
  {
    TokensScan(if state == NameBegin then Name else Value, s[1..]);
  }

  lemma {:induction false} ExtensionScan(state: State, params: seq<Param>)
    requires CanEnd(state) && GoodParams(params)
    ensures Scan(state, Extension(params)).Wants? && CanEnd(Scan(state, Extension(params)).state)
    decreases |params|
  {
    hide Scan, Tokens;
    if params == [] {
      ScanNothing(state);
    } else {
      var p := params[0];
      var first := ";" + p.name + (if p.value.Some? then "=" + p.value.value else "");
      ParamScan(state, p.name, p.value);
      ExtensionScan(if p.value.Some? then Value else Name, params[1..]);
      ScanSplit(state, first, Extension(params[1..]));
    }
  }

  lemma ScanNothing(state: State)
    ensures Scan(state, "") == Wants(state)
  {
  }

  lemma EndScan(state: State, rest: string)
    requires CanEnd(state)
    ensures Scan(state, CRLF + rest) == Stops(true, 2)
  {
    Separators();
    var s := CRLF + rest;
    assert s[1..] == "\n" + rest;
  }

  /** A line is parsed as its size, whatever follows. */
  lemma ParseSizeLine(digits: string, params: seq<Param>, rest: string)
    requires Digits(digits) && GoodParams(params)
    ensures ParseLine(SizeLine(digits, params) + rest) == Complete(Parse(digits), |SizeLine(digits, params)|)
  {
    hide Scan, Parse, Extension, GoodParams;
    var e := Extension(params);
    BeginScan(digits);
    ExtensionScan(Size, params);
    ScanSplit(Begin, digits, e);
    var state := Scan(Begin, digits + e).state;
    EndScan(state, rest);
    ScanSplit(Begin, digits + e, CRLF + rest);
    assert SizeLine(digits, params) + rest == digits + e + (CRLF + rest);
    DigitsThen(digits, params, rest);
  }

  lemma BeginScan(digits: string)
    requires Digits(digits)
    ensures Scan(Begin, digits) == Wants(Size)
  {
    DigitsScan(digits[1..]);
  }

  lemma DigitsThen(digits: string, params: seq<Param>, rest: string)
    requires Digits(digits)
    ensures var data := SizeLine(digits, params) + rest; DigitsEnd(data) == |digits| && data[..|digits|] == digits
  {
    hide DigitsEnd;
    var after := Extension(params) + CRLF + rest;
    var data := SizeLine(digits, params) + rest;
    assert data == digits + after;
    assert !IsDigit(after[0]);
    assert forall j :: 0 <= j < |digits| ==> data[j] == digits[j];
    DigitsEnds(data, |digits|);
  }

  // ----- what reading makes of a stream, given where reads end

  /** No read ends strictly inside the `n` characters that start at `start`. */
  ghost predicate Whole(start: int, n: nat, cuts: set<nat>) {
    forall c :: c in cuts ==> !(start < c < start + n)
  }

  /** The first read end strictly inside the `used` characters that start at `start`, or `used` if there is none. */
  ghost function CutFrom(start: int, n: nat, used: nat, cuts: set<nat>): (c: nat)
    requires n <= used
    ensures n <= c <= used && (c < used ==> start + c in cuts)
    ensures forall e :: e in cuts ==> !(start + n <= e < start + c)
    decreases used - n
  {
    if n == used || start + n in cuts then n else CutFrom(start, n + 1, used, cuts)
  }

  datatype Got = Got(size: nat, rest: string) | Closed

  /**
   * What comes of reading a line from `stream`, which starts at `start`: what the parser has been given of a line when
   * a read ends inside it is lost, and the line is read from there.
   */
  ghost function LineOutcome(stream: string, start: int, cuts: set<nat>): (r: Got)
    ensures r.Got? ==> |r.rest| < |stream|
    decreases |stream|
  {
    var line := ParseLine(stream);
    if line.Partial? then Closed else
    var n := CutFrom(start, 1, line.used, cuts);
    if n < line.used then LineOutcome(stream[n..], start + n, cuts)
    else if line.Complete? then Got(line.size, stream[n..])
    else Closed
  }

  /** The body a stream comes to, and what is left of the stream; `None` closes the connection. */
  ghost function Body(stream: string, start: int, cuts: set<nat>): Option<(string, string)>
    decreases |stream|
  {
    match LineOutcome(stream, start, cuts)
    case Closed => None
    case Got(size, rest) =>
      if |rest| < size + 2 then None
      else if size == 0 then Some(("", rest[2..]))
      else
        match Body(rest[size + 2..], start + |stream| - |rest| + size + 2, cuts)
        case None => None
        case Some(more) => Some((rest[..size] + more.0, more.1))
  }

  /** Without an end of line there is no line, wherever reads end. */
  lemma {:induction false} NoNewline(stream: string, start: int, cuts: set<nat>)
    requires '\n' !in stream
    ensures LineOutcome(stream, start, cuts) == Closed
    decreases |stream|
  {
    NewlineStops(Begin, stream);
    var line := ParseLine(stream);
    if !line.Partial? {
      var n := CutFrom(start, 1, line.used, cuts);
      if n < line.used {
        NoNewline(stream[n..], start + n, cuts);
      }
    }
  }

  lemma OutcomeIs(stream: string, start: int, cuts: set<nat>)
    requires ParseLine(stream) != Partial
    ensures var line := ParseLine(stream); var n := CutFrom(start, 1, line.used, cuts);
      LineOutcome(stream, start, cuts)
        == if n < line.used then LineOutcome(stream[n..], start + n, cuts)
           else if line.Complete? then Got(line.size, stream[n..])
           else Closed
  {
    hide ParseLine;
  }

  lemma PartialOutcome(stream: string, start: int, cuts: set<nat>)
    requires ParseLine(stream) == Partial
    ensures LineOutcome(stream, start, cuts) == Closed && '\n' !in stream
  {
    hide Scan;
    NewlineStops(Begin, stream);
  }

  /** When the first read end comes before the line is decided, the line is read from there. */
  lemma Dropped(data: string, wire: string, start: int, cuts: set<nat>)
    requires ParseLine(data) == Partial && data != "" && start + |data| in cuts
    requires Whole(start, |data|, cuts)
    ensures LineOutcome(data + wire, start, cuts) == LineOutcome(wire, start + |data|, cuts)
  {
    hide ParseLine, LineOutcome;
    var all := data + wire;
    assert all[|data|..] == wire;
    if ParseLine(all).Partial? {
      PartialOutcome(all, start, cuts);
      NoNewline(wire, start + |data|, cuts);
    } else {
      StopsWithin(data, wire);
      assert CutFrom(start, 1, ParseLine(all).used, cuts) == |data|;
      OutcomeIs(all, start, cuts);
    }
  }

  /** An undecided part is shorter than what decides the line. */
  lemma StopsWithin(data: string, wire: string)
    requires ParseLine(data) == Partial && !ParseLine(data + wire).Partial?
    ensures |data| < ParseLine(data + wire).used
  {
    hide DigitsEnd, Parse;
    ScanSplit(Begin, data, wire);
  }

  /** When no read ends inside it, a line is read as it is. */
  lemma Undropped(data: string, wire: string, start: int, cuts: set<nat>)
    requires ParseLine(data) != Partial
    requires Whole(start, |data|, cuts)
    ensures LineOutcome(data + wire, start, cuts) == match ParseLine(data)
      case Complete(size, used) => Got(size, data[used..] + wire)
      case _ => Closed
  {
    hide ParseLine;
    ParseMore(data, wire);
    var used := ParseLine(data).used;
    var n := CutFrom(start, 1, used, cuts);
    assert n == used;
    assert (data + wire)[used..] == data[used..] + wire;
  }

  // ----- the connection

  class Connection {
    var wire: string  // what the peer has sent and has not been read
    ghost var pos: nat  // how much has been read
    ghost var cuts: set<nat>  // where reads have ended

    /** One read has already taken `taken` bytes. */
    constructor (wire: string, taken: nat)
      ensures this.wire == wire && pos == taken && cuts == {taken}
    {
      this.wire, pos, cuts := wire, taken, {taken};
    }

    ghost predicate Valid()
      reads this
    {
      pos in cuts && forall c :: c in cuts ==> c <= pos
    }

    /** Reads to come may end further on. */
    ghost predicate Later(cuts': set<nat>)
      reads this
    {
      cuts <= cuts' && forall c :: c in cuts' && c <= pos ==> c in cuts
    }

    /** The data is what is left of one read: no read has ended inside it. */
    ghost predicate OneRead(data: string)
      reads this
    {
      |data| <= pos && Whole(pos - |data|, |data|, cuts)
    }

    /** Takes any number of the waiting bytes up to `max`; nothing is left to take, or asked for, when it takes none. */
    method Read(max: nat) returns (s: string)
      requires Valid()
      modifies this
      ensures Valid() && |s| <= max && old(wire) == s + wire
      ensures s == "" <==> max == 0 || old(wire) == ""
      ensures pos == old(pos) + |s| && cuts == old(cuts) + {pos}
    {
      if max == 0 || wire == "" {
        return "";
      }
      var n :| 1 <= n <= max && n <= |wire|;
      s, wire := wire[..n], wire[n..];
      pos := pos + n;
      cuts := cuts + {pos};
    }

    /** A read from an empty buffer: the new data is one read, and what was later still is. */
    method Fill(max: nat) returns (s: string)
      requires Valid() && 0 < max
      modifies this
      ensures Valid() && OneRead(s) && |s| <= max && old(wire) == s + wire && pos == old(pos) + |s|
      ensures s == "" <==> old(wire) == ""
      ensures forall cuts' :: Later(cuts') ==> old(Later(cuts'))
    {
      s := Read(max);
    }
  }

  /** The line read, or the close, is what comes of the stream. */
  predicate Reads(line: Option<nat>, rest: string, outcome: Got) {
    match outcome
    case Got(size, after) => line == Some(size) && rest == after
    case Closed => line == None
  }

  /**
   * The inner loop: reads until a chunk-size line is complete; `None` closes the connection. What it comes to is
   * determined by where its reads end, and not by any later ones.
   */
  method ReadLine(conn: Connection, data: string, buffSize: nat) returns (line: Option<nat>, data': string)
    requires |data| < buffSize && conn.Valid() && conn.OneRead(data)
    modifies conn
    ensures conn.Valid() && conn.OneRead(data')
    ensures line.Some? ==> |data'| < buffSize && |data'| + |conn.wire| < |data| + |old(conn.wire)|
    ensures conn.pos + |conn.wire| == old(conn.pos) + |old(conn.wire)|
    ensures forall cuts :: conn.Later(cuts) ==>
      old(conn.Later(cuts))
      && Reads(line, data' + conn.wire, LineOutcome(data + old(conn.wire), old(conn.pos) - |data|, cuts))
  {
    hide ParseLine, LineOutcome;
    data' := data;
    var begin := true;
    ghost var all, start := data + conn.wire, conn.pos - |data|;
    while true
      invariant |data'| < buffSize && |data'| + |conn.wire| <= |all| && conn.Valid() && conn.OneRead(data')
      invariant conn.pos + |conn.wire| == start + |all|
      invariant forall cuts :: conn.Later(cuts) ==> old(conn.Later(cuts))
      invariant forall cuts :: conn.Later(cuts) ==>
        LineOutcome(all, start, cuts) == LineOutcome(data' + conn.wire, conn.pos - |data'|, cuts)
      invariant !begin ==> data' == ""
      decreases |conn.wire|, begin
    {
      ghost var stream, at := data' + conn.wire, conn.pos - |data'|;
      if !begin || data' == "" {
        var s := conn.Fill(buffSize - |data'|);
        data' := data' + s;
        assert data' == s;
        if s == "" {
          NoStream(at);
          return None, "";
        }
      }
      assert data' + conn.wire == stream && conn.pos - |data'| == at;
      match ParseLine(data')
      case Bad(_) =>
        Decided(conn, data');
        return None, "";
      case Complete(size, used) =>
        Decided(conn, data');
        LeftOver(conn, data', used);
        return Some(size), data'[used..];
      case Partial =>
        Lost(conn, data');
        data' := "";
        begin := false;
    }
  }

  lemma NoStream(start: int)
    ensures forall cuts :: LineOutcome("", start, cuts) == Closed
  {
  }

  /** A decided line in the buffer is what comes of the stream, wherever later reads end. */
  lemma Decided(conn: Connection, data: string)
    requires conn.Valid() && conn.OneRead(data) && ParseLine(data) != Partial
    ensures forall cuts :: conn.Later(cuts) ==>
      LineOutcome(data + conn.wire, conn.pos - |data|, cuts)
        == if ParseLine(data).Complete? then Got(ParseLine(data).size, data[ParseLine(data).used..] + conn.wire) else Closed
  {
    hide ParseLine, LineOutcome;
    forall cuts | conn.Later(cuts)
      ensures LineOutcome(data + conn.wire, conn.pos - |data|, cuts)
        == if ParseLine(data).Complete? then Got(ParseLine(data).size, data[ParseLine(data).used..] + conn.wire) else Closed
    {
      Undropped(data, conn.wire, conn.pos - |data|, cuts);
    }
  }

  /** Part of a line in the buffer is lost, wherever later reads end. */
  lemma Lost(conn: Connection, data: string)
    requires conn.Valid() && conn.OneRead(data) && ParseLine(data) == Partial
    ensures forall cuts :: conn.Later(cuts) ==>
      LineOutcome(data + conn.wire, conn.pos - |data|, cuts) == LineOutcome("" + conn.wire, conn.pos, cuts)
  {
    hide ParseLine, LineOutcome;
    assert "" + conn.wire == conn.wire;
    if data == "" {
      assert data + conn.wire == conn.wire;
    } else {
      forall cuts | conn.Later(cuts)
        ensures LineOutcome(data + conn.wire, conn.pos - |data|, cuts) == LineOutcome(conn.wire, conn.pos, cuts)
      {
        Dropped(data, conn.wire, conn.pos - |data|, cuts);
      }
    }
  }

  lemma LeftOver(conn: Connection, data: string, n: nat)
    requires conn.OneRead(data) && n <= |data|
    ensures conn.OneRead(data[n..])
  {
  }

  /** The payload, when it and the end of line after it are in the buffer, or else the rest of them read from the wire. */
  method ReadPayload(conn: Connection, data: string, buffSize: nat, contentLen: nat, body: string)
    returns (ok: bool, data': string, body': string)
    requires |data| < buffSize && conn.Valid() && conn.OneRead(data)
    modifies conn
    ensures conn.Valid() && conn.OneRead(data') && (ok ==> |data'| < buffSize)
    ensures conn.pos + |conn.wire| == old(conn.pos) + |old(conn.wire)|
    ensures forall cuts :: conn.Later(cuts) ==> old(conn.Later(cuts))
    ensures var stream := data + old(conn.wire);
      && (ok <==> contentLen + 2 <= |stream|)
      && (ok ==> body' == body + stream[..contentLen] && data' + conn.wire == stream[contentLen + 2..])
  {
    ghost var stream := data + conn.wire;
    if contentLen + 2 <= |data| {
      body' := body + data[..contentLen];
      data' := data[contentLen + 2..];
      assert stream[..contentLen] == data[..contentLen];
      assert data' + conn.wire == stream[contentLen + 2..];
      return true, data', body';
    }
    body' := body + data;
    var left := contentLen - |data| + 2;
    while left > 0
      invariant 0 <= left <= contentLen + 2
      invariant contentLen + 2 - left <= |stream| && conn.wire == stream[contentLen + 2 - left..]
      invariant body' == body + stream[..contentLen + 2 - left]
      invariant conn.Valid() && conn.pos + |conn.wire| == old(conn.pos) + |old(conn.wire)|
      invariant forall cuts :: conn.Later(cuts) ==> old(conn.Later(cuts))
    {
      var s := conn.Fill(if left > buffSize then buffSize else left);
      if s == "" {
        return false, "", body';
      }
      assert stream[..contentLen + 2 - left + |s|] == stream[..contentLen + 2 - left] + s;
      body' := body' + s;
      left := left - |s|;
    }
    assert body'[..|body'| - 2] == body + stream[..contentLen];
    body' := body'[..|body'| - 2];
    data' := "";
    ok := true;
  }

  /** What a stream comes to after `text`. */
  function After(text: string, body: Option<(string, string)>): Option<(string, string)> {
    if body.None? then None else Some((text + body.value.0, body.value.1))
  }

  /** One turn of the outer loop: a chunk, or the last one. */
  method ReceiveChunk(conn: Connection, data: string, buffSize: nat, text: string)
    returns (ok: bool, data': string, text': string, chunksDone: bool)
    requires |data| < buffSize && conn.Valid() && conn.OneRead(data)
    modifies conn
    ensures conn.Valid() && conn.OneRead(data')
    ensures ok ==> |data'| < buffSize && |data'| + |conn.wire| < |data| + |old(conn.wire)|
    ensures forall cuts :: conn.Later(cuts) ==>
      && old(conn.Later(cuts))
      && After(text, Body(data + old(conn.wire), old(conn.pos) - |data|, cuts))
           == if !ok then None
              else if chunksDone then Some((text', data' + conn.wire))
              else After(text', Body(data' + conn.wire, conn.pos - |data'|, cuts))
  {
    hide LineOutcome, Body;
    ghost var stream, start := data + conn.wire, conn.pos - |data|;
    var line;
    line, data' := ReadLine(conn, data, buffSize);
    if line.None? {
      NoBody(conn, stream, start);
      return false, "", text, false;
    }
    ghost var rest := data' + conn.wire;
    ghost var cuts0 := conn.cuts;
    label L:
    ok, data', text' := ReadPayload(conn, data', buffSize, line.value, text);
    chunksDone := line.value == 0;
    forall cuts | conn.Later(cuts)
      ensures After(text, Body(stream, start, cuts))
           == if !ok then None
              else if chunksDone then Some((text', data' + conn.wire))
              else After(text', Body(data' + conn.wire, conn.pos - |data'|, cuts))
    {
      assert old@L(conn.Later(cuts));
      BodyIs(stream, start, cuts, text);
    }
  }

  lemma NoBody(conn: Connection, stream: string, start: int)
    requires forall cuts :: conn.Later(cuts) ==> LineOutcome(stream, start, cuts) == Closed
    ensures forall cuts :: conn.Later(cuts) ==> Body(stream, start, cuts) == None
  {
    hide LineOutcome;
  }

  lemma BodyIs(stream: string, start: int, cuts: set<nat>, text: string)
    requires LineOutcome(stream, start, cuts).Got?
    ensures var r := LineOutcome(stream, start, cuts);
      After(text, Body(stream, start, cuts))
        == if |r.rest| < r.size + 2 then None
           else if r.size == 0 then Some((text, r.rest[2..]))
           else After(text + r.rest[..r.size], Body(r.rest[r.size + 2..], start + |stream| - |r.rest| + r.size + 2, cuts))
  {
    hide LineOutcome;
    var r := LineOutcome(stream, start, cuts);
    assert text + "" == text;
    if r.size != 0 && r.size + 2 <= |r.rest| {
      var b := Body(r.rest[r.size + 2..], start + |stream| - |r.rest| + r.size + 2, cuts);
      if b.Some? {
        assert text + (r.rest[..r.size] + b.value.0) == text + r.rest[..r.size] + b.value.0;
      }
    }
  }

  /**
   * The chunked branch of `recvResponse`, from the bytes left in the buffer after the head: the body and what is left
   * are what the stream comes to, given where the reads end.
   */
  method Receive(conn: Connection, data: string, buffSize: nat) returns (body: Option<string>, data': string)
    requires |data| < buffSize && conn.Valid() && conn.OneRead(data)
    modifies conn
    ensures old(conn.cuts) <= conn.cuts && forall c :: c in conn.cuts && c <= old(conn.pos) ==> c in old(conn.cuts)
    ensures match Body(data + old(conn.wire), old(conn.pos) - |data|, conn.cuts)
      case None => body == None
      case Some(r) => body == Some(r.0) && data' + conn.wire == r.1
  {
    hide Body;
    data' := data;
    var text := "";
    ghost var stream, start := data + conn.wire, conn.pos - |data|;
    var chunksDone := false;
    AfterNothing(stream, start);
    while !chunksDone
      invariant conn.Valid() && conn.OneRead(data') && |data'| < buffSize
      invariant forall cuts :: conn.Later(cuts) ==> old(conn.Later(cuts))
      invariant forall cuts :: conn.Later(cuts) ==>
        Body(stream, start, cuts)
          == if chunksDone then Some((text, data' + conn.wire)) else After(text, Body(data' + conn.wire, conn.pos - |data'|, cuts))
      decreases !chunksDone, |data'| + |conn.wire|
    {
      var ok;
      ok, data', text, chunksDone := ReceiveChunk(conn, data', buffSize, text);
      if !ok {
        assert conn.Later(conn.cuts);
        return None, data';
      }
    }
    assert conn.Later(conn.cuts);
    body := Some(text);
  }

  lemma AfterNothing(stream: string, start: int)
    ensures forall cuts :: After("", Body(stream, start, cuts)) == Body(stream, start, cuts)
  {
    hide Body;
    forall cuts
      ensures After("", Body(stream, start, cuts)) == Body(stream, start, cuts)
    {
      var b := Body(stream, start, cuts);
      if b.Some? {
        assert "" + b.value.0 == b.value.0;
      }
    }
  }
}
