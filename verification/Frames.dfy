/** Length-delimited messages (src/process_frame.c, src/process_io.c): the Header Part
    of the Base Protocol in Language Server Protocol 3.17. */
module Frames {
  import opened Text

  const HEADER_CAP := 8192

  const NUL := 0 as char

  datatype Verdict = Busy | Protocol | TooLong | Frame(text: string, length: nat, rest: string)

  // ---- where the header ends ----------------------------------------------------------------

  predicate BadByte(c: char) { c == NUL || c as int > 127 || (c as int < 32 && c != '\r' && c != '\n' && c != '\t') }

  datatype Scan = Bad | Open | End(n: nat)

  predicate Blank4(s: string, i: nat)
    requires i < |s|
  {
    i >= 3 && s[i - 3..i + 1] == "\r\n\r\n"
  }

  /** The header scan from byte i on. */
  function ScanFrom(s: string, i: nat): (r: Scan)
    ensures r.End? ==> 4 <= r.n <= |s| && r.n > i && s[r.n - 4..r.n] == "\r\n\r\n"
    decreases |s| - i
  {
    if i >= |s| || i >= HEADER_CAP then Open
    else if BadByte(s[i]) then Bad
    else if Blank4(s, i) then End(i + 1)
    else ScanFrom(s, i + 1)
  }

  lemma {:induction false} ScanStep(s: string, i: nat)
    requires i <= |s|
    ensures ScanFrom(s, i) == if i >= |s| || i >= HEADER_CAP then Open
                              else if BadByte(s[i]) then Bad
                              else if i >= 3 && s[i - 3] == '\r' && s[i - 2] == '\n' && s[i - 1] == '\r' && s[i] == '\n' then End(i + 1)
                              else ScanFrom(s, i + 1)
  {
    if 3 <= i < |s| {
      assert s[i - 3..i + 1] == [s[i - 3], s[i - 2], s[i - 1], s[i]];
    }
  }

  // ---- what the header says ---------------------------------------------------------------------

  function Lower(c: char): char { if 'A' <= c <= 'Z' then (c as int + 32) as char else c }

  predicate EqualFold(s: string, word: string) {
    |s| == |word| && forall i :: 0 <= i < |s| ==> Lower(s[i]) == word[i]
  }

  /** First place from at on where a CRLF starts, or the last byte. */
  function LineEnd(h: string, at: nat): (r: nat)
    requires at <= |h|
    ensures at <= r <= |h|
    ensures forall i :: at <= i < r ==> !(i + 1 < |h| && h[i] == '\r' && h[i + 1] == '\n')
    ensures r + 1 < |h| ==> h[r] == '\r' && h[r + 1] == '\n'
    decreases |h| - at
  {
    if at + 1 < |h| && !(h[at] == '\r' && h[at + 1] == '\n') then LineEnd(h, at + 1) else at
  }

  function ColonAt(line: string): (r: nat)
    ensures r <= |line| && (r < |line| ==> line[r] == ':') && forall i :: 0 <= i < r ==> line[i] != ':'
  {
    if line == "" || line[0] == ':' then 0 else 1 + ColonAt(line[1..])
  }

  predicate Space(c: char) { c == ' ' || c == '\t' }

  function TrimLeft(s: string): (r: string)
    ensures |r| <= |s|
  {
    if s != "" && Space(s[0]) then TrimLeft(s[1..]) else s
  }

  function TrimRight(s: string): (r: string)
    ensures |r| <= |s|
  {
    if s != "" && Space(s[|s| - 1]) then TrimRight(s[..|s| - 1]) else s
  }

  datatype Number = NotDigits | Exceeds | Length(n: nat)

  /** The accumulation of decimal digits, stopping at the first that would pass the cap. */
  function ReadDigits(s: string, cap: nat, acc: nat): Number
    decreases |s|
  {
    if s == "" then Length(acc)
    else if !IsDigit(s[0]) then NotDigits
    else
      var d := DigitValue(s[0]);
      if d > cap || acc > (cap - d) / 10 then Exceeds else ReadDigits(s[1..], cap, acc * 10 + d)
  }

  const TYPE_NAME := "content-type"
  const LENGTH_NAME := "content-length"
  const TYPE_UTF8 := "application/vscode-jsonrpc; charset=utf-8"
  const TYPE_PLAIN := "application/vscode-jsonrpc"

  datatype Fields = Fields(length: Option<nat>, typed: bool)

  datatype Header = Malformed | Oversized | Fine(f: Fields)

  /** One header line. */
  function ReadLine(line: string, cap: nat, f: Fields): Header {
    var colon := ColonAt(line);
    if colon == 0 || colon == |line| then Malformed
    else
      var name, value := line[..colon], TrimRight(TrimLeft(line[colon + 1..]));
      if EqualFold(name, LENGTH_NAME) then
        if f.length.Some? || value == "" then Malformed
        else match ReadDigits(value, cap, 0)
          case NotDigits => Malformed
          case Exceeds => Oversized
          case Length(n) => if n == 0 then Malformed else Fine(f.(length := Some(n)))
      else if EqualFold(name, TYPE_NAME) then
        if f.typed || !(EqualFold(value, TYPE_UTF8) || EqualFold(value, TYPE_PLAIN)) then Malformed
        else Fine(f.(typed := true))
      else Malformed
  }

  /** The header lines from at on; the last CRLF closes the header. */
  function ReadLines(h: string, at: nat, cap: nat, f: Fields): Header
    requires at <= |h|
    decreases |h| - at
  {
    if at + 2 >= |h| then Fine(f)
    else
      var end := LineEnd(h, at);
      match ReadLine(h[at..end], cap, f)
      case Fine(g) => if end + 2 <= |h| then ReadLines(h, end + 2, cap, g) else Fine(g)
      case other => other
  }

  /** A C string copy stops at a NUL. */
  function Upto(s: string): (r: string)
    ensures |r| <= |s|
    ensures !Contains(s, NUL) ==> r == s
  {
    if s == "" then s
    else if s[0] == NUL then ""
    else
      assert !Contains(s, NUL) ==> !Contains(s[1..], NUL) && s == [s[0]] + s[1..];
      [s[0]] + Upto(s[1..])
  }

  function TakeBody(s: string, n: nat, f: Fields): Verdict
    requires n <= |s|
  {
    if f.length.None? then Protocol
    else
      var length := f.length.value;
      if length > |s| - n then Busy else Frame(Upto(s[n..n + length]), length, s[n + length..])
  }

  /** astools_pp_take_frame */
  function Take(s: string, cap: nat): Verdict {
    match ScanFrom(s, 0)
    case Bad => Protocol
    case Open => if |s| >= HEADER_CAP then Protocol else Busy
    case End(n) =>
      match ReadLines(s[..n], 0, cap, Fields(None, false))
      case Malformed => Protocol
      case Oversized => TooLong
      case Fine(f) => TakeBody(s, n, f)
  }

  /** astools_pp_write_frame */
  function Encode(payload: string): string { "Content-Length: " + Numeral(|payload|) + "\r\n\r\n" + payload }

  // ---- newline-terminated messages --------------------------------------------------------------------

  datatype Taken = NoLine | Line(text: string, length: nat, rest: string)

  function NewlineAt(s: string, from: nat): (r: nat)
    requires from <= |s|
    ensures from <= r <= |s| && (r < |s| ==> s[r] == '\n')
    ensures forall i :: from <= i < r ==> s[i] != '\n'
    decreases |s| - from
  {
    if from == |s| || s[from] == '\n' then from else NewlineAt(s, from + 1)
  }

  /** pp_take_line */
  function TakeLine(s: string): Taken {
    var k := NewlineAt(s, 0);
    if k == |s| then NoLine else Line(Upto(s[..k]), k, s[k + 1..])
  }

  /** astools_pp_write_all: a newline is added when the text does not end with one. */
  function EncodeLine(text: string): string {
    if text != "" && text[|text| - 1] == '\n' then text else text + "\n"
  }

  // ---- the pending buffer ----------------------------------------------------------------------------

  class Pending {
    var data: array<char>
    var len: nat

    ghost predicate Ok() reads this { len <= data.Length }

    ghost function Text(): string
      requires Ok()
      reads this, data
    {
      data[..len]
    }

    constructor ()
      ensures Ok() && Text() == "" && fresh(data)
    {
      data, len := new char[0], 0;
    }

    /** Make room for n more bytes. */
    method Reserve(n: nat)
      requires Ok()
      modifies this`data
      ensures Ok() && Text() == old(Text()) && len + n <= data.Length && (data == old(data) || fresh(data))
    {
      if len + n > data.Length {
        var grown := new char[2 * data.Length + n];
        for i := 0 to len
          modifies grown
          invariant forall k :: 0 <= k < i ==> grown[k] == data[k]
        {
          grown[i] := data[i];
        }
        data := grown;
      }
    }

    method Append(s: string)
      requires Ok()
      modifies this, data
      ensures Ok() && Text() == old(Text()) + s && (data == old(data) || fresh(data))
    {
      Reserve(|s|);
      ghost var before := Text();
      for i := 0 to |s|
        modifies data
        invariant data[..len] == before
        invariant forall k :: 0 <= k < i ==> data[len + k] == s[k]
      {
        data[len + i] := s[i];
      }
      assert data[len..len + |s|] == s;
      len := len + |s|;
      assert data[..len] == before + s;
    }

    /** memmove over the first n bytes. */
    method Shift(n: nat)
      requires Ok() && n <= len
      modifies this`len, data
      ensures Ok() && Text() == old(Text())[n..]
    {
      var keep := len - n;
      ghost var before := Text();
      for i := 0 to keep
        modifies data
        invariant forall k :: 0 <= k < i ==> data[k] == before[n + k]
        invariant forall k :: i <= k < len ==> data[k] == before[k]
      {
        data[i] := data[n + i];
      }
      assert data[..keep] == before[n..];
      len := keep;
    }

    method DetachLine() returns (r: Taken)
      requires Ok()
      modifies this`len, data
      ensures r == TakeLine(old(Text()))
      ensures Ok() && Text() == if r.Line? then r.rest else old(Text())
    {
      var n := 0;
      while n < len && data[n] != '\n'
        invariant 0 <= n <= len && NewlineAt(Text(), 0) == NewlineAt(Text(), n)
      {
        n := n + 1;
      }
      if n == len {
        return NoLine;
      }
      assert data[..n] == Text()[..n];
      var text := Upto(data[..n]);
      Shift(n + 1);
      return Line(text, n, data[..len]);
    }

    method FindHeader() returns (r: Scan)
      requires Ok()
      ensures r == ScanFrom(Text(), 0)
    {
      hide ScanFrom, Blank4, BadByte;
      ghost var s := Text();
      var i := 0;
      while i < len && i < HEADER_CAP
        invariant 0 <= i <= len && ScanFrom(s, 0) == ScanFrom(s, i)
      {
        ScanStep(s, i);
        if BadByte(data[i]) {
          return Bad;
        }
        if i >= 3 && data[i - 3] == '\r' && data[i - 2] == '\n' && data[i - 1] == '\r' && data[i] == '\n' {
          return End(i + 1);
        }
        i := i + 1;
      }
      ScanStep(s, i);
      return Open;
    }

    /** The payload after a header of n bytes. */
    method TakePayload(n: nat, f: Fields) returns (r: Verdict)
      requires Ok() && n <= len
      modifies this`len, data
      ensures r == TakeBody(old(Text()), n, f)
      ensures Ok() && Text() == if r.Frame? then r.rest else old(Text())
    {
      if f.length.None? {
        return Protocol;
      }
      var length := f.length.value;
      if length > len - n {
        return Busy;
      }
      hide Upto;
      assert data[n..n + length] == Text()[n..n + length];
      var text := Upto(data[n..n + length]);
      Shift(n + length);
      return Frame(text, length, data[..len]);
    }

    method TakeFrame(cap: nat) returns (r: Verdict)
      requires Ok()
      modifies this`len, data
      ensures r == Take(old(Text()), cap)
      ensures Ok() && Text() == if r.Frame? then r.rest else old(Text())
    {
      hide ReadLines, TakeBody, Upto;
      var scan := FindHeader();
      if scan.Bad? {
        return Protocol;
      }
      if scan.Open? {
        return if len >= HEADER_CAP then Protocol else Busy;
      }
      assert data[..scan.n] == Text()[..scan.n];
      var header := ScanLines(data[..scan.n], cap);
      if header.Malformed? {
        return Protocol;
      }
      if header.Oversized? {
        return TooLong;
      }
      r := TakePayload(scan.n, header.f);
      assert r.Frame? || Text() == old(Text());
    }
  }

  /** The loop over the header lines. */
  method ScanLines(h: string, cap: nat) returns (r: Header)
    ensures r == ReadLines(h, 0, cap, Fields(None, false))
  {
    var at, f := 0, Fields(None, false);
    while at + 2 < |h|
      invariant at <= |h| && ReadLines(h, 0, cap, Fields(None, false)) == ReadLines(h, at, cap, f)
      decreases |h| - at
    {
      var end := at;
      while end + 1 < |h| && !(h[end] == '\r' && h[end + 1] == '\n')
        invariant at <= end <= |h| && LineEnd(h, at) == LineEnd(h, end)
      {
        end := end + 1;
      }
      var one := ScanLine(h[at..end], cap, f);
      if !one.Fine? || end + 2 > |h| {
        return one;
      }
      at, f := end + 2, one.f;
    }
    return Fine(f);
  }

  method ScanDigits(value: string, cap: nat) returns (r: Number)
    ensures r == ReadDigits(value, cap, 0)
  {
    var length: nat, i := 0, 0;
    while i < |value|
      invariant 0 <= i <= |value| && ReadDigits(value, cap, 0) == ReadDigits(value[i..], cap, length)
    {
      assert value[i..][0] == value[i] && value[i..][1..] == value[i + 1..];
      if !IsDigit(value[i]) {
        return NotDigits;
      }
      var d := DigitValue(value[i]);
      if d > cap || length > (cap - d) / 10 {
        return Exceeds;
      }
      length, i := length * 10 + d, i + 1;
    }
    return Length(length);
  }

  method ScanLine(line: string, cap: nat, f: Fields) returns (r: Header)
    ensures r == ReadLine(line, cap, f)
  {
    var colon := ColonAt(line);
    if colon == 0 || colon == |line| {
      return Malformed;
    }
    var name, value := line[..colon], TrimRight(TrimLeft(line[colon + 1..]));
    if EqualFold(name, LENGTH_NAME) {
      if f.length.Some? || value == "" {
        return Malformed;
      }
      var length := ScanDigits(value, cap);
      if !length.Length? {
        return if length.NotDigits? then Malformed else Oversized;
      }
      return if length.n == 0 then Malformed else Fine(f.(length := Some(length.n)));
    }
    if EqualFold(name, TYPE_NAME) {
      if f.typed || !(EqualFold(value, TYPE_UTF8) || EqualFold(value, TYPE_PLAIN)) {
        return Malformed;
      }
      return Fine(f.(typed := true));
    }
    return Malformed;
  }
}
