/** Decoding does not depend on how the bytes arrive. */
module FrameLaws {
  import opened Text
  import opened Frames

  // ---- verdicts are stable ---------------------------------------------------------------------

  lemma {:induction false} ScanStable(s: string, more: string, i: nat)
    requires i <= |s| && !ScanFrom(s, i).Open?
    ensures ScanFrom(s + more, i) == ScanFrom(s, i)
    decreases |s| - i
  {
    var t := s + more;
    assert t[i] == s[i];
    if i >= 3 {
      assert t[i - 3..i + 1] == s[i - 3..i + 1];
    }
    if !BadByte(s[i]) && !Blank4(s, i) {
      ScanStable(s, more, i + 1);
    }
  }

  lemma {:induction false} ScanStuck(s: string, more: string, i: nat)
    requires i <= |s| && ScanFrom(s, i).Open? && |s| >= HEADER_CAP
    ensures ScanFrom(s + more, i).Open?
    decreases |s| - i
  {
    var t := s + more;
    if i < HEADER_CAP {
      assert t[i] == s[i];
      if i >= 3 {
        assert t[i - 3..i + 1] == s[i - 3..i + 1];
      }
      ScanStuck(s, more, i + 1);
    }
  }

  /** Any verdict but "wait" is the same on every extension; a frame keeps its payload
      and passes the extra bytes through. */
  lemma {:induction false} TakeStable(s: string, more: string, cap: nat)
    requires !Take(s, cap).Busy?
    ensures Take(s + more, cap) == match Take(s, cap)
                                   case Frame(text, length, rest) => Frame(text, length, rest + more)
                                   case v => v
  {
    hide ReadLines, Upto;
    if ScanFrom(s, 0).Open? {
      ScanStuck(s, more, 0);
    } else {
      ScanStable(s, more, 0);
      if ScanFrom(s, 0).End? {
        var n := ScanFrom(s, 0).n;
        assert (s + more)[..n] == s[..n];
        match ReadLines(s[..n], 0, cap, Fields(None, false)) {
          case Fine(f) =>
            if f.length.Some? {
              var length := f.length.value;
              assert (s + more)[n..n + length] == s[n..n + length];
              assert (s + more)[n + length..] == s[n + length..] + more;
            }
          case _ =>
        }
      }
    }
  }

  // ---- the length -------------------------------------------------------------------------------

  /** Decimal value of digits read after acc. */
  function Accumulate(acc: nat, s: string): nat
    requires AllDigits(s)
    decreases |s|
  {
    if s == "" then acc else Accumulate(acc * 10 + DigitValue(s[0]), s[1..])
  }

  lemma {:induction false} AccumulateGrows(acc: nat, s: string)
    requires AllDigits(s)
    ensures Accumulate(acc, s) >= acc
    decreases |s|
  {
    if s != "" {
      AccumulateGrows(acc * 10 + DigitValue(s[0]), s[1..]);
    }
  }

  lemma {:induction false} AccumulateValue(a: string, b: string)
    requires AllDigits(a) && AllDigits(b)
    ensures Accumulate(Value(a), b) == Value(a + b)
    decreases |b|
  {
    if b == "" {
      assert a + b == a;
    } else {
      ValueSnoc(a, b[0]);
      AccumulateValue(a + [b[0]], b[1..]);
      assert a + [b[0]] + b[1..] == a + b;
    }
  }

  /** The accumulator is the decimal value exactly as long as that is within the cap. */
  lemma {:induction false} DigitsExactly(s: string, cap: nat, acc: nat)
    requires AllDigits(s) && acc <= cap
    ensures ReadDigits(s, cap, acc) == if Accumulate(acc, s) <= cap then Length(Accumulate(acc, s)) else Exceeds
    decreases |s|
  {
    if s != "" {
      var d := DigitValue(s[0]);
      AccumulateGrows(acc * 10 + d, s[1..]);
      if !(d > cap || acc > (cap - d) / 10) {
        DigitsExactly(s[1..], cap, acc * 10 + d);
      }
    }
  }

  /** A digit string announces its decimal value, or is refused as too long. */
  lemma {:induction false} LengthIsValue(s: string, cap: nat)
    requires AllDigits(s)
    ensures ReadDigits(s, cap, 0) == if Value(s) <= cap then Length(Value(s)) else Exceeds
  {
    DigitsExactly(s, cap, 0);
    AccumulateValue("", s);
    assert "" + s == s;
  }

  lemma {:induction false} ReadDigitsWithin(s: string, cap: nat, acc: nat)
    requires acc <= cap && ReadDigits(s, cap, acc).Length?
    ensures ReadDigits(s, cap, acc).n <= cap
    decreases |s|
  {
    if s != "" {
      ReadDigitsWithin(s[1..], cap, acc * 10 + DigitValue(s[0]));
    }
  }

  lemma {:induction false} LinesWithin(h: string, at: nat, cap: nat, f: Fields)
    requires at <= |h| && (f.length.Some? ==> 0 < f.length.value <= cap) && ReadLines(h, at, cap, f).Fine?
    ensures var g := ReadLines(h, at, cap, f).f; g.length.Some? ==> 0 < g.length.value <= cap
    decreases |h| - at
  {
    hide ReadLine, LineEnd;
    if at + 2 < |h| {
      var end := LineEnd(h, at);
      LineWithin(h[at..end], cap, f);
      if end + 2 <= |h| {
        LinesWithin(h, end + 2, cap, ReadLine(h[at..end], cap, f).f);
      }
    }
  }

  lemma {:induction false} LineWithin(line: string, cap: nat, f: Fields)
    requires (f.length.Some? ==> 0 < f.length.value <= cap) && ReadLine(line, cap, f).Fine?
    ensures var g := ReadLine(line, cap, f).f; g.length.Some? ==> 0 < g.length.value <= cap
  {
    var colon := ColonAt(line);
    var value := TrimRight(TrimLeft(line[colon + 1..]));
    if EqualFold(line[..colon], LENGTH_NAME) {
      ReadDigitsWithin(value, cap, 0);
    }
  }

  /** No frame announces more than the cap, or nothing. */
  lemma {:induction false} FrameWithin(s: string, cap: nat)
    requires Take(s, cap).Frame?
    ensures 0 < Take(s, cap).length <= cap && |Take(s, cap).rest| < |s|
  {
    var n := ScanFrom(s, 0).n;
    LinesWithin(s[..n], 0, cap, Fields(None, false));
  }

  // ---- written frames ------------------------------------------------------------------------------

  const PREFIX := "Content-Length: "
  const CLOSE := "\r\n\r\n"

  /** The header of a written frame. */
  function HeaderOf(n: nat): string { PREFIX + Numeral(n) + CLOSE }

  lemma {:induction false} HeaderBytes(n: nat, i: nat)
    requires i < |HeaderOf(n)|
    ensures !BadByte(HeaderOf(n)[i])
    ensures i < |PREFIX| + |Numeral(n)| ==> HeaderOf(n)[i] != '\r' && HeaderOf(n)[i] != '\n'
  {
  }

  lemma {:induction false} HeaderCloses(n: nat, i: nat)
    requires 3 <= i < |HeaderOf(n)|
    ensures HeaderOf(n)[i - 3..i + 1] == CLOSE <==> i == |HeaderOf(n)| - 1
  {
    var h := HeaderOf(n);
    if i == |h| - 1 {
      assert h[i - 3..i + 1] == CLOSE;
    } else {
      HeaderBytes(n, i - 3);
      assert i - 3 < |PREFIX| + |Numeral(n)|;
      assert h[i - 3..i + 1][0] == h[i - 3];
    }
  }

  predicate ClosesAt(h: string, k: nat)
    requires 3 <= k < |h|
  {
    h[k - 3..k + 1] == CLOSE
  }

  /** The scan of a text that closes only at its end. */
  lemma {:induction false} ScanToClose(h: string, more: string, i: nat)
    requires i < |h| <= HEADER_CAP && |h| >= 4
    requires forall k :: 0 <= k < |h| ==> !BadByte(h[k])
    requires forall k :: 3 <= k < |h| ==> (ClosesAt(h, k) <==> k == |h| - 1)
    ensures ScanFrom(h + more, i) == End(|h|)
    decreases |h| - i
  {
    hide BadByte;
    var t := h + more;
    assert t[i] == h[i];
    if i >= 3 {
      assert t[i - 3..i + 1] == h[i - 3..i + 1];
      assert Blank4(t, i) <==> ClosesAt(h, i);
    }
    if i + 1 < |h| {
      ScanToClose(h, more, i + 1);
    }
  }

  lemma {:induction false} ScanHeader(n: nat, more: string)
    requires |HeaderOf(n)| <= HEADER_CAP
    ensures ScanFrom(HeaderOf(n) + more, 0) == End(|HeaderOf(n)|)
  {
    var h := HeaderOf(n);
    forall k | 0 <= k < |h|
      ensures !BadByte(h[k])
      ensures k >= 3 ==> (ClosesAt(h, k) <==> k == |h| - 1)
    {
      HeaderBytes(n, k);
      if k >= 3 {
        HeaderCloses(n, k);
      }
    }
    ScanToClose(h, more, 0);
  }

  lemma {:induction false} NumeralShort(n: nat, digits: nat)
    requires n < Ten(digits) && digits > 0
    ensures |Numeral(n)| <= digits
  {
    if n >= 10 {
      NumeralShort(n / 10, digits - 1);
    }
  }

  function Ten(n: nat): (p: nat)
    ensures p > 0
  {
    if n == 0 then 1 else 10 * Ten(n - 1)
  }

  lemma {:induction false} TrimDigits(s: string)
    requires AllDigits(s)
    ensures TrimLeft(" " + s) == s && TrimRight(s) == s
  {
  }

  lemma {:induction false} LengthLine(n: nat, cap: nat)
    requires 0 < n <= cap
    ensures ReadLine(PREFIX + Numeral(n), cap, Fields(None, false)) == Fine(Fields(Some(n), false))
  {
    var line := PREFIX + Numeral(n);
    assert PREFIX[14] == ':' && forall i :: 0 <= i < 14 ==> PREFIX[i] != ':';
    assert forall i :: 0 <= i < |PREFIX| ==> line[i] == PREFIX[i];
    assert ColonAt(line) == 14;
    assert line[..14] == "Content-Length" && line[15..] == " " + Numeral(n);
    TrimDigits(Numeral(n));
    LengthIsValue(Numeral(n), cap);
    assert EqualFold("Content-Length", LENGTH_NAME);
  }

  lemma {:induction false} OneLine(n: nat, cap: nat)
    requires 0 < n <= cap
    ensures ReadLines(HeaderOf(n), 0, cap, Fields(None, false)) == Fine(Fields(Some(n), false))
  {
    var h, end := HeaderOf(n), |PREFIX| + |Numeral(n)|;
    forall i | 0 <= i < end
      ensures h[i] != '\r'
    {
      HeaderBytes(n, i);
    }
    assert h[end] == CLOSE[0] && h[end + 1] == CLOSE[1];
    assert LineEnd(h, 0) == end;
    assert h[0..end] == PREFIX + Numeral(n);
    LengthLine(n, cap);
    assert |h| == end + 4;
  }

  /** A payload that the transport can carry. */
  predicate Carried(p: string, cap: nat) { 0 < |p| <= cap && !Contains(p, NUL) }

  /** The header of any 64-bit length is far below the header cap. */
  lemma {:induction false} HeaderShort(n: nat)
    requires n < 0x1_0000_0000_0000_0000
    ensures |HeaderOf(n)| <= HEADER_CAP
  {
    assert Ten(20) == 100_000_000_000_000_000_000 by {
      assert Ten(5) == 100_000;
      assert Ten(10) == 10_000_000_000;
      assert Ten(15) == 1_000_000_000_000_000;
    }
    NumeralShort(n, 20);
  }

  const SIZE_MAX := 0xFFFF_FFFF_FFFF_FFFF

  /** A written frame is taken back whole, and what follows it is left alone. */
  lemma {:induction false} FrameRoundTrip(p: string, cap: nat, more: string)
    requires Carried(p, cap) && cap <= SIZE_MAX
    ensures Take(Encode(p) + more, cap) == Frame(p, |p|, more)
  {
    hide ReadLines;
    var h := HeaderOf(|p|);
    HeaderShort(|p|);
    var s := Encode(p) + more;
    assert s == h + (p + more);
    ScanHeader(|p|, p + more);
    assert s[..|h|] == h;
    OneLine(|p|, cap);
    assert s[|h|..|h| + |p|] == p && s[|h| + |p|..] == more;
  }

  // ---- any chunking --------------------------------------------------------------------------------

  datatype State = Waiting(pending: string) | Failed(why: Verdict)

  /** Frames taken until the buffer holds none. */
  function Drain(s: string, cap: nat): (seq<string>, State)
    decreases |s|
  {
    match Take(s, cap)
    case Busy => ([], Waiting(s))
    case Frame(text, length, rest) =>
      if |rest| >= |s| then ([], Failed(Protocol))
      else var (texts, state) := Drain(rest, cap); ([text] + texts, state)
    case v => ([], Failed(v))
  }

  /** The decoder after each arriving chunk. */
  function Feed(chunks: seq<string>, cap: nat): (seq<string>, State) {
    if chunks == [] then ([], Waiting(""))
    else
      var (texts, state) := Feed(chunks[..|chunks| - 1], cap);
      match state
      case Failed(v) => (texts, state)
      case Waiting(pending) =>
        var (more, after) := Drain(pending + chunks[|chunks| - 1], cap);
        (texts + more, after)
  }

  function Concat(chunks: seq<string>): string {
    if chunks == [] then "" else Concat(chunks[..|chunks| - 1]) + chunks[|chunks| - 1]
  }

  function EncodeAll(payloads: seq<string>): string {
    if payloads == [] then "" else Encode(payloads[0]) + EncodeAll(payloads[1..])
  }

  /** Draining early or late takes the same frames. */
  lemma {:induction false} DrainSplit(s: string, more: string, cap: nat)
    ensures var (texts, state) := Drain(s, cap);
            Drain(s + more, cap) == match state
                                    case Failed(v) => (texts, state)
                                    case Waiting(pending) =>
                                      (texts + Drain(pending + more, cap).0, Drain(pending + more, cap).1)
    decreases |s|
  {
    hide Take;
    match Take(s, cap)
    case Busy => assert [] + Drain(s + more, cap).0 == Drain(s + more, cap).0;
    case Frame(text, length, rest) =>
      TakeStable(s, more, cap);
      FrameWithin(s, cap);
      DrainSplit(rest, more, cap);
      match Drain(rest, cap).1 {
        case Waiting(pending) =>
          assert [text] + (Drain(rest, cap).0 + Drain(pending + more, cap).0)
              == [text] + Drain(rest, cap).0 + Drain(pending + more, cap).0;
        case _ =>
      }
    case _ => TakeStable(s, more, cap);
  }

  /** Feeding chunks is draining their concatenation. */
  lemma {:induction false} FeedIsDrain(chunks: seq<string>, cap: nat)
    ensures Feed(chunks, cap) == Drain(Concat(chunks), cap)
  {
    if chunks == [] {
      assert ScanFrom("", 0) == Open;
    } else {
      FeedIsDrain(chunks[..|chunks| - 1], cap);
      DrainSplit(Concat(chunks[..|chunks| - 1]), chunks[|chunks| - 1], cap);
    }
  }

  lemma {:induction false} LongerThanRest(p: string, more: string)
    ensures |Encode(p) + more| > |more|
  {
  }

  lemma {:induction false} DrainAll(payloads: seq<string>, cap: nat)
    requires cap <= SIZE_MAX && forall i :: 0 <= i < |payloads| ==> Carried(payloads[i], cap)
    ensures Drain(EncodeAll(payloads), cap) == (payloads, Waiting(""))
  {
    hide Carried, Take, Encode, Drain;
    if payloads == [] {
      DrainNothing(cap);
    } else {
      var first, rest := payloads[0], EncodeAll(payloads[1..]);
      FrameRoundTrip(first, cap, rest);
      LongerThanRest(first, rest);
      DrainOne(Encode(first) + rest, cap);
      DrainAll(payloads[1..], cap);
      assert payloads == [first] + payloads[1..];
    }
  }

  lemma {:induction false} DrainNothing(cap: nat)
    ensures Drain("", cap) == ([], Waiting(""))
  {
    assert ScanFrom("", 0) == Open;
  }

  lemma {:induction false} DrainOne(s: string, cap: nat)
    requires Take(s, cap).Frame? && |Take(s, cap).rest| < |s|
    ensures var f := Take(s, cap);
            Drain(s, cap) == ([f.text] + Drain(f.rest, cap).0, Drain(f.rest, cap).1)
  {
    hide Take;
  }

  /** Payloads written as frames and delivered in any chunks come back exactly, in
      order, with nothing left over. */
  lemma {:induction false} ChunkingImmaterial(payloads: seq<string>, chunks: seq<string>, cap: nat)
    requires cap <= SIZE_MAX && forall i :: 0 <= i < |payloads| ==> Carried(payloads[i], cap)
    requires Concat(chunks) == EncodeAll(payloads)
    ensures Feed(chunks, cap) == (payloads, Waiting(""))
  {
    FeedIsDrain(chunks, cap);
    DrainAll(payloads, cap);
  }
}
