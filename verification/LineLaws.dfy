/** Newline-terminated messages over any chunking (src/process_io.c). */
module LineLaws {
  import opened Text
  import opened Frames
  import FrameLaws

  /** Everything that can be taken from s, and what stays pending. */
  function Lines(s: string): (seq<string>, string)
    decreases |s|
  {
    match TakeLine(s)
    case NoLine => ([], s)
    case Line(text, _, rest) => var (more, left) := Lines(rest); ([text] + more, left)
  }

  /** Bytes arrive chunk by chunk and every complete line is taken at once. */
  function FeedLines(chunks: seq<string>): (seq<string>, string) {
    if chunks == [] then ([], "")
    else
      var (texts, pending) := FeedLines(chunks[..|chunks| - 1]);
      var (more, left) := Lines(pending + chunks[|chunks| - 1]);
      (texts + more, left)
  }

  function EncodeLines(texts: seq<string>): string {
    if texts == [] then "" else EncodeLine(texts[0]) + EncodeLines(texts[1..])
  }

  lemma {:induction false} NewlineKept(s: string, more: string, from: nat)
    requires from <= |s| && NewlineAt(s, from) < |s|
    ensures NewlineAt(s + more, from) == NewlineAt(s, from)
    decreases |s| - from
  {
    assert (s + more)[from] == s[from];
    if s[from] != '\n' {
      NewlineKept(s, more, from + 1);
    }
  }

  /** A line that has been read stays the same however much follows. */
  lemma {:induction false} LineStable(s: string, more: string)
    requires TakeLine(s).Line?
    ensures TakeLine(s + more) == TakeLine(s).(rest := TakeLine(s).rest + more)
  {
    NewlineKept(s, more, 0);
    var k := NewlineAt(s, 0);
    assert (s + more)[..k] == s[..k] && (s + more)[k + 1..] == s[k + 1..] + more;
  }

  lemma {:induction false} LinesSplit(s: string, more: string)
    ensures var (texts, left) := Lines(s);
            Lines(s + more) == (texts + Lines(left + more).0, Lines(left + more).1)
    decreases |s|
  {
    hide TakeLine;
    if TakeLine(s).Line? {
      var t := TakeLine(s);
      LineStable(s, more);
      Shorter(s);
      LinesSplit(t.rest, more);
      var (texts, left) := Lines(t.rest);
      assert [t.text] + (texts + Lines(left + more).0) == [t.text] + texts + Lines(left + more).0;
    } else {
      assert [] + Lines(s + more).0 == Lines(s + more).0;
    }
  }

  lemma {:induction false} Shorter(s: string)
    ensures TakeLine(s).Line? ==> |TakeLine(s).rest| < |s|
  {
  }

  /** How the bytes are cut does not matter. */
  lemma {:induction false} FeedIsLines(chunks: seq<string>)
    ensures FeedLines(chunks) == Lines(FrameLaws.Concat(chunks))
  {
    if chunks != [] {
      var n := |chunks| - 1;
      FeedIsLines(chunks[..n]);
      LinesSplit(FrameLaws.Concat(chunks[..n]), chunks[n]);
    }
  }

  /** What one line can carry: no NUL, and a newline only as its last character. */
  predicate OneLine(text: string) {
    !Contains(text, NUL) && forall i :: 0 <= i < |text| - 1 ==> text[i] != '\n'
  }

  function Body(text: string): string { if text != "" && text[|text| - 1] == '\n' then text[..|text| - 1] else text }

  lemma {:induction false} NewlineFound(s: string, from: nat, k: nat)
    requires from <= k < |s| && s[k] == '\n' && forall i :: from <= i < k ==> s[i] != '\n'
    ensures NewlineAt(s, from) == k
    decreases k - from
  {
  }

  /** A written line is read back without its newline, and what follows is left alone. */
  lemma {:induction false} LineRoundTrip(text: string, more: string)
    requires OneLine(text)
    ensures TakeLine(EncodeLine(text) + more) == Line(Body(text), |Body(text)|, more)
  {
    var b := Body(text);
    assert EncodeLine(text) == b + "\n";
    var s := b + "\n" + more;
    NewlineFound(s, 0, |b|);
    assert s[..|b|] == b && s[|b| + 1..] == more;
    assert !Contains(b, NUL) by {
      assert forall i :: 0 <= i < |b| ==> b[i] == text[i];
    }
  }

  lemma {:induction false} NothingPending()
    ensures TakeLine("").NoLine?
  {
  }

  function Bodies(texts: seq<string>): seq<string> {
    if texts == [] then [] else [Body(texts[0])] + Bodies(texts[1..])
  }

  lemma {:induction false} LinesAll(texts: seq<string>)
    requires forall i :: 0 <= i < |texts| ==> OneLine(texts[i])
    ensures Lines(EncodeLines(texts)) == (Bodies(texts), "")
  {
    hide TakeLine, EncodeLine, Body;
    if texts == [] {
      NothingPending();
    } else {
      LineRoundTrip(texts[0], EncodeLines(texts[1..]));
      LinesAll(texts[1..]);
    }
  }

  /** Lines written one after another come back in order, whatever the chunks. */
  lemma {:induction false} LinesChunked(texts: seq<string>, chunks: seq<string>)
    requires forall i :: 0 <= i < |texts| ==> OneLine(texts[i])
    requires FrameLaws.Concat(chunks) == EncodeLines(texts)
    ensures FeedLines(chunks) == (Bodies(texts), "")
  {
    FeedIsLines(chunks);
    LinesAll(texts);
  }
}
