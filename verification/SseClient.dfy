/**
 The browser side of the stream: an incremental frame parser that gives the same
 payloads however the network cuts the text.
 */
module SseClient {
  import opened Basics
  import opened Text
  import opened SseWriter

  /** `text.split("\n\n")`. */
  function SplitFrames(s: string): (frames: seq<string>)
    ensures frames != []
    decreases |s|
  {
    if |s| < 2 then [s]
    else if s[0] == '\n' && s[1] == '\n' then [""] + SplitFrames(s[2..])
    else Prepended(s[0], SplitFrames(s[1..]))
  }

  /** `frame.split("\n")`. */
  function SplitLines(s: string): (lines: seq<string>)
    ensures lines != []
  {
    if s == "" then [""]
    else if s[0] == '\n' then [""] + SplitLines(s[1..])
    else Prepended(s[0], SplitLines(s[1..]))
  }

  function Init(frames: seq<string>): seq<string>
    requires frames != []
  {
    frames[..|frames| - 1]
  }

  function Last(frames: seq<string>): string
    requires frames != []
  {
    frames[|frames| - 1]
  }

  /** The payload a line carries, if any: blank payloads are ignored. */
  function LinePayload(line: string): seq<string> {
    var trimmed := Trim(JsSpace, line);
    if |trimmed| < 5 || trimmed[..5] != "data:" then []
    else
      var payload := Trim(JsSpace, trimmed[5..]);
      if payload == "" then [] else [payload]
  }

  function LinesPayloads(lines: seq<string>): seq<string> {
    if lines == [] then [] else LinePayload(lines[0]) + LinesPayloads(lines[1..])
  }

  function FramesPayloads(frames: seq<string>): seq<string> {
    if frames == [] then [] else LinesPayloads(SplitLines(frames[0])) + FramesPayloads(frames[1..])
  }

  /** The payloads of a text: those of its complete frames. */
  function Payloads(text: string): seq<string> {
    FramesPayloads(Init(SplitFrames(text)))
  }

  /** The tokens a run of payloads yields; [DONE] ends it and unparsable payloads are skipped. */
  function Tokens(codec: Codec, payloads: seq<string>): seq<string> {
    if payloads == [] || payloads[0] == DONE then []
    else
      (match codec.parse(payloads[0])
       case None => []
       case Some(token) => if token == "" then [] else [token])
      + Tokens(codec, payloads[1..])
  }

  function Flatten(pieces: seq<string>): string {
    if pieces == [] then "" else Flatten(pieces[..|pieces| - 1]) + pieces[|pieces| - 1]
  }

  // ---------------------------------------------------------------- cutting does not matter

  lemma {:induction false} SingleFrame(s: string)
    requires |SplitFrames(s)| == 1
    ensures SplitFrames(s) == [s]
    decreases |s|
  {
    if |s| >= 2 {
      assert |SplitFrames(s[2..])| > 0;
      SingleFrame(s[1..]);
      assert [s[0]] + s[1..] == s;
    }
  }

  /** Splitting may stop after any prefix and resume from the last, incomplete frame. */
  lemma {:induction false} SplitResumes(s: string, t: string)
    ensures SplitFrames(s + t) == Init(SplitFrames(s)) + SplitFrames(Last(SplitFrames(s)) + t)
    decreases |s|
  {
    if |SplitFrames(s)| == 1 {
      SingleFrame(s);
    } else if s[0] == '\n' && s[1] == '\n' {
      assert (s + t)[2..] == s[2..] + t;
      SplitResumes(s[2..], t);
    } else {
      assert (s + t)[0] == s[0] && (s + t)[1] == s[1] && (s + t)[1..] == s[1..] + t;
      SplitResumes(s[1..], t);
      PrependResumes(s[0], SplitFrames(s[1..]), SplitFrames(Last(SplitFrames(s[1..])) + t));
    }
  }

  /** The first frame with one more character in front. */
  function Prepended(c: char, frames: seq<string>): (r: seq<string>)
    requires frames != []
    ensures r != []
  {
    [[c] + frames[0]] + frames[1..]
  }

  lemma PrependResumes(c: char, frames: seq<string>, more: seq<string>)
    requires |frames| > 1
    ensures Prepended(c, Init(frames) + more) == Init(Prepended(c, frames)) + more
    ensures Last(Prepended(c, frames)) == Last(frames)
  {
  }

  lemma {:induction false} FramesPayloadsAppend(a: seq<string>, b: seq<string>)
    ensures FramesPayloads(a + b) == FramesPayloads(a) + FramesPayloads(b)
  {
    if a == [] {
      assert a + b == b;
    } else {
      assert (a + b)[1..] == a[1..] + b;
      FramesPayloadsAppend(a[1..], b);
    }
  }

  lemma {:induction false} TokensAppend(codec: Codec, a: seq<string>, b: seq<string>)
    ensures Tokens(codec, a + b) == if DONE in a then Tokens(codec, a) else Tokens(codec, a) + Tokens(codec, b)
  {
    if a == [] {
      assert a + b == b;
    } else {
      assert (a + b)[1..] == a[1..] + b;
      TokensAppend(codec, a[1..], b);
    }
  }

  /** Payloads accumulate piece by piece: what a new piece completes is found by splitting the
      incomplete frame kept so far with the piece appended. */
  lemma PayloadsResume(s: string, t: string)
    ensures Payloads(s + t) == Payloads(s) + FramesPayloads(Init(SplitFrames(Last(SplitFrames(s)) + t)))
    ensures Last(SplitFrames(s + t)) == Last(SplitFrames(Last(SplitFrames(s)) + t))
  {
    SplitResumes(s, t);
    var kept, more := Init(SplitFrames(s)), SplitFrames(Last(SplitFrames(s)) + t);
    assert Init(kept + more) == kept + Init(more);
    FramesPayloadsAppend(kept, Init(more));
  }

  // ---------------------------------------------------------------- the parser

  /** One frame: the tokens it yields, and whether it carries [DONE]. */
  method ReadFrame(codec: Codec, frame: string) returns (tokens: seq<string>, done: bool)
    ensures tokens == Tokens(codec, LinesPayloads(SplitLines(frame)))
    ensures done == (DONE in LinesPayloads(SplitLines(frame)))
  {
    var lines := SplitLines(frame);
    tokens, done := [], false;
    ghost var seen: seq<string> := [];
    for i := 0 to |lines|
      invariant Consumed(codec, seen, LinesPayloads(lines[i..]), LinesPayloads(lines), tokens)
    {
      assert lines[i..][1..] == lines[i + 1..];
      var payload := LinePayload(lines[i]);
      Consume(codec, seen, payload, LinesPayloads(lines[i + 1..]), LinesPayloads(lines), tokens);
      seen := seen + payload;
      if payload == [] {
        assert tokens + [] == tokens;
        continue;
      }
      TokensOfOne(codec, payload[0]);
      if payload[0] == DONE {
        done := true;
        assert tokens + [] == tokens;
        return;
      }
      var chunk := codec.parse(payload[0]);
      if chunk.Some? && chunk.value != "" {
        tokens := tokens + [chunk.value];
      } else {
        assert tokens + [] == tokens;
      }
    }
    assert seen + [] == seen;
  }

  /** `seen` of `all` has been read without meeting [DONE], and has yielded `tokens`. */
  ghost predicate Consumed(codec: Codec, seen: seq<string>, ahead: seq<string>, all: seq<string>,
                           tokens: seq<string>)
  {
    seen + ahead == all && DONE !in seen && tokens == Tokens(codec, seen)
  }

  lemma Consume(codec: Codec, seen: seq<string>, next: seq<string>, ahead: seq<string>, all: seq<string>,
                tokens: seq<string>)
    requires Consumed(codec, seen, next + ahead, all, tokens)
    ensures if DONE in next then DONE in all && Tokens(codec, all) == tokens + Tokens(codec, next)
            else Consumed(codec, seen + next, ahead, all, tokens + Tokens(codec, next))
  {
    assert seen + (next + ahead) == seen + next + ahead;
    TokensAppend(codec, seen, next);
    TokensAppend(codec, seen + next, ahead);
  }

  lemma TokensOfOne(codec: Codec, payload: string)
    ensures Tokens(codec, [payload])
         == if payload != DONE && codec.parse(payload).Some? && codec.parse(payload).value != ""
            then [codec.parse(payload).value] else []
  {
    assert [payload][1..] == [];
  }

  method ReadFrames(codec: Codec, frames: seq<string>) returns (tokens: seq<string>, done: bool)
    ensures tokens == Tokens(codec, FramesPayloads(frames))
    ensures done == (DONE in FramesPayloads(frames))
  {
    tokens, done := [], false;
    ghost var seen: seq<string> := [];
    for i := 0 to |frames|
      invariant Consumed(codec, seen, FramesPayloads(frames[i..]), FramesPayloads(frames), tokens)
    {
      assert frames[i..][1..] == frames[i + 1..];
      ghost var payloads := LinesPayloads(SplitLines(frames[i]));
      Consume(codec, seen, payloads, FramesPayloads(frames[i + 1..]), FramesPayloads(frames), tokens);
      seen := seen + payloads;
      var more;
      more, done := ReadFrame(codec, frames[i]);
      tokens := tokens + more;
      if done {
        return;
      }
    }
    assert seen + [] == seen;
  }

  /** Reads a reply that arrives in `pieces`.  The tokens handed to the caller are those of the whole
      text, for every way of cutting it; the return value is their concatenation. */
  method StreamCompletion(codec: Codec, pieces: seq<string>) returns (full: string, tokens: seq<string>)
    ensures tokens == Tokens(codec, Payloads(Flatten(pieces)))
    ensures full == Flatten(tokens)
  {
    var buffer := "";
    full, tokens := "", [];
    for i := 0 to |pieces|
      invariant buffer == Last(SplitFrames(Flatten(pieces[..i])))
      invariant DONE !in Payloads(Flatten(pieces[..i]))
      invariant tokens == Tokens(codec, Payloads(Flatten(pieces[..i])))
      invariant full == Flatten(tokens)
    {
      ghost var before := Flatten(pieces[..i]);
      assert pieces[..i + 1][..i] == pieces[..i];
      PayloadsResume(before, pieces[i]);
      buffer := buffer + pieces[i];
      var frames := SplitFrames(buffer);
      TokensAppend(codec, Payloads(before), FramesPayloads(Init(frames)));
      buffer := Last(frames);
      var more, done := ReadFrames(codec, Init(frames));
      FlattenAppend(tokens, more);
      full := full + Flatten(more);
      tokens := tokens + more;
      if done {
        TokensOfPrefix(codec, pieces, i + 1);
        return;
      }
    }
    assert pieces[..|pieces|] == pieces;
  }

  lemma {:induction false} FlattenAppend(a: seq<string>, b: seq<string>)
    ensures Flatten(a + b) == Flatten(a) + Flatten(b)
    decreases |b|
  {
    if b == [] {
      assert a + b == a;
    } else {
      assert (a + b)[..|a + b| - 1] == a + b[..|b| - 1];
      FlattenAppend(a, b[..|b| - 1]);
    }
  }

  /** Once [DONE] has arrived, later pieces change nothing. */
  lemma TokensOfPrefix(codec: Codec, pieces: seq<string>, i: nat)
    requires i <= |pieces| && DONE in Payloads(Flatten(pieces[..i]))
    ensures Tokens(codec, Payloads(Flatten(pieces))) == Tokens(codec, Payloads(Flatten(pieces[..i])))
  {
    var a, b := Flatten(pieces[..i]), Flatten(pieces[i..]);
    FlattenAppend(pieces[..i], pieces[i..]);
    assert pieces[..i] + pieces[i..] == pieces;
    PayloadsResume(a, b);
    TokensAppend(codec, Payloads(a), FramesPayloads(Init(SplitFrames(Last(SplitFrames(a)) + b))));
  }

  // ---------------------------------------------------------------- the round trip

  lemma {:induction false} SplitFrameOff(line: string, rest: string)
    requires '\n' !in line
    ensures SplitFrames(line + "\n\n" + rest) == [line] + SplitFrames(rest)
  {
    var s := line + "\n\n" + rest;
    if line == "" {
      assert s[2..] == rest;
    } else {
      assert s[0] == line[0] && s[1..] == line[1..] + "\n\n" + rest;
      SplitFrameOff(line[1..], rest);
      assert [line[0]] + line[1..] == line;
      assert SplitFrames(s)[1..] == SplitFrames(rest);
    }
  }

  lemma {:induction false} SingleLine(s: string)
    requires '\n' !in s
    ensures SplitLines(s) == [s]
  {
    if s != "" {
      SingleLine(s[1..]);
      assert [s[0]] + s[1..] == s;
    }
  }

  /** A payload the writer can emit: newline-free and braced, or the end mark. */
  ghost predicate Emittable(payload: string) {
    OneLineObject(payload) || payload == DONE
  }

  lemma DataLine(payload: string)
    requires Emittable(payload)
    ensures LinePayload("data: " + payload) == [payload]
  {
    var line := "data: " + payload;
    assert line[|line| - 1] == payload[|payload| - 1];
    assert Trim(JsSpace, line) == line;
    assert line[..5] == "data:" && line[5..] == " " + payload;
    assert (" " + payload)[1..] == payload;
    assert TrimLeft(JsSpace, " " + payload) == TrimLeft(JsSpace, payload) == payload;
    assert Trim(JsSpace, line[5..]) == payload;
  }

  /** A `data:` field gives its value without the blanks around it, and nothing when it has only blanks; lines
      of any other kind, comments and blank ones among them, give nothing. */
  lemma FieldLines(gap: string, value: string, after: string)
    requires Blank(JsSpace, gap) && Blank(JsSpace, after)
    requires value != "" ==> !JsSpace(value[0]) && !JsSpace(value[|value| - 1])
    ensures LinePayload("data:" + gap + value + after) == if value == "" then [] else [value]
  {
    var line := "data:" + gap + value + after;
    if value == "" {
      assert line == "data:" + (gap + after);
      TrimRightDrops(JsSpace, "data:", gap + after);
      assert Trim(JsSpace, line) == "data:" && "data:"[5..] == "";
    } else {
      assert line == ("data:" + gap + value) + after;
      TrimRightDrops(JsSpace, "data:" + gap + value, after);
      assert Trim(JsSpace, line) == "data:" + gap + value;
      assert ("data:" + gap + value)[5..] == gap + value + "";
      TrimDrops(JsSpace, gap, value, "");
    }
  }

  lemma OtherLines(line: string)
    requires line != "" ==> !JsSpace(line[0])
    requires !("data:" <= line)
    ensures LinePayload(line) == []
  {
    TrimRightIsPrefix(JsSpace, line);
    var trimmed := Trim(JsSpace, line);
    assert |trimmed| >= 5 ==> line[..5] == trimmed[..5];
  }

  lemma OneLine(line: string)
    ensures LinesPayloads([line]) == LinePayload(line)
  {
    assert [line][1..] == [];
    assert LinePayload(line) + [] == LinePayload(line);
  }

  lemma LineRoundTrip(payload: string)
    requires Emittable(payload)
    ensures LinesPayloads(SplitLines("data: " + payload)) == [payload] && '\n' !in "data: " + payload
  {
    assert '\n' !in "data: " && '\n' !in payload;
    SingleLine("data: " + payload);
    OneLine("data: " + payload);
    DataLine(payload);
  }

  /** The parser recovers exactly the payloads the writer printed. */
  lemma {:induction false} PayloadsOfPrinted(payloads: seq<string>)
    requires forall k :: 0 <= k < |payloads| ==> Emittable(payloads[k])
    ensures Payloads(Printed(payloads)) == payloads
  {
    if payloads != [] {
      var line := "data: " + payloads[0];
      LineRoundTrip(payloads[0]);
      SplitFrameOff(line, Printed(payloads[1..]));
      assert Printed(payloads) == line + "\n\n" + Printed(payloads[1..]);
      PayloadsOfPrinted(payloads[1..]);
      var frames := SplitFrames(Printed(payloads));
      assert Init(frames) == [line] + Init(SplitFrames(Printed(payloads[1..])));
      assert Init(frames)[1..] == Init(SplitFrames(Printed(payloads[1..])));
      assert payloads == [payloads[0]] + payloads[1..];
    }
  }
}
