/**
 Splitting a list-valued header at its separators, leaving <...> targets (RFC 8288,
 section 3) and quoted strings (RFC 9110, section 5.6.4) whole.
 */
module HeaderSplit {

  /** Length of what remains of a <...> target, its '>' included. */
  function TargetTail(v: string): (n: nat)
    ensures n <= |v|
  {
    if v == "" then 0 else if v[0] == '>' then 1 else 1 + TargetTail(v[1..])
  }

  /** Length of what remains of a quoted string, its closing quote included. */
  function QuotedTail(v: string): (n: nat)
    ensures n <= |v|
  {
    if v == "" then 0
    else if v[0] == '"' then 1
    else if v[0] == '\\' then (if |v| == 1 then 1 else 2 + QuotedTail(v[2..]))
    else 1 + QuotedTail(v[1..])
  }

  /** Length of the first token: a target, a quoted string, or one plain character. */
  function TokenLength(v: string): (n: nat)
    requires v != ""
    ensures 1 <= n <= |v|
  {
    if v[0] == '<' then 1 + TargetTail(v[1..])
    else if v[0] == '"' then 1 + QuotedTail(v[1..])
    else 1
  }

  function Prefixed(head: string, pieces: seq<string>): (r: seq<string>)
    requires pieces != []
    ensures r != []
  {
    [head + pieces[0]] + pieces[1..]
  }

  /** The reference: walk the tokens, and start a new piece at each bare separator. */
  function Split(v: string, separator: char): (pieces: seq<string>)
    ensures pieces != []
    decreases |v|
  {
    if v == "" then [""]
    else if v[0] == separator then [""] + Split(v[1..], separator)
    else var n := TokenLength(v); Prefixed(v[..n], Split(v[n..], separator))
  }

  function Join(pieces: seq<string>, separator: char): string
    requires pieces != []
  {
    if |pieces| == 1 then pieces[0] else pieces[0] + [separator] + Join(pieces[1..], separator)
  }

  /** Joining the pieces gives the input back, for every input. */
  lemma {:induction false} JoinUndoesSplit(v: string, separator: char)
    ensures Join(Split(v, separator), separator) == v
    decreases |v|
  {
    if v != "" {
      if v[0] == separator {
        JoinUndoesSplit(v[1..], separator);
        JoinSeparatorBack(v, Split(v[1..], separator), separator);
      } else {
        var n := TokenLength(v);
        JoinUndoesSplit(v[n..], separator);
        JoinTokenBack(v, n, Split(v[n..], separator), separator);
      }
    }
  }

  lemma JoinSeparatorBack(v: string, pieces: seq<string>, separator: char)
    requires v != "" && v[0] == separator && pieces != [] && Join(pieces, separator) == v[1..]
    ensures Join([""] + pieces, separator) == v
  {
    JoinCons("", pieces, separator);
    assert v == "" + [separator] + v[1..];
  }

  lemma JoinTokenBack(v: string, n: nat, pieces: seq<string>, separator: char)
    requires n <= |v| && pieces != [] && Join(pieces, separator) == v[n..]
    ensures Join(Prefixed(v[..n], pieces), separator) == v
  {
    JoinPrefixed(v[..n], pieces, separator);
    assert v == v[..n] + v[n..];
  }

  lemma JoinCons(head: string, pieces: seq<string>, separator: char)
    requires pieces != []
    ensures Join([head] + pieces, separator) == head + [separator] + Join(pieces, separator)
  {
    assert ([head] + pieces)[1..] == pieces;
  }

  lemma JoinPrefixed(head: string, pieces: seq<string>, separator: char)
    requires pieces != []
    ensures Join(Prefixed(head, pieces), separator) == head + Join(pieces, separator)
  {
    assert Prefixed(head, pieces)[1..] == pieces[1..];
    if |pieces| > 1 {
      assert (head + pieces[0]) + [separator] + Join(pieces[1..], separator)
          == head + (pieces[0] + [separator] + Join(pieces[1..], separator));
    }
  }

  /** A piece that leaves nothing open: every target and quoted string in it is closed, and it has
      no bare separator. */
  predicate Closed(v: string, separator: char)
    decreases |v|
  {
    v == "" ||
    (v[0] != separator
     && (v[0] == '<' ==> '>' in v[1..])
     && (v[0] == '"' ==> QuoteCloses(v[1..]))
     && Closed(v[TokenLength(v)..], separator))
  }

  predicate QuoteCloses(v: string) {
    if v == "" then false
    else if v[0] == '"' then true
    else if v[0] == '\\' then |v| > 1 && QuoteCloses(v[2..])
    else QuoteCloses(v[1..])
  }

  /** Conversely, splitting recovers the pieces of every list whose pieces are closed. */
  lemma {:induction false} SplitUndoesJoin(pieces: seq<string>, separator: char)
    requires pieces != [] && forall k :: 0 <= k < |pieces| ==> Closed(pieces[k], separator)
    ensures Split(Join(pieces, separator), separator) == pieces
  {
    if |pieces| == 1 {
      SplitClosed(pieces[0], "", separator);
      assert pieces[0] + "" == pieces[0];
    } else {
      var rest := [separator] + Join(pieces[1..], separator);
      SplitUndoesJoin(pieces[1..], separator);
      SplitClosed(pieces[0], rest, separator);
      assert rest[1..] == Join(pieces[1..], separator);
      assert Split(rest, separator) == [""] + pieces[1..];
      assert pieces[0] + rest == Join(pieces, separator);
      assert pieces[0] + "" == pieces[0];
    }
  }

  /** A closed prefix stays inside the first piece. */
  lemma {:induction false} SplitClosed(v: string, rest: string, separator: char)
    requires Closed(v, separator) && (rest == "" || rest[0] == separator)
    ensures Split(v + rest, separator) == Prefixed(v, Split(rest, separator))
    decreases |v|
  {
    if v == "" {
      assert v + rest == rest;
      PrefixedEmpty(Split(rest, separator));
    } else {
      var n := TokenLength(v);
      TokenOfClosed(v, rest, separator);
      SplitClosed(v[n..], rest, separator);
      CutToken(v, rest, n);
      PrefixedTwice(v[..n], v[n..], Split(rest, separator));
    }
  }

  lemma CutToken(v: string, rest: string, n: nat)
    requires n <= |v|
    ensures (v + rest)[n..] == v[n..] + rest && (v + rest)[..n] == v[..n] && v[..n] + v[n..] == v
  {
  }

  lemma TokenOfClosed(v: string, rest: string, separator: char)
    requires v != "" && Closed(v, separator)
    ensures TokenLength(v + rest) == TokenLength(v) && (v + rest)[0] == v[0]
  {
    assert (v + rest)[1..] == v[1..] + rest;
    if v[0] == '<' {
      TargetTailClosed(v[1..], rest);
    } else if v[0] == '"' {
      QuotedTailClosed(v[1..], rest);
    }
  }

  lemma {:induction false} TargetTailClosed(v: string, rest: string)
    requires '>' in v
    ensures TargetTail(v + rest) == TargetTail(v)
  {
    assert (v + rest)[0] == v[0];
    if v[0] != '>' {
      assert (v + rest)[1..] == v[1..] + rest;
      TargetTailClosed(v[1..], rest);
    }
  }

  lemma {:induction false} QuotedTailClosed(v: string, rest: string)
    requires QuoteCloses(v)
    ensures QuotedTail(v + rest) == QuotedTail(v)
    decreases |v|
  {
    assert (v + rest)[0] == v[0];
    if v[0] == '\\' {
      assert (v + rest)[2..] == v[2..] + rest;
      QuotedTailClosed(v[2..], rest);
    } else if v[0] != '"' {
      assert (v + rest)[1..] == v[1..] + rest;
      QuotedTailClosed(v[1..], rest);
    }
  }

  // ---------------------------------------------------------------- quoted text and targets

  /** `text` as it is written inside quotes. */
  function Escaped(text: string): string {
    if text == "" then ""
    else (if text[0] == '"' || text[0] == '\\' then ['\\', text[0]] else [text[0]]) + Escaped(text[1..])
  }

  lemma {:induction false} EscapedRunsToQuote(text: string, rest: string)
    ensures QuotedTail(Escaped(text) + "\"" + rest) == |Escaped(text)| + 1
  {
    var v := Escaped(text) + "\"" + rest;
    if text != "" {
      EscapedRunsToQuote(text[1..], rest);
      if text[0] == '"' || text[0] == '\\' {
        assert v[0] == '\\' && v[2..] == Escaped(text[1..]) + "\"" + rest;
      } else {
        assert v[0] == text[0] && v[1..] == Escaped(text[1..]) + "\"" + rest;
      }
    }
  }

  /** No text whatever, once quoted, can split a value or swallow what follows it. */
  lemma QuotedTextStaysWhole(text: string, rest: string, separator: char)
    requires separator != '"'
    ensures Split("\"" + Escaped(text) + "\"" + rest, separator)
         == Prefixed("\"" + Escaped(text) + "\"", Split(rest, separator))
  {
    var v := "\"" + Escaped(text) + "\"" + rest;
    assert v[1..] == Escaped(text) + "\"" + rest;
    EscapedRunsToQuote(text, rest);
    assert v[..|Escaped(text)| + 2] == "\"" + Escaped(text) + "\"" && v[|Escaped(text)| + 2..] == rest;
  }

  lemma {:induction false} TargetRunsToEnd(s: string, rest: string)
    requires '>' !in s
    ensures TargetTail(s + ">" + rest) == |s| + 1
  {
    var v := s + ">" + rest;
    if s != "" {
      assert v[0] == s[0] && s[0] in s && v[1..] == s[1..] + ">" + rest;
      TargetRunsToEnd(s[1..], rest);
    }
  }

  /** Nor can a target. */
  lemma SplitTarget(target: string, rest: string, separator: char)
    requires '>' !in target && separator != '<'
    ensures Split("<" + target + ">" + rest, separator) == Prefixed("<" + target + ">", Split(rest, separator))
  {
    var v := "<" + target + ">" + rest;
    assert v[1..] == target + ">" + rest;
    TargetRunsToEnd(target, rest);
    assert v[..|target| + 2] == "<" + target + ">" && v[|target| + 2..] == rest;
  }

  // ---------------------------------------------------------------- the scan loop

  /** How much of the unread `v` belongs to the token the scan stands in. */
  ghost function Pending(v: string, inTarget: bool, inQuote: bool, escaped: bool): (n: nat)
    ensures n <= |v|
  {
    if inTarget then TargetTail(v)
    else if inQuote && escaped then (if v == "" then 0 else 1 + QuotedTail(v[1..]))
    else if inQuote then QuotedTail(v)
    else 0
  }

  ghost function OwedFrom(v: string, separator: char, n: nat): (pieces: seq<string>)
    requires n <= |v|
    ensures pieces != []
  {
    Prefixed(v[..n], Split(v[n..], separator))
  }

  /** What the scan still owes for the unread `v`. */
  ghost function Owed(v: string, separator: char, inTarget: bool, inQuote: bool, escaped: bool): (pieces: seq<string>)
    ensures pieces != []
  {
    OwedFrom(v, separator, Pending(v, inTarget, inQuote, escaped))
  }

  lemma PrefixedTwice(a: string, b: string, pieces: seq<string>)
    requires pieces != []
    ensures Prefixed(a, Prefixed(b, pieces)) == Prefixed(a + b, pieces)
  {
    assert a + (b + pieces[0]) == (a + b) + pieces[0];
  }

  lemma OwedOutside(v: string, separator: char)
    ensures Owed(v, separator, false, false, false) == Split(v, separator)
  {
    assert v[..0] == "" && v[0..] == v;
    PrefixedEmpty(Split(v, separator));
  }

  lemma PrefixedEmpty(pieces: seq<string>)
    requires pieces != []
    ensures Prefixed("", pieces) == pieces
  {
    assert "" + pieces[0] == pieces[0];
  }

  lemma PrefixedStep(head: string, token: string, pieces: seq<string>)
    requires token != "" && pieces != []
    ensures Prefixed(head, Prefixed(token, pieces)) == Prefixed(head + [token[0]], Prefixed(token[1..], pieces))
  {
    PrefixedTwice(head, token, pieces);
    PrefixedTwice(head + [token[0]], token[1..], pieces);
    assert head + token == head + [token[0]] + token[1..];
  }

  /** Reading one character inside a token moves it from what is owed to the current piece. */
  lemma OwedStep(v: string, separator: char, n: nat, head: string)
    requires 1 <= n <= |v|
    ensures Prefixed(head, OwedFrom(v, separator, n)) == Prefixed(head + [v[0]], OwedFrom(v[1..], separator, n - 1))
  {
    assert v[1..][n - 1..] == v[n..] && v[1..][..n - 1] == v[..n][1..] && v[..n][0] == v[0];
    PrefixedStep(head, v[..n], Split(v[n..], separator));
  }

  /** Where the scan stands in a token after reading `c`. */
  ghost function After(c: char, inTarget: bool, inQuote: bool, escaped: bool): (bool, bool, bool) {
    if escaped then (inTarget, inQuote, false)
    else if inQuote && c == '\\' then (inTarget, inQuote, true)
    else if c == '<' && !inQuote then (true, inQuote, false)
    else if c == '>' && !inQuote then (false, inQuote, false)
    else if c == '"' && !inTarget then (inTarget, !inQuote, false)
    else (inTarget, inQuote, false)
  }

  /** The token that reading `v[0]` is part of ends one character sooner afterwards. */
  lemma PendingStep(v: string, inTarget: bool, inQuote: bool, escaped: bool)
    requires v != "" && !(inTarget && inQuote) && (escaped ==> inQuote)
    ensures var (t, q, e) := After(v[0], inTarget, inQuote, escaped);
            Pending(v[1..], t, q, e) + 1
            == if inTarget || inQuote then Pending(v, inTarget, inQuote, escaped) else TokenLength(v)
  {
    if inQuote && !escaped && v[0] == '\\' && |v| > 1 {
      assert v[1..][1..] == v[2..];
    }
  }

  lemma StayStep(v: string, separator: char, inTarget: bool, inQuote: bool, escaped: bool, head: string)
    requires v != "" && !(inTarget && inQuote) && (escaped ==> inQuote)
    requires inTarget || inQuote || v[0] != separator
    ensures var (t, q, e) := After(v[0], inTarget, inQuote, escaped);
            Prefixed(head, Owed(v, separator, inTarget, inQuote, escaped))
            == Prefixed(head + [v[0]], Owed(v[1..], separator, t, q, e))
  {
    PendingStep(v, inTarget, inQuote, escaped);
    if inTarget || inQuote {
      OwedStep(v, separator, Pending(v, inTarget, inQuote, escaped), head);
    } else {
      OwedOutside(v, separator);
      OwedStep(v, separator, TokenLength(v), head);
    }
  }

  lemma CutStep(v: string, separator: char, head: string)
    requires v != "" && v[0] == separator
    ensures Prefixed(head, Owed(v, separator, false, false, false))
         == [head] + Prefixed("", Owed(v[1..], separator, false, false, false))
  {
    OwedOutside(v, separator);
    OwedOutside(v[1..], separator);
    PrefixedEmpty(Split(v[1..], separator));
    assert head + "" == head;
  }

  /** With `result` emitted and a piece open since `start`, the scan at `i` is on course for `Split`. */
  ghost predicate OnCourse(value: string, separator: char, result: seq<string>, start: nat, i: nat,
                           modes: (bool, bool, bool))
  {
    && start <= i <= |value|
    && !(modes.0 && modes.1) && (modes.2 ==> modes.1)
    && result + Prefixed(value[start..i], Owed(value[i..], separator, modes.0, modes.1, modes.2))
       == Split(value, separator)
  }

  lemma OnCourseAtStart(value: string, separator: char)
    ensures OnCourse(value, separator, [], 0, 0, (false, false, false))
  {
    assert value[0..] == value && value[0..0] == "";
    OwedOutside(value, separator);
    PrefixedEmpty(Split(value, separator));
  }

  lemma OnCourseAtEnd(value: string, separator: char, result: seq<string>, start: nat, modes: (bool, bool, bool))
    requires OnCourse(value, separator, result, start, |value|, modes)
    ensures result + [value[start..]] == Split(value, separator)
  {
    assert value[|value|..] == "" && Owed("", separator, modes.0, modes.1, modes.2) == [""];
    assert value[start..|value|] + "" == value[start..];
  }

  lemma OnCourseInside(value: string, separator: char, result: seq<string>, start: nat, i: nat,
                       modes: (bool, bool, bool))
    requires OnCourse(value, separator, result, start, i, modes) && i < |value|
    requires modes.0 || modes.1 || value[i] != separator
    ensures OnCourse(value, separator, result, start, i + 1, After(value[i], modes.0, modes.1, modes.2))
  {
    Slices(value, start, i);
    ModesStayApart(value[i], modes.0, modes.1, modes.2);
    StayStep(value[i..], separator, modes.0, modes.1, modes.2, value[start..i]);
  }

  lemma Slices(value: string, start: nat, i: nat)
    requires start <= i < |value|
    ensures value[i..][0] == value[i] && value[i..][1..] == value[i + 1..]
    ensures value[start..i] + [value[i]] == value[start..i + 1]
  {
  }

  lemma ModesStayApart(c: char, inTarget: bool, inQuote: bool, escaped: bool)
    requires !(inTarget && inQuote) && (escaped ==> inQuote)
    ensures var (t, q, e) := After(c, inTarget, inQuote, escaped); !(t && q) && (e ==> q)
  {
  }

  lemma OnCourseCut(value: string, separator: char, result: seq<string>, start: nat, i: nat)
    requires OnCourse(value, separator, result, start, i, (false, false, false)) && i < |value|
    requires value[i] == separator
    ensures OnCourse(value, separator, result + [value[start..i]], i + 1, i + 1, (false, false, false))
  {
    Slices(value, start, i);
    CutStep(value[i..], separator, value[start..i]);
    Regroup(result, [value[start..i]], Prefixed("", Owed(value[i + 1..], separator, false, false, false)));
    assert value[i + 1..i + 1] == "";
  }

  lemma Regroup(a: seq<string>, b: seq<string>, c: seq<string>)
    ensures (a + b) + c == a + (b + c)
  {
  }

  method SplitHeaderValue(value: string, separator: char) returns (result: seq<string>)
    requires separator == ',' || separator == ';'
    ensures result == Split(value, separator)
  {
    result := [];
    var start := 0;
    var inTarget, inQuote, escaped := false, false, false;
    OnCourseAtStart(value, separator);
    for i := 0 to |value|
      invariant OnCourse(value, separator, result, start, i, (inTarget, inQuote, escaped))
    {
      var character := value[i];
      if inTarget || inQuote || character != separator {
        OnCourseInside(value, separator, result, start, i, (inTarget, inQuote, escaped));
      } else {
        OnCourseCut(value, separator, result, start, i);
      }
      if escaped {
        escaped := false;
        continue;
      }
      if inQuote && character == '\\' {
        escaped := true;
        continue;
      }
      match character {
        case '<' =>
          if !inQuote {
            inTarget := true;
          }
        case '>' =>
          if !inQuote {
            inTarget := false;
          }
        case '"' =>
          if !inTarget {
            inQuote := !inQuote;
          }
        case _ =>
          if character == separator && !inTarget && !inQuote {
            result := result + [value[start..i]];
            start := i + 1;
          }
      }
    }
    OnCourseAtEnd(value, separator, result, start, (inTarget, inQuote, escaped));
    result := result + [value[start..]];
  }
}
