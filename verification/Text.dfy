/** Whitespace trimming and decimal numerals, shared by the Go and the browser side. */
module Text {

  /** `unicode.IsSpace`. */
  predicate GoSpace(c: char) {
    || c in {'\t', '\n', '\U{0B}', '\U{0C}', '\r', ' ', '\U{85}', '\U{A0}', '\U{1680}', '\U{2028}', '\U{2029}',
             '\U{202F}', '\U{205F}', '\U{3000}'}
    || '\U{2000}' <= c <= '\U{200A}'
  }

  /** The characters JavaScript's `trim` strips. */
  predicate JsSpace(c: char) {
    || c in {'\t', '\n', '\U{0B}', '\U{0C}', '\r', ' ', '\U{A0}', '\U{1680}', '\U{2028}', '\U{2029}',
             '\U{202F}', '\U{205F}', '\U{3000}', '\U{FEFF}'}
    || '\U{2000}' <= c <= '\U{200A}'
  }

  function TrimLeft(space: char -> bool, s: string): string {
    if s != "" && space(s[0]) then TrimLeft(space, s[1..]) else s
  }

  function TrimRight(space: char -> bool, s: string): string {
    if s != "" && space(s[|s| - 1]) then TrimRight(space, s[..|s| - 1]) else s
  }

  function Trim(space: char -> bool, s: string): string {
    TrimRight(space, TrimLeft(space, s))
  }

  predicate Blank(space: char -> bool, s: string) {
    forall c | c in s :: space(c)
  }

  lemma {:induction false} TrimLeftDrops(space: char -> bool, pad: string, s: string)
    requires Blank(space, pad) && (s != "" ==> !space(s[0]))
    ensures TrimLeft(space, pad + s) == s
  {
    if pad == "" {
      assert pad + s == s;
    } else {
      assert space(pad[0]) && (pad + s)[1..] == pad[1..] + s;
      TrimLeftDrops(space, pad[1..], s);
    }
  }

  lemma {:induction false} TrimRightDrops(space: char -> bool, s: string, pad: string)
    requires Blank(space, pad) && (s != "" ==> !space(s[|s| - 1]))
    ensures TrimRight(space, s + pad) == s
    decreases |pad|
  {
    if pad == "" {
      assert s + pad == s;
    } else {
      assert space(pad[|pad| - 1]) && (s + pad)[..|s + pad| - 1] == s + pad[..|pad| - 1];
      TrimRightDrops(space, s, pad[..|pad| - 1]);
    }
  }

  /** Trimming takes the blanks off both ends of a text that has none there itself, and nothing else. */
  lemma TrimDrops(space: char -> bool, left: string, s: string, right: string)
    requires Blank(space, left) && Blank(space, right) && s != "" && !space(s[0]) && !space(s[|s| - 1])
    ensures Trim(space, left + s + right) == s
  {
    assert left + s + right == left + (s + right);
    TrimLeftDrops(space, left, s + right);
    TrimRightDrops(space, s, right);
  }

  /** What is left is nothing exactly when all is blank. */
  lemma {:induction false} TrimIsEmpty(space: char -> bool, s: string)
    ensures Trim(space, s) == "" <==> Blank(space, s)
  {
    if s != "" && space(s[0]) {
      TrimIsEmpty(space, s[1..]);
      assert s == [s[0]] + s[1..];
    } else if s != "" {
      TrimRightKeeps(space, s);
      assert s[0] in s;
    }
  }

  lemma {:induction false} TrimRightIsPrefix(space: char -> bool, s: string)
    ensures TrimRight(space, s) <= s
    decreases |s|
  {
    if s != "" && space(s[|s| - 1]) {
      TrimRightIsPrefix(space, s[..|s| - 1]);
    }
  }

  lemma {:induction false} TrimRightKeeps(space: char -> bool, s: string)
    requires s != "" && !space(s[0])
    ensures TrimRight(space, s) != "" && TrimRight(space, s)[0] == s[0]
    decreases |s|
  {
    if space(s[|s| - 1]) {
      TrimRightKeeps(space, s[..|s| - 1]);
    }
  }

  function Decimal(n: nat): string {
    if n < 10 then [('0' as int + n) as char] else Decimal(n / 10) + [('0' as int + n % 10) as char]
  }

  /** Reading decimal digits. */
  function Reading(s: string): int {
    if s == "" then 0 else Reading(s[..|s| - 1]) * 10 + (s[|s| - 1] as int - '0' as int)
  }

  /** A numeral reads back as its number, so no two numbers share one. */
  lemma {:induction false} DecimalReadsBack(n: nat)
    ensures Reading(Decimal(n)) == n
    ensures forall c | c in Decimal(n) :: '0' <= c <= '9'
  {
    if n < 10 {
      assert Decimal(n)[..0] == "";
    } else {
      DecimalReadsBack(n / 10);
      assert Decimal(n)[..|Decimal(n)| - 1] == Decimal(n / 10);
    }
  }
}
