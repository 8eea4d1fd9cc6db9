/** Whether a response asks its reader to follow pages (RFC 9110, section 14.4, and RFC 8288, section 3.3). */
module Pagination {
  import opened Text
  import opened HeaderSplit

  /** The headers that matter: how many Content-Range values, and the Link values. */
  datatype Header = Header(contentRanges: nat, links: seq<string>)

  /** `unicode.ToLower(c) == lower`, for the letters of the relation names: besides its capital, only the
      dotted capital I lowers to one of them. */
  predicate LowersTo(c: char, lower: char) {
    c == lower || c as int + 32 == lower as int || (lower == 'i' && c == '\U{130}')
  }

  predicate Spells(s: string, word: string) {
    |s| == |word| && forall i :: 0 <= i < |s| ==> LowersTo(s[i], word[i])
  }

  predicate Paging(relation: string) {
    Spells(relation, "next") || Spells(relation, "prev") || Spells(relation, "first") || Spells(relation, "last")
  }

  /** Position of the first `c`, or the length when there is none. */
  function IndexOf(s: string, c: char): (i: nat)
    ensures i <= |s| && c !in s[..i] && (i < |s| ==> s[i] == c)
  {
    if s == "" || s[0] == c then 0 else 1 + IndexOf(s[1..], c)
  }

  /** `strings.Fields`: the maximal runs without white space. */
  function Fields(s: string): seq<string>
    decreases |s|
  {
    if s == "" then []
    else if GoSpace(s[0]) then Fields(s[1..])
    else
      var n := FieldLength(s);
      [s[..n]] + Fields(s[n..])
  }

  function FieldLength(s: string): (n: nat)
    requires s != "" && !GoSpace(s[0])
    ensures 1 <= n <= |s| && (forall i :: 0 <= i < n ==> !GoSpace(s[i])) && (n < |s| ==> GoSpace(s[n]))
  {
    if |s| == 1 || GoSpace(s[1]) then 1 else 1 + FieldLength(s[1..])
  }

  predicate Quote(c: char) {
    c == '"'
  }

  function Relations(value: string): seq<string> {
    Fields(Trim(Quote, Trim(GoSpace, value)))
  }

  /** A `rel` parameter that names a page. */
  predicate PagingParameter(parameter: string) {
    var eq := IndexOf(parameter, '=');
    && eq < |parameter|
    && Spells(Trim(GoSpace, parameter[..eq]), "rel")
    && exists relation :: relation in Relations(parameter[eq + 1..]) && Paging(relation)
  }

  predicate PagingLink(link: string) {
    var end := IndexOf(link, '>');
    end < |link| && exists parameter :: parameter in Split(link[end + 1..], ';') && PagingParameter(parameter)
  }

  predicate PagingValue(value: string) {
    exists link :: link in Split(value, ',') && PagingLink(link)
  }

  predicate Paginated(header: Header) {
    header.contentRanges > 0 || exists value :: value in header.links && PagingValue(value)
  }

  method HasPagination(header: Header) returns (paginated: bool)
    ensures paginated == Paginated(header)
  {
    if header.contentRanges > 0 {
      return true;
    }
    for i := 0 to |header.links|
      invariant forall value :: value in header.links[..i] ==> !PagingValue(value)
    {
      var found := ScanLinks(header.links[i]);
      if found {
        assert header.links[i] in header.links;
        return true;
      }
      assert header.links[..i + 1] == header.links[..i] + [header.links[i]];
    }
    assert header.links[..|header.links|] == header.links;
    paginated := false;
  }

  /** The loop over the links of one header value. */
  method ScanLinks(value: string) returns (found: bool)
    ensures found == PagingValue(value)
  {
    var links := SplitHeaderValue(value, ',');
    for i := 0 to |links|
      invariant forall j :: 0 <= j < i ==> !PagingLink(links[j])
    {
      var end := IndexOf(links[i], '>');
      if end < |links[i]| {
        found := ScanParameters(links[i][end + 1..]);
        if found {
          assert links[i] in links;
          return;
        }
      }
    }
    found := false;
  }

  method ScanParameters(text: string) returns (found: bool)
    ensures found == exists parameter :: parameter in Split(text, ';') && PagingParameter(parameter)
  {
    var parameters := SplitHeaderValue(text, ';');
    for i := 0 to |parameters|
      invariant forall parameter :: parameter in parameters[..i] ==> !PagingParameter(parameter)
    {
      found := ScanRelations(parameters[i]);
      if found {
        assert parameters[i] in parameters;
        return;
      }
      assert parameters[..i + 1] == parameters[..i] + [parameters[i]];
    }
    assert parameters[..|parameters|] == parameters;
    found := false;
  }

  method ScanRelations(parameter: string) returns (found: bool)
    ensures found == PagingParameter(parameter)
  {
    var eq := IndexOf(parameter, '=');
    if eq == |parameter| || !Spells(Trim(GoSpace, parameter[..eq]), "rel") {
      return false;
    }
    var relations := Relations(parameter[eq + 1..]);
    for i := 0 to |relations|
      invariant forall relation :: relation in relations[..i] ==> !Paging(relation)
    {
      if Paging(relations[i]) {
        assert relations[i] in relations;
        return true;
      }
      assert relations[..i + 1] == relations[..i] + [relations[i]];
    }
    assert relations[..|relations|] == relations;
    found := false;
  }

  /** One header value listing several closed links pages exactly when one of them does: no comma or
      angle bracket inside a target or a quoted parameter can hide a page or make one up. */
  lemma ListedLinksPage(links: seq<string>)
    requires links != [] && forall k :: 0 <= k < |links| ==> Closed(links[k], ',')
    ensures Paginated(Header(0, [Join(links, ',')])) <==> exists link :: link in links && PagingLink(link)
    ensures Paginated(Header(0, [Join(links, ',')])) <==> Paginated(Header(0, links))
  {
    SplitUndoesJoin(links, ',');
    var value := Join(links, ',');
    assert Paginated(Header(0, [value])) <==> PagingValue(value) by {
      assert [value][0] == value;
    }
    forall k | 0 <= k < |links| ensures PagingValue(links[k]) <==> PagingLink(links[k]) {
      SplitUndoesJoin([links[k]], ',');
      assert Split(links[k], ',') == [links[k]];
      assert [links[k]][0] == links[k];
    }
    assert forall link :: link in links ==> (PagingValue(link) <==> PagingLink(link));
  }

  // ---------------------------------------------------------------- links as servers write them

  /** Neither blank nor quoted: what a relation may be. */
  predicate Word(w: string) {
    w != "" && forall c | c in w :: !GoSpace(c) && c != '"'
  }

  function Words(words: seq<string>): string {
    if words == [] then "" else if |words| == 1 then words[0] else words[0] + " " + Words(words[1..])
  }

  lemma {:induction false} FieldOfWord(w: string, rest: string)
    requires w != "" && (forall c | c in w :: !GoSpace(c)) && (rest == "" || GoSpace(rest[0]))
    ensures (w + rest)[0] == w[0] && FieldLength(w + rest) == |w|
  {
    assert w[0] in w && (w + rest)[0] == w[0];
    if |w| > 1 {
      assert (w + rest)[1..] == w[1..] + rest && w[1] in w;
      assert forall c | c in w[1..] :: c in w;
      FieldOfWord(w[1..], rest);
    } else {
      assert |w + rest| > 1 ==> (w + rest)[1] == rest[0];
    }
  }

  lemma {:induction false} FieldsOfWords(words: seq<string>)
    requires forall k :: 0 <= k < |words| ==> Word(words[k])
    ensures Fields(Words(words)) == words
  {
    if |words| == 1 {
      FieldsOneMore(words[0], "");
      assert words[0] + "" == words[0] && Fields("") == [];
      OneWord(words);
    } else if words != [] {
      FieldsOfWords(words[1..]);
      FieldsAfterBlank(Words(words[1..]));
      FieldsOneMore(words[0], " " + Words(words[1..]));
      WordsCons(words);
    }
  }

  lemma OneWord(words: seq<string>)
    requires |words| == 1
    ensures [words[0]] + [] == words
  {
  }

  lemma WordsCons(words: seq<string>)
    requires |words| > 1
    ensures Words(words) == words[0] + (" " + Words(words[1..])) && [words[0]] + words[1..] == words
  {
  }

  lemma FieldsAfterBlank(s: string)
    ensures Fields(" " + s) == Fields(s)
  {
    assert (" " + s)[1..] == s;
  }

  lemma FieldsOneMore(w: string, rest: string)
    requires Word(w) && (rest == "" || GoSpace(rest[0]))
    ensures Fields(w + rest) == [w] + Fields(rest)
  {
    FieldOfWord(w, rest);
    assert (w + rest)[..|w|] == w && (w + rest)[|w|..] == rest;
    assert w[0] in w;
  }

  lemma {:induction false} WordsHaveNoQuote(words: seq<string>)
    requires forall k :: 0 <= k < |words| ==> Word(words[k])
    ensures '"' !in Words(words)
  {
    if |words| > 1 {
      WordsHaveNoQuote(words[1..]);
    }
  }

  lemma TrimQuotes(s: string)
    requires '"' !in s
    ensures Trim(Quote, "\"" + s + "\"") == s && Trim(Quote, s) == s
  {
    var closed := s + "\"";
    var quoted := "\"" + s + "\"";
    assert quoted[1..] == closed && closed[..|s|] == s;
    assert closed[|closed| - 1] == '"' && quoted[0] == '"';
    if s == "" {
      assert closed == "\"" && closed[1..] == "" && TrimLeft(Quote, closed) == "";
    } else {
      assert s[0] in s && s[|s| - 1] in s && closed[0] == s[0];
      assert TrimLeft(Quote, closed) == closed && TrimRight(Quote, s) == s;
      assert TrimRight(Quote, closed) == s && TrimLeft(Quote, quoted) == closed;
    }
  }

  /** The words of a relation value, quoted or, for one word, bare. */
  lemma RelationsOfWords(words: seq<string>)
    requires forall k :: 0 <= k < |words| ==> Word(words[k])
    ensures Relations("\"" + Words(words) + "\"") == words
    ensures |words| == 1 ==> Relations(words[0]) == words
  {
    var s := Words(words);
    var quoted := "\"" + s + "\"";
    WordsHaveNoQuote(words);
    TrimQuotes(s);
    FieldsOfWords(words);
    assert quoted[0] == '"' && quoted[|quoted| - 1] == '"';
    assert Trim(GoSpace, quoted) == quoted;
    if |words| == 1 {
      assert s[0] in s && s[|s| - 1] in s;
      assert Trim(GoSpace, s) == s;
    }
  }

  lemma {:induction false} FirstIndex(s: string, c: char, rest: string)
    requires c !in s && rest != "" && rest[0] == c
    ensures IndexOf(s + rest, c) == |s|
  {
    if s == "" {
      assert s + rest == rest;
    } else {
      assert (s + rest)[1..] == s[1..] + rest && s[0] in s;
      FirstIndex(s[1..], c, rest);
    }
  }

  /** A parameter name: no blanks and none of the characters with a meaning in a header. */
  predicate Plain(name: string) {
    name != "" && forall c | c in name :: !GoSpace(c) && c !in {'=', '<', '>', '"', ',', ';'}
  }

  /** A parameter ` name=value` pages exactly when it is a `rel` and one of the value's relations names a page. */
  lemma ParameterPages(name: string, value: string)
    requires Plain(name)
    ensures PagingParameter(" " + name + "=" + value) <==> Spells(name, "rel") && NamesAPage(Relations(value))
  {
    var p := " " + name + "=" + value;
    assert p == (" " + name) + ("=" + value);
    FirstIndex(" " + name, '=', "=" + value);
    assert p[..|name| + 1] == " " + name && p[|name| + 2..] == value;
    assert name[0] in name && name[|name| - 1] in name;
    assert " " + name == " " + name + "";
    TrimDrops(GoSpace, " ", name, "");
  }

  /** Plain characters go into the piece they stand in. */
  lemma {:induction false} SplitPlain(p: string, rest: string, separator: char)
    requires forall c | c in p :: c != separator && c != '<' && c != '"'
    ensures Split(p + rest, separator) == Prefixed(p, Split(rest, separator))
  {
    if p == "" {
      assert p + rest == rest;
      PrefixedEmpty(Split(rest, separator));
    } else {
      assert p[0] in p && (p + rest)[0] == p[0] && (p + rest)[1..] == p[1..] + rest && (p + rest)[..1] == [p[0]];
      assert forall c | c in p[1..] :: c in p;
      SplitPlain(p[1..], rest, separator);
      PrefixedTwice([p[0]], p[1..], Split(rest, separator));
      assert [p[0]] + p[1..] == p;
    }
  }

  lemma {:induction false} QuoteRunsToEnd(s: string)
    requires '"' !in s
    ensures QuotedTail(s + "\"") == |s| + 1
    decreases |s|
  {
    var v := s + "\"";
    if s != "" {
      assert v[0] == s[0] && s[0] in s && v[1..] == s[1..] + "\"";
      if s[0] == '\\' {
        if |s| > 1 {
          assert v[2..] == s[2..] + "\"";
          QuoteRunsToEnd(s[2..]);
        }
      } else {
        QuoteRunsToEnd(s[1..]);
      }
    }
  }

  lemma SplitQuoted(s: string, separator: char)
    requires '"' !in s && separator != '"'
    ensures Split("\"" + s + "\"", separator) == ["\"" + s + "\""]
  {
    var v := "\"" + s + "\"";
    assert v[1..] == s + "\"";
    QuoteRunsToEnd(s);
    assert TokenLength(v) == |v| && v[..|v|] == v && v[|v|..] == "";
    assert v + "" == v;
  }

  /** A value that no separator, target or quote of a header can break apart. */
  predicate Whole(value: string) {
    Split(value, ',') == [value] && Split(value, ';') == [value]
  }

  function LinkWith(target: string, name: string, value: string): string {
    "<" + target + ">" + "; " + name + "=" + value
  }

  function LinkTo(target: string, value: string): string {
    LinkWith(target, "rel", value)
  }

  ghost predicate NamesAPage(relations: seq<string>) {
    exists r :: r in relations && Paging(r)
  }

  /** The link `<target>; name=value` pages exactly when the name is `rel`, in any case, and one of the value's
      relations names a page. */
  lemma LinkPages(target: string, name: string, value: string)
    requires '>' !in target && Plain(name) && Whole(value)
    ensures Paginated(Header(0, [LinkWith(target, name, value)])) <==>
              Spells(name, "rel") && NamesAPage(Relations(value))
  {
    var link := LinkWith(target, name, value);
    AfterTarget(target, name, value);
    ParameterAlone(name, value);
    LinkAlone(target, name, value);
    assert [link][0] == link;
    assert PagingValue(link) <==> PagingLink(link) by {
      assert link in Split(link, ',');
    }
    assert Paginated(Header(0, [link])) <==> PagingValue(link);
  }

  lemma RelLinkPages(target: string, value: string)
    requires '>' !in target && Whole(value)
    ensures Paginated(Header(0, [LinkTo(target, value)])) <==> NamesAPage(Relations(value))
  {
    var name := "rel";
    assert Spells(name, "rel");
    assert Plain(name) by {
      forall c | c in name ensures c == 'r' || c == 'e' || c == 'l' {
        var i: int :| 0 <= i < |name| && name[i] == c;
      }
    }
    LinkPages(target, name, value);
  }

  lemma AfterTarget(target: string, name: string, value: string)
    requires '>' !in target
    ensures var link := LinkWith(target, name, value);
            IndexOf(link, '>') == |target| + 1 && link[|target| + 2..] == "; " + name + "=" + value
  {
    var rest := "; " + name + "=" + value;
    LinkParts(target, name, value);
    assert '>' !in "<" + target;
    FirstIndex("<" + target, '>', ">" + rest);
    assert (">" + rest)[1..] == rest;
  }

  lemma LinkParts(target: string, name: string, value: string)
    ensures LinkWith(target, name, value) == ("<" + target) + (">" + ("; " + name + "=" + value))
    ensures LinkWith(target, name, value) == "<" + target + ">" + ("; " + name + "=" + value)
  {
  }

  lemma ParameterAlone(name: string, value: string)
    requires Plain(name) && Whole(value)
    ensures (exists p :: p in Split("; " + name + "=" + value, ';') && PagingParameter(p)) <==>
              Spells(name, "rel") && NamesAPage(Relations(value))
  {
    var v, p, head := "; " + name + "=" + value, " " + name + "=" + value, " " + name + "=";
    assert v[1..] == p && p == head + value;
    assert forall c | c in head :: c == ' ' || c == '=' || c in name;
    SplitPlain(head, value, ';');
    assert Split(v, ';') == ["", p];
    assert ["", p][0] == "" && ["", p][1] == p;
    assert !PagingParameter("");
    ParameterPages(name, value);
  }

  lemma LinkAlone(target: string, name: string, value: string)
    requires '>' !in target && Plain(name) && Whole(value)
    ensures Split(LinkWith(target, name, value), ',') == [LinkWith(target, name, value)]
  {
    var rest, head := "; " + name + "=" + value, "; " + name + "=";
    LinkParts(target, name, value);
    SplitTarget(target, rest, ',');
    assert forall c | c in head :: c == ';' || c == ' ' || c == '=' || c in name;
    SplitPlain(head, value, ',');
  }

  /** A Content-Range pages whatever the links say; a link without a target does not, nor does one with any
      other parameter in place of `rel`. */
  lemma OtherHeaders(ranges: nat, links: seq<string>, link: string, target: string, name: string, words: seq<string>)
    requires '>' !in link && '>' !in target && Plain(name) && |name| != 3
    requires forall k :: 0 <= k < |words| ==> Word(words[k])
    ensures ranges > 0 ==> Paginated(Header(ranges, links))
    ensures !Paginated(Header(0, []))
    ensures !PagingLink(link)
    ensures !Paginated(Header(0, [LinkWith(target, name, "\"" + Words(words) + "\"")]))
  {
    assert IndexOf(link, '>') < |link| ==> link[IndexOf(link, '>')] in link;
    WordsHaveNoQuote(words);
    SplitQuoted(Words(words), ',');
    SplitQuoted(Words(words), ';');
    LinkPages(target, name, "\"" + Words(words) + "\"");
  }

  /** The ordinary form: a link with a quoted `rel` pages exactly when one of its relations names a page,
      however many there are. */
  lemma QuotedLinkPages(target: string, words: seq<string>)
    requires '>' !in target && forall k :: 0 <= k < |words| ==> Word(words[k])
    ensures Paginated(Header(0, [LinkTo(target, "\"" + Words(words) + "\"")])) <==> NamesAPage(words)
  {
    var value := "\"" + Words(words) + "\"";
    WordsHaveNoQuote(words);
    SplitQuoted(Words(words), ',');
    SplitQuoted(Words(words), ';');
    RelationsOfWords(words);
    RelLinkPages(target, value);
  }

  /** One relation may stand without quotes when it has no character that needs them. */
  lemma BareLinkPages(target: string, w: string)
    requires '>' !in target && Word(w) && forall c | c in w :: c != ',' && c != ';' && c != '<'
    ensures Paginated(Header(0, [LinkTo(target, w)])) <==> Paging(w)
  {
    BareWordIsWhole(w, ',');
    BareWordIsWhole(w, ';');
    RelationsOfWords([w]);
    RelLinkPages(target, w);
    assert [w][0] == w;
  }

  lemma BareWordIsWhole(w: string, separator: char)
    requires Word(w) && (separator == ',' || separator == ';')
    requires forall c | c in w :: c != ',' && c != ';' && c != '<'
    ensures Split(w, separator) == [w]
  {
    SplitPlain(w, "", separator);
    assert w + "" == w;
  }

  /** Four relations name a page, in any case. */
  lemma PageRelations()
    ensures Paging("next") && Paging("prev") && Paging("first") && Paging("last")
    ensures Paging("NEXT") && Paging("Prev") && Paging("fIRST") && Paging("LASt")
  {
  }

  /** No other does: neither a longer or shorter word nor another one. */
  lemma OtherRelations(w: string)
    requires (|w| != 4 && |w| != 5) || w == "self" || w == "item" || w == "index"
    ensures !Paging(w)
  {
    if |w| == 4 || |w| == 5 {
      assert w[0] == 's' || w[0] == 'i';
    }
  }
}
