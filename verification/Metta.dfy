/** MeTTa expressions as text: tokens, parser and printer (ts/src/metta.ts). */
module Metta {
  import opened Basics

  datatype SExpr = Sym(name: string) | Var(name: string) | List(items: seq<SExpr>)

  // ---- Text --------------------------------------------------------------------------------------

  /** What the whitespace class of a regular expression matches. */
  predicate IsSpace(c: char) {
    c in {' ', '\t', '\n', '\r', '\U{000b}', '\U{000c}', '\U{00a0}', '\U{1680}', '\U{2028}', '\U{2029}', '\U{202f}', '\U{205f}',
          '\U{3000}', '\U{feff}'} || '\U{2000}' <= c <= '\U{200a}'
  }

  predicate Ends(c: char) { IsSpace(c) || c == '(' || c == ')' }

  predicate IsWord(w: string) { forall i :: 0 <= i < |w| ==> !Ends(w[i]) }

  /** The length of the word at the start. */
  function WordLength(text: string): (n: nat)
    ensures n <= |text| && IsWord(text[..n]) && (n < |text| ==> Ends(text[n]))
  {
    if text == "" || Ends(text[0]) then 0
    else
      var n := WordLength(text[1..]);
      assert forall i :: 0 < i < 1 + n ==> text[i] == text[1..][..n][i - 1];
      1 + n
  }

  /** Parentheses and maximal words; whitespace only separates. */
  function Tokenize(text: string): seq<string>
    decreases |text|
  {
    if text == "" then []
    else if text[0] == '(' || text[0] == ')' then [[text[0]]] + Tokenize(text[1..])
    else if IsSpace(text[0]) then Tokenize(text[1..])
    else
      var n := WordLength(text);
      [text[..n]] + Tokenize(text[n..])
  }

  function Joined(parts: seq<string>): string {
    if parts == [] then "" else if |parts| == 1 then parts[0] else parts[0] + " " + Joined(parts[1..])
  }

  function Serialize(e: SExpr): string {
    match e
    case Sym(name) => name
    case Var(name) => "$" + name
    case List(items) => "(" + Joined(SerializeAll(items)) + ")"
  }

  function SerializeAll(es: seq<SExpr>): (parts: seq<string>)
    ensures |parts| == |es|
  {
    if es == [] then [] else [Serialize(es[0])] + SerializeAll(es[1..])
  }

  // ---- Parser ------------------------------------------------------------------------------------

  const MAX_PARSE_DEPTH: nat := 512

  datatype Error = TooDeep | UnexpectedEnd | Unbalanced | UnexpectedClose

  /** An expression and the position of the token behind it. */
  datatype Parsed = Parsed(e: SExpr, next: nat)
  datatype ParsedItems = ParsedItems(items: seq<SExpr>, next: nat)

  function Leaf(t: string): SExpr
    requires t != ""
  {
    if t[0] == '$' then Var(t[1..]) else Sym(t)
  }

  predicate Tokens(toks: seq<string>) { forall i :: 0 <= i < |toks| ==> toks[i] != "" }

  /** The expression at token i, with max levels of nesting allowed. */
  function ParseAt(toks: seq<string>, i: nat, depth: nat, max: nat): (r: Result<Parsed, Error>)
    requires Tokens(toks) && i <= |toks|
    ensures r.Ok? ==> i < r.value.next <= |toks|
    decreases |toks| - i, 0
  {
    if depth > max then Err(TooDeep)
    else if i == |toks| then Err(UnexpectedEnd)
    else if toks[i] == "(" then
      var r := ParseItems(toks, i + 1, depth, max);
      if r.Err? then Err(r.error) else Ok(Parsed(List(r.value.items), r.value.next))
    else if toks[i] == ")" then Err(UnexpectedClose)
    else Ok(Parsed(Leaf(toks[i]), i + 1))
  }

  /** Expressions up to the closing parenthesis, which is consumed. */
  function ParseItems(toks: seq<string>, i: nat, depth: nat, max: nat): (r: Result<ParsedItems, Error>)
    requires Tokens(toks) && i <= |toks|
    ensures r.Ok? ==> i < r.value.next <= |toks|
    decreases |toks| - i, 1
  {
    if i == |toks| then Err(Unbalanced)
    else if toks[i] == ")" then Ok(ParsedItems([], i + 1))
    else
      var first := ParseAt(toks, i, depth + 1, max);
      if first.Err? then Err(first.error)
      else
        var rest := ParseItems(toks, first.value.next, depth, max);
        if rest.Err? then rest else Ok(ParsedItems([first.value.e] + rest.value.items, rest.value.next))
  }

  /** The forms from token i to the end. */
  function ParseForms(toks: seq<string>, i: nat, max: nat): Result<seq<SExpr>, Error>
    requires Tokens(toks) && i <= |toks|
    decreases |toks| - i
  {
    if i == |toks| then Ok([])
    else
      var first := ParseAt(toks, i, 0, max);
      if first.Err? then Err(first.error)
      else
        var rest := ParseForms(toks, first.value.next, max);
        if rest.Err? then rest else Ok([first.value.e] + rest.value)
  }

  /** The parser object: a token list and a cursor that every call advances. */
  class Parser {
    const toks: seq<string>
    var pos: nat

    constructor (toks: seq<string>)
      ensures this.toks == toks && pos == 0
    {
      this.toks := toks;
      pos := 0;
    }

    method Parse(depth: nat) returns (r: Result<SExpr, Error>)
      requires Tokens(toks) && pos <= |toks|
      modifies this
      ensures pos <= |toks|
      ensures var spec := ParseAt(toks, old(pos), depth, MAX_PARSE_DEPTH);
        if spec.Ok? then r == Ok(spec.value.e) && pos == spec.value.next else r == Err(spec.error)
      decreases |toks| - pos, 0
    {
      if depth > MAX_PARSE_DEPTH {
        return Err(TooDeep);
      }
      if pos == |toks| {
        return Err(UnexpectedEnd);
      }
      var t := toks[pos];
      pos := pos + 1;
      if t == "(" {
        var items := ParseList(depth);
        if items.Err? {
          return Err(items.error);
        }
        return Ok(List(items.value));
      }
      if t == ")" {
        return Err(UnexpectedClose);
      }
      return Ok(Leaf(t));
    }

    /** The items of a list whose opening parenthesis has been read. */
    method ParseList(depth: nat) returns (r: Result<seq<SExpr>, Error>)
      requires Tokens(toks) && pos <= |toks|
      modifies this
      ensures pos <= |toks|
      ensures var spec := ParseItems(toks, old(pos), depth, MAX_PARSE_DEPTH);
        if spec.Ok? then r == Ok(spec.value.items) && pos == spec.value.next else r == Err(spec.error)
      decreases |toks| - pos, 1
    {
      hide ParseAt, ParseItems, Continues;
      ghost var whole := ParseItems(toks, pos, depth, MAX_PARSE_DEPTH);
      var items: seq<SExpr> := [];
      ListStarts(whole);
      while pos < |toks| && toks[pos] != ")"
        invariant old(pos) <= pos <= |toks| && Continues(whole, items, ParseItems(toks, pos, depth, MAX_PARSE_DEPTH))
        decreases |toks| - pos
      {
        ListGoesOn(toks, pos, depth, MAX_PARSE_DEPTH, whole, items);
        var item := Parse(depth + 1);
        if item.Err? {
          return Err(item.error);
        }
        items := items + [item.value];
      }
      ListEnds(toks, pos, depth, MAX_PARSE_DEPTH, whole, items);
      if pos == |toks| {
        return Err(Unbalanced);
      }
      pos := pos + 1;
      return Ok(items);
    }
  }

  /** The whole list is the items read so far and then the rest. */
  ghost predicate Continues(whole: Result<ParsedItems, Error>, items: seq<SExpr>, rest: Result<ParsedItems, Error>) {
    if rest.Ok? then whole == Ok(ParsedItems(items + rest.value.items, rest.value.next)) else whole == rest
  }

  lemma ListStarts(whole: Result<ParsedItems, Error>)
    ensures Continues(whole, [], whole)
  {
    assert whole.Ok? ==> [] + whole.value.items == whole.value.items;
  }

  lemma ListGoesOn(toks: seq<string>, i: nat, depth: nat, max: nat, whole: Result<ParsedItems, Error>, items: seq<SExpr>)
    requires Tokens(toks) && i < |toks| && toks[i] != ")" && Continues(whole, items, ParseItems(toks, i, depth, max))
    ensures var first := ParseAt(toks, i, depth + 1, max);
      if first.Err? then whole == Err(first.error)
      else Continues(whole, items + [first.value.e], ParseItems(toks, first.value.next, depth, max))
  {
    hide ParseAt;
    var first := ParseAt(toks, i, depth + 1, max);
    if first.Ok? {
      var rest := ParseItems(toks, first.value.next, depth, max);
      assert rest.Ok? ==> items + ([first.value.e] + rest.value.items) == items + [first.value.e] + rest.value.items;
    }
  }

  lemma ListEnds(toks: seq<string>, i: nat, depth: nat, max: nat, whole: Result<ParsedItems, Error>, items: seq<SExpr>)
    requires Tokens(toks) && i <= |toks| && (i < |toks| ==> toks[i] == ")")
    requires Continues(whole, items, ParseItems(toks, i, depth, max))
    ensures whole == if i == |toks| then Err(Unbalanced) else Ok(ParsedItems(items, i + 1))
  {
    assert items + [] == items;
  }

  lemma {:induction false} TokenizeTokens(text: string)
    ensures Tokens(Tokenize(text))
    decreases |text|
  {
    if text != "" {
      if text[0] == '(' || text[0] == ')' || IsSpace(text[0]) {
        TokenizeTokens(text[1..]);
      } else {
        TokenizeTokens(text[WordLength(text)..]);
      }
    }
  }

  method ParseSExpr(text: string) returns (r: Result<SExpr, Error>)
    ensures Tokens(Tokenize(text))
    ensures var spec := ParseAt(Tokenize(text), 0, 0, MAX_PARSE_DEPTH);
      r == if spec.Ok? then Ok(spec.value.e) else Err(spec.error)
  {
    TokenizeTokens(text);
    var parser := new Parser(Tokenize(text));
    r := parser.Parse(0);
  }

  method ParseProgram(text: string) returns (r: Result<seq<SExpr>, Error>)
    ensures Tokens(Tokenize(text))
    ensures r == ParseForms(Tokenize(text), 0, MAX_PARSE_DEPTH)
  {
    TokenizeTokens(text);
    var toks := Tokenize(text);
    var parser := new Parser(toks);
    var forms: seq<SExpr> := [];
    ghost var whole := ParseForms(toks, 0, MAX_PARSE_DEPTH);
    assert whole.Ok? ==> [] + whole.value == whole.value;
    while parser.pos < |toks|
      invariant parser.toks == toks && parser.pos <= |toks| && fresh(parser)
      invariant var rest := ParseForms(toks, parser.pos, MAX_PARSE_DEPTH);
        if rest.Ok? then whole == Ok(forms + rest.value) else whole == rest
      decreases |toks| - parser.pos
    {
      ghost var had := forms;
      var form := parser.Parse(0);
      if form.Err? {
        return Err(form.error);
      }
      forms := forms + [form.value];
      ghost var rest := ParseForms(toks, parser.pos, MAX_PARSE_DEPTH);
      assert rest.Ok? ==> had + ([form.value] + rest.value) == forms + rest.value;
    }
    assert forms + [] == forms;
    return Ok(forms);
  }

  // ---- Printable expressions ---------------------------------------------------------------------

  /** Names as the tokenizer can produce them. */
  predicate IsPrintable(e: SExpr) {
    match e
    case Sym(name) => name != "" && IsWord(name) && name[0] != '$'
    case Var(name) => IsWord(name)
    case List(items) => AllPrintable(items)
  }

  predicate AllPrintable(es: seq<SExpr>) { es == [] || (IsPrintable(es[0]) && AllPrintable(es[1..])) }

  /** How deeply lists are nested. */
  function Depth(e: SExpr): nat {
    if e.List? && e.items != [] then 1 + DepthAll(e.items) else 0
  }

  function DepthAll(es: seq<SExpr>): nat {
    if es == [] then 0
    else
      var d, rest := Depth(es[0]), DepthAll(es[1..]);
      if d > rest then d else rest
  }

  function TokensOf(e: SExpr): (toks: seq<string>)
    ensures toks != []
  {
    match e
    case Sym(name) => [name]
    case Var(name) => ["$" + name]
    case List(items) => ["("] + TokensOfAll(items) + [")"]
  }

  function TokensOfAll(es: seq<SExpr>): seq<string> {
    if es == [] then [] else TokensOf(es[0]) + TokensOfAll(es[1..])
  }

  // ---- Printing, then taking tokens ---------------------------------------------------------------

  /** Text that cannot lengthen a word before it. */
  predicate Boundary(text: string) { text == "" || Ends(text[0]) }

  lemma WordFirst(w: string, rest: string)
    requires IsWord(w) && Boundary(rest)
    ensures WordLength(w + rest) == |w|
  {
    var text, n := w + rest, WordLength(w + rest);
    assert forall i :: 0 <= i < |w| ==> text[i] == w[i];
    assert forall i :: 0 <= i < n ==> text[..n][i] == text[i];
    assert rest != "" ==> text[|w|] == rest[0];
  }

  lemma TokenizeWord(w: string, rest: string)
    requires w != "" && IsWord(w) && Boundary(rest)
    ensures Tokenize(w + rest) == [w] + Tokenize(rest)
  {
    WordFirst(w, rest);
    assert (w + rest)[0] == w[0] && (w + rest)[..|w|] == w && (w + rest)[|w|..] == rest;
  }

  lemma TokenizeMark(c: char, rest: string)
    requires Ends(c)
    ensures Tokenize([c] + rest) == (if IsSpace(c) then [] else [[c]]) + Tokenize(rest)
  {
    assert ([c] + rest)[1..] == rest;
  }

  // ---- What tokens are -----------------------------------------------------------------------------

  /** The code points that count as white space. */
  lemma SpacesAre(c: char)
    ensures IsSpace(c) <==>
      c as int in {9, 10, 11, 12, 13, 32, 160, 5760, 8232, 8233, 8239, 8287, 12288, 65279} || 8192 <= c as int <= 8202
  {}

  predicate IsMark(t: string) { t == "(" || t == ")" }

  ghost predicate IsGap(gap: string) { forall i :: 0 <= i < |gap| ==> IsSpace(gap[i]) }

  /** The text is the tokens in turn, any white space around them, and behind a word white space, a parenthesis or the
      end. */
  ghost predicate IsLaidOut(text: string, toks: seq<string>)
    decreases |toks|
  {
    if toks == [] then IsGap(text)
    else exists gap, rest :: StartsWith(text, gap, toks[0], rest) && IsLaidOut(rest, toks[1..])
  }

  ghost predicate StartsWith(text: string, gap: string, tok: string, rest: string) {
    IsGap(gap) && text == gap + tok + rest && (IsMark(tok) || (tok != "" && IsWord(tok) && Boundary(rest)))
  }

  lemma {:induction false} TokenizeGap(gap: string, rest: string)
    requires IsGap(gap)
    ensures Tokenize(gap + rest) == Tokenize(rest)
  {
    if gap == "" {
      assert gap + rest == rest;
    } else {
      var text := gap + rest;
      assert text[0] == gap[0] && IsSpace(gap[0]) && text[1..] == gap[1..] + rest;
      TokenizeGap(gap[1..], rest);
    }
  }

  lemma {:induction false} LaidOutTokens(text: string)
    ensures IsLaidOut(text, Tokenize(text))
    decreases |text|
  {
    hide IsSpace, IsLaidOut, Tokenize;
    if text == "" {
      NoTokens();
    } else if text[0] == '(' || text[0] == ')' {
      LaidOutTokens(text[1..]);
      assert text == [text[0]] + text[1..];
      MarkFirst(text[0], text[1..]);
      assert text == "" + [text[0]] + text[1..];
      LaidOutCons(text, "", [text[0]], text[1..], Tokenize(text[1..]));
    } else if IsSpace(text[0]) {
      var gap: string := [text[0]];
      LaidOutTokens(text[1..]);
      assert text == gap + text[1..];
      TokenizeGap(gap, text[1..]);
      LaidOutGap(text[0], text[1..], Tokenize(text[1..]));
    } else {
      var n := WordLength(text);
      WordNotEmpty(text);
      LaidOutTokens(text[n..]);
      assert text == text[..n] + text[n..];
      TokenizeWord(text[..n], text[n..]);
      assert text == "" + text[..n] + text[n..];
      LaidOutCons(text, "", text[..n], text[n..], Tokenize(text[n..]));
    }
  }

  lemma NoTokens()
    ensures Tokenize("") == [] && IsLaidOut("", [])
  {}

  lemma WordNotEmpty(text: string)
    requires text != "" && !Ends(text[0])
    ensures WordLength(text) > 0
  {}

  lemma LaidOutCons(text: string, gap: string, tok: string, rest: string, toks: seq<string>)
    requires StartsWith(text, gap, tok, rest) && IsLaidOut(rest, toks)
    ensures IsLaidOut(text, [tok] + toks)
  {
    var all := [tok] + toks;
    assert all[0] == tok && all[1..] == toks;
    assert StartsWith(text, gap, all[0], rest);
  }

  lemma MarkFirst(c: char, rest: string)
    requires c == '(' || c == ')'
    ensures Tokenize([c] + rest) == [[c]] + Tokenize(rest) && IsMark([c])
  {
    assert ([c] + rest)[1..] == rest;
  }

  lemma LaidOutGap(c: char, rest: string, toks: seq<string>)
    requires IsSpace(c) && IsLaidOut(rest, toks)
    ensures IsLaidOut([c] + rest, toks)
  {
    hide IsSpace;
    if toks != [] {
      var gap, more :| StartsWith(rest, gap, toks[0], more) && IsLaidOut(more, toks[1..]);
      assert [c] + rest == ([c] + gap) + toks[0] + more;
      assert StartsWith([c] + rest, [c] + gap, toks[0], more);
    }
  }

  lemma {:induction false} LaidOutOnce(text: string, toks: seq<string>)
    requires IsLaidOut(text, toks)
    ensures Tokenize(text) == toks
    decreases |toks|
  {
    hide IsSpace, Tokenize;
    if toks == [] {
      assert text + "" == text;
      TokenizeGap(text, "");
      NoTokens();
    } else {
      var gap, rest :| StartsWith(text, gap, toks[0], rest) && IsLaidOut(rest, toks[1..]);
      LaidOutOnce(rest, toks[1..]);
      assert text == gap + (toks[0] + rest);
      TokenizeGap(gap, toks[0] + rest);
      if IsMark(toks[0]) {
        assert toks[0] == [toks[0][0]];
        MarkFirst(toks[0][0], rest);
      } else {
        TokenizeWord(toks[0], rest);
      }
      assert toks == [toks[0]] + toks[1..];
    }
  }

  /** The tokens of a text are the one way to read it as parentheses and maximal words with white space around them. */
  lemma TokenizeExactly(text: string, toks: seq<string>)
    ensures Tokenize(text) == toks <==> IsLaidOut(text, toks)
  {
    hide IsLaidOut, Tokenize;
    LaidOutTokens(text);
    if IsLaidOut(text, toks) {
      LaidOutOnce(text, toks);
    }
  }

  lemma JoinedFirst(es: seq<SExpr>)
    requires es != []
    ensures Joined(SerializeAll(es))
         == Serialize(es[0]) + if |es| == 1 then "" else " " + Joined(SerializeAll(es[1..]))
  {
    var parts := SerializeAll(es);
    assert parts[0] == Serialize(es[0]) && parts[1..] == SerializeAll(es[1..]);
  }

  lemma {:induction false} TokenizeSerialize(e: SExpr, rest: string)
    requires IsPrintable(e) && Boundary(rest)
    ensures Tokenize(Serialize(e) + rest) == TokensOf(e) + Tokenize(rest)
    decreases e, 1
  {
    hide Tokenize, Joined, SerializeAll, TokensOfAll, AllPrintable;
    match e
    case Sym(name) => TokenizeWord(name, rest);
    case Var(name) => TokenizeWord("$" + name, rest);
    case List(items) =>
      var body := Joined(SerializeAll(items));
      assert Serialize(e) + rest == ['('] + (body + ([')'] + rest));
      TokenizeMark('(', body + ([')'] + rest));
      TokenizeAll(items, [')'] + rest);
      TokenizeMark(')', rest);
      assert TokensOfAll(items) + ([")"] + Tokenize(rest)) == TokensOfAll(items) + [")"] + Tokenize(rest);
  }

  lemma {:induction false} TokenizeAll(es: seq<SExpr>, rest: string)
    requires AllPrintable(es) && Boundary(rest)
    ensures Tokenize(Joined(SerializeAll(es)) + rest) == TokensOfAll(es) + Tokenize(rest)
    decreases es, 1
  {
    if es == [] {
      assert Joined(SerializeAll(es)) + rest == rest;
    } else if |es| == 1 {
      hide Tokenize, Joined, SerializeAll, Serialize, TokensOf, IsPrintable;
      JoinedFirst(es);
      TokenizeSerialize(es[0], rest);
      assert es[1..] == [];
      assert Serialize(es[0]) + "" == Serialize(es[0]) && TokensOf(es[0]) + [] == TokensOf(es[0]);
    } else {
      TokenizeMore(es, rest);
    }
  }

  lemma {:induction false} TokenizeMore(es: seq<SExpr>, rest: string)
    requires AllPrintable(es) && Boundary(rest) && |es| > 1
    ensures Tokenize(Joined(SerializeAll(es)) + rest) == TokensOfAll(es) + Tokenize(rest)
    decreases es, 0
  {
    hide Tokenize, Joined, SerializeAll, Serialize, TokensOf, IsPrintable;
    var body := Joined(SerializeAll(es[1..]));
    JoinedFirst(es);
    TokenizeSerialize(es[0], [' '] + (body + rest));
    TokenizeAll(es[1..], rest);
    TokenizeJoin(Serialize(es[0]), TokensOf(es[0]), body, TokensOfAll(es[1..]), rest);
  }

  lemma TokenizeJoin(first: string, toks: seq<string>, body: string, more: seq<string>, rest: string)
    requires Tokenize(first + ([' '] + (body + rest))) == toks + Tokenize([' '] + (body + rest))
    requires Tokenize(body + rest) == more + Tokenize(rest)
    ensures Tokenize(first + (" " + body) + rest) == toks + more + Tokenize(rest)
  {
    hide Tokenize;
    TokenizeMark(' ', body + rest);
    Associate(first, " ", body, rest);
    assert toks + ([] + (more + Tokenize(rest))) == toks + more + Tokenize(rest);
  }

  lemma Associate<T>(a: seq<T>, b: seq<T>, c: seq<T>, d: seq<T>)
    ensures a + (b + (c + d)) == a + (b + c) + d
  {}

  // ---- Parsing the tokens of an expression ----------------------------------------------------------

  /** The tokens of e stand at position i. */
  ghost predicate StandsAt(toks: seq<string>, i: nat, part: seq<string>) {
    i + |part| <= |toks| && toks[i..i + |part|] == part
  }

  lemma StandsSplit(toks: seq<string>, i: nat, a: seq<string>, b: seq<string>)
    requires StandsAt(toks, i, a + b)
    ensures StandsAt(toks, i, a) && StandsAt(toks, i + |a|, b) && i + |a| + |b| <= |toks|
  {
    assert toks[i..i + |a + b|][..|a|] == a;
    assert toks[i..i + |a + b|][|a|..] == b;
  }

  lemma LeafToken(e: SExpr)
    requires IsPrintable(e) && !e.List?
    ensures TokensOf(e)[0] != "" && TokensOf(e)[0] != "(" && TokensOf(e)[0] != ")" && Leaf(TokensOf(e)[0]) == e
  {
    var t := TokensOf(e)[0];
    if e.Sym? {
      assert !Ends(t[0]);
    } else {
      assert t[0] == '$' && t[1..] == e.name;
    }
  }

  /** The tokens of a printable expression parse to it when its nesting is allowed, and are refused as too deep otherwise. */
  lemma {:induction false} ParseTokens(toks: seq<string>, i: nat, e: SExpr, depth: nat, max: nat)
    requires Tokens(toks) && IsPrintable(e) && StandsAt(toks, i, TokensOf(e)) && depth <= max
    ensures ParseAt(toks, i, depth, max) == if depth + Depth(e) <= max then Ok(Parsed(e, i + |TokensOf(e)|)) else Err(TooDeep)
    decreases e, 1
  {
    if e.List? {
      var inner := TokensOfAll(e.items);
      assert TokensOf(e) == ["("] + (inner + [")"]);
      StandsSplit(toks, i, ["("], inner + [")"]);
      StandsSplit(toks, i + 1, inner, [")"]);
      TokenAt(toks, i, ["("], 0);
      ParseTokensAll(toks, i + 1, e.items, depth, max);
    } else {
      LeafToken(e);
      TokenAt(toks, i, TokensOf(e), 0);
    }
  }

  lemma {:induction false} ParseTokensAll(toks: seq<string>, i: nat, es: seq<SExpr>, depth: nat, max: nat)
    requires Tokens(toks) && AllPrintable(es) && StandsAt(toks, i, TokensOfAll(es)) && depth <= max
    requires StandsAt(toks, i + |TokensOfAll(es)|, [")"])
    ensures ParseItems(toks, i, depth, max)
         == if es == [] || depth + 1 + DepthAll(es) <= max then Ok(ParsedItems(es, i + |TokensOfAll(es)| + 1)) else Err(TooDeep)
    decreases es, 0
  {
    hide ParseAt, IsPrintable, Depth, TokensOf, StandsAt;
    var k := i + |TokensOfAll(es)|;
    TokenAt(toks, k, [")"], 0);
    if es != [] {
      var first, tail := TokensOf(es[0]), TokensOfAll(es[1..]);
      StandsSplit(toks, i, first, tail);
      FirstToken(es[0]);
      TokenAt(toks, i, first, 0);
      if depth + 1 <= max {
        ParseTokens(toks, i, es[0], depth + 1, max);
        ParseTokensAll(toks, i + |first|, es[1..], depth, max);
        assert es == [es[0]] + es[1..];
      } else {
        TooDeepAt(toks, i, depth + 1, max);
      }
    }
  }

  lemma TooDeepAt(toks: seq<string>, i: nat, depth: nat, max: nat)
    requires Tokens(toks) && i <= |toks| && depth > max
    ensures ParseAt(toks, i, depth, max) == Err(TooDeep)
  {}

  lemma TokenAt(toks: seq<string>, i: nat, part: seq<string>, j: nat)
    requires StandsAt(toks, i, part) && j < |part|
    ensures i + j < |toks| && toks[i + j] == part[j]
  {
    assert toks[i..i + |part|][j] == part[j];
  }

  lemma FirstToken(e: SExpr)
    requires IsPrintable(e)
    ensures TokensOf(e)[0] != ")"
  {
    if !e.List? {
      LeafToken(e);
    }
  }

  /** Printing and parsing gives back a printable expression exactly when its nesting is within the limit. */
  lemma RoundTrip(e: SExpr)
    requires IsPrintable(e)
    ensures Tokens(Tokenize(Serialize(e)))
    ensures ParseAt(Tokenize(Serialize(e)), 0, 0, MAX_PARSE_DEPTH)
         == if Depth(e) <= MAX_PARSE_DEPTH then Ok(Parsed(e, |Tokenize(Serialize(e))|)) else Err(TooDeep)
  {
    hide Tokenize, ParseAt, IsPrintable, Serialize, Depth, TokensOf;
    PrintedTokens(e);
    TokenizeTokens(Serialize(e));
    ParseTokens(TokensOf(e), 0, e, 0, MAX_PARSE_DEPTH);
  }

  lemma PrintedTokens(e: SExpr)
    requires IsPrintable(e)
    ensures Tokenize(Serialize(e)) == TokensOf(e)
  {
    hide IsPrintable, Serialize, TokensOf;
    TokenizeSerialize(e, "");
    assert Serialize(e) + "" == Serialize(e) && TokensOf(e) + [] == TokensOf(e);
  }

  /** A program: printed forms, each ended by a line break or other white space. */
  function PrintProgram(forms: seq<SExpr>): string {
    if forms == [] then "" else Serialize(forms[0]) + "\n" + PrintProgram(forms[1..])
  }

  lemma {:induction false} TokenizeProgram(forms: seq<SExpr>)
    requires AllPrintable(forms)
    ensures Tokenize(PrintProgram(forms)) == TokensOfAll(forms)
  {
    if forms != [] {
      var rest := "\n" + PrintProgram(forms[1..]);
      assert PrintProgram(forms) == Serialize(forms[0]) + rest;
      TokenizeSerialize(forms[0], rest);
      assert rest[1..] == PrintProgram(forms[1..]);
      TokenizeProgram(forms[1..]);
    }
  }

  lemma {:induction false} ParseProgramTokens(toks: seq<string>, i: nat, forms: seq<SExpr>, max: nat)
    requires Tokens(toks) && AllPrintable(forms) && StandsAt(toks, i, TokensOfAll(forms)) && i + |TokensOfAll(forms)| == |toks|
    ensures ParseForms(toks, i, max) == if DepthAll(forms) <= max then Ok(forms) else Err(TooDeep)
    decreases forms
  {
    hide ParseAt, IsPrintable, Depth, TokensOf, StandsAt;
    if forms != [] {
      StandsSplit(toks, i, TokensOf(forms[0]), TokensOfAll(forms[1..]));
      ParseTokens(toks, i, forms[0], 0, max);
      ParseProgramTokens(toks, i + |TokensOf(forms[0])|, forms[1..], max);
      assert forms == [forms[0]] + forms[1..];
    }
  }

  lemma ProgramRoundTrip(forms: seq<SExpr>)
    requires AllPrintable(forms)
    ensures Tokens(Tokenize(PrintProgram(forms)))
    ensures ParseForms(Tokenize(PrintProgram(forms)), 0, MAX_PARSE_DEPTH)
         == if DepthAll(forms) <= MAX_PARSE_DEPTH then Ok(forms) else Err(TooDeep)
  {
    TokenizeProgram(forms);
    TokenizeTokens(PrintProgram(forms));
    ParseProgramTokens(TokensOfAll(forms), 0, forms, MAX_PARSE_DEPTH);
  }

  /** Which error a text gives: nothing there, a closing parenthesis first, a list that is not closed. */
  lemma ParseErrors(toks: seq<string>, max: nat)
    requires Tokens(toks)
    ensures toks == [] ==> ParseAt(toks, 0, 0, max) == Err(UnexpectedEnd)
    ensures toks != [] && toks[0] == ")" ==> ParseAt(toks, 0, 0, max) == Err(UnexpectedClose)
    ensures toks == ["("] ==> ParseAt(toks, 0, 0, max) == Err(Unbalanced)
  {
    if toks == ["("] {
      assert ParseItems(toks, 1, 0, max) == Err(Unbalanced);
    }
  }

  /** A list whose items parse but which no closing parenthesis ends is unbalanced. */
  lemma {:induction false} NeverClosed(toks: seq<string>, i: nat, es: seq<SExpr>, depth: nat, max: nat)
    requires Tokens(toks) && AllPrintable(es) && StandsAt(toks, i, TokensOfAll(es)) && i + |TokensOfAll(es)| == |toks| && depth <= max
    requires es == [] || depth + 1 + DepthAll(es) <= max
    ensures ParseItems(toks, i, depth, max) == Err(Unbalanced)
    decreases es
  {
    hide ParseAt, IsPrintable, Depth, TokensOf, StandsAt;
    if es != [] {
      var first, tail := TokensOf(es[0]), TokensOfAll(es[1..]);
      StandsSplit(toks, i, first, tail);
      FirstToken(es[0]);
      TokenAt(toks, i, first, 0);
      ParseTokens(toks, i, es[0], depth + 1, max);
      NeverClosed(toks, i + |first|, es[1..], depth, max);
    }
  }

  /** Different printable expressions print differently, at any depth. */
  lemma SerializeInjective(a: SExpr, b: SExpr)
    requires IsPrintable(a) && IsPrintable(b)
    ensures Serialize(a) == Serialize(b) ==> a == b
  {
    if Serialize(a) == Serialize(b) {
      var max := Depth(a) + Depth(b);
      TokenizeSerialize(a, "");
      TokenizeSerialize(b, "");
      assert Serialize(a) + "" == Serialize(a) && Serialize(b) + "" == Serialize(b);
      assert TokensOf(a) + [] == TokensOf(a) && TokensOf(b) + [] == TokensOf(b);
      TokenizeTokens(Serialize(a));
      ParseTokens(TokensOf(a), 0, a, 0, max);
      ParseTokens(TokensOf(b), 0, b, 0, max);
    }
  }

  /** Parentheses and words. */
  ghost predicate Words(toks: seq<string>) { forall k :: 0 <= k < |toks| ==> toks[k] == "(" || toks[k] == ")" || IsWord(toks[k]) }

  lemma {:induction false} ItemsArePrintable(toks: seq<string>, i: nat, depth: nat, max: nat)
    requires Tokens(toks) && i <= |toks| && Words(toks)
    ensures var r := ParseAt(toks, i, depth, max); r.Ok? ==> IsPrintable(r.value.e) && depth + Depth(r.value.e) <= max
    decreases |toks| - i, 0
  {
    if ParseAt(toks, i, depth, max).Ok? {
      if toks[i] == "(" {
        ListsArePrintable(toks, i + 1, depth, max);
      } else {
        assert forall k :: 0 <= k < |toks[i]| - 1 ==> toks[i][1..][k] == toks[i][k + 1];
      }
    }
  }

  lemma {:induction false} ListsArePrintable(toks: seq<string>, i: nat, depth: nat, max: nat)
    requires Tokens(toks) && i <= |toks| && Words(toks)
    ensures var r := ParseItems(toks, i, depth, max);
      r.Ok? ==> AllPrintable(r.value.items) && (r.value.items == [] || depth + 1 + DepthAll(r.value.items) <= max)
    decreases |toks| - i, 1
  {
    if ParseItems(toks, i, depth, max).Ok? && toks[i] != ")" {
      ItemsArePrintable(toks, i, depth + 1, max);
      var first := ParseAt(toks, i, depth + 1, max);
      ListsArePrintable(toks, first.value.next, depth, max);
      var rest := ParseItems(toks, first.value.next, depth, max).value.items;
      assert ([first.value.e] + rest)[1..] == rest;
    }
  }

  lemma {:induction false} FormsArePrintable(toks: seq<string>, i: nat, max: nat)
    requires Tokens(toks) && i <= |toks| && Words(toks)
    ensures var r := ParseForms(toks, i, max); r.Ok? ==> AllPrintable(r.value) && DepthAll(r.value) <= max
    decreases |toks| - i
  {
    if ParseForms(toks, i, max).Ok? && i < |toks| {
      ItemsArePrintable(toks, i, 0, max);
      var first := ParseAt(toks, i, 0, max);
      FormsArePrintable(toks, first.value.next, max);
      var rest := ParseForms(toks, first.value.next, max).value;
      assert ([first.value.e] + rest)[1..] == rest;
    }
  }

  lemma {:induction false} TokensAreWords(text: string)
    ensures Words(Tokenize(text))
    decreases |text|
  {
    if text != "" {
      if text[0] == '(' || text[0] == ')' || IsSpace(text[0]) {
        TokensAreWords(text[1..]);
      } else {
        TokensAreWords(text[WordLength(text)..]);
      }
    }
  }

  /** Whatever the text, an expression or a program that is parsed can be printed and is parsed again to the same. */
  lemma ParsedRoundTrips(text: string)
    ensures Tokens(Tokenize(text))
    ensures var r := ParseAt(Tokenize(text), 0, 0, MAX_PARSE_DEPTH);
      r.Ok? ==> IsPrintable(r.value.e) && ReadsBack(r.value.e)
    ensures var r := ParseForms(Tokenize(text), 0, MAX_PARSE_DEPTH);
      r.Ok? ==> AllPrintable(r.value) && ProgramReadsBack(r.value)
  {
    hide Tokenize, ParseAt, ParseForms, IsPrintable, AllPrintable, Depth, DepthAll;
    TokenizeTokens(text);
    TokensAreWords(text);
    ItemsArePrintable(Tokenize(text), 0, 0, MAX_PARSE_DEPTH);
    FormsArePrintable(Tokenize(text), 0, MAX_PARSE_DEPTH);
    var r, forms := ParseAt(Tokenize(text), 0, 0, MAX_PARSE_DEPTH), ParseForms(Tokenize(text), 0, MAX_PARSE_DEPTH);
    if r.Ok? {
      RoundTrip(r.value.e);
    }
    if forms.Ok? {
      ProgramRoundTrip(forms.value);
    }
  }

  ghost predicate ReadsBack(e: SExpr) {
    var toks := Tokenize(Serialize(e));
    Tokens(toks) && ParseAt(toks, 0, 0, MAX_PARSE_DEPTH) == Ok(Parsed(e, |toks|))
  }

  ghost predicate ProgramReadsBack(forms: seq<SExpr>) {
    var toks := Tokenize(PrintProgram(forms));
    Tokens(toks) && ParseForms(toks, 0, MAX_PARSE_DEPTH) == Ok(forms)
  }
}
