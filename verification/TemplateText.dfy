/** The template notation: `_parse` and `_group` on text, and printing as their inverse. */
module TemplateText {
  import opened Options
  import opened Text
  import opened Regexes
  import opened Templates

  predicate StartsWith(s: string, c: char) { s != "" && s[0] == c }
  predicate EndsWith(s: string, c: char) { s != "" && s[|s| - 1] == c }

  function Strip(s: string): (r: string)
    ensures |r| <= |s|
    decreases |s|
  {
    if StartsWith(s, ' ') then Strip(s[1..])
    else if EndsWith(s, ' ') then Strip(s[..|s| - 1])
    else s
  }

  /** Characters and separators of a token list: what every nested parse makes smaller. */
  function Size(tokens: seq<string>): nat {
    if tokens == [] then 0 else |tokens[0]| + 1 + Size(tokens[1..])
  }

  lemma {:induction false} SizeOfJoin(ws: seq<string>, c: char)
    requires ws != []
    ensures Size(ws) == |Join(ws, c)| + 1
    decreases |ws|
  {
    if |ws| > 1 { SizeOfJoin(ws[1..], c); }
  }

  lemma {:induction false} SizeSplits(ws: seq<string>, k: nat)
    requires k <= |ws|
    ensures Size(ws) == Size(ws[..k]) + Size(ws[k..])
    decreases |ws|
  {
    if k > 0 {
      SizeSplits(ws[1..], k - 1);
      assert ws[..k][1..] == ws[1..][..k - 1] && ws[1..][k - 1..] == ws[k..];
    } else {
      assert ws[..0] == [] && ws[0..] == ws;
    }
  }

  /** Where a group closes: the first token that ends with the closer, whatever it opened with. */
  function GroupEnd(tokens: seq<string>, closer: char): (e: Option<nat>)
    ensures e.Some? ==> e.value < |tokens| && EndsWith(tokens[e.value], closer)
    ensures e.Some? ==> forall k :: 0 <= k < e.value ==> !EndsWith(tokens[k], closer)
    ensures e.None? ==> forall k :: 0 <= k < |tokens| ==> !EndsWith(tokens[k], closer)
  {
    if tokens == [] then None
    else if EndsWith(tokens[0], closer) then Some(0)
    else match GroupEnd(tokens[1..], closer)
      case None => None
      case Some(e) => Some(e + 1)
  }

  predicate OpensGroup(tokens: seq<string>, opener: char, closer: char) {
    tokens != [] && StartsWith(tokens[0], opener) && opener != closer && GroupEnd(tokens, closer).Some?
  }

  function GroupLength(tokens: seq<string>, closer: char): (n: nat)
    requires GroupEnd(tokens, closer).Some?
    ensures 0 < n <= |tokens|
  {
    GroupEnd(tokens, closer).value + 1
  }

  /** The text between the brackets: `" ".join(collected)[1:-1]`. */
  function GroupBody(tokens: seq<string>, opener: char, closer: char): (body: string)
    requires OpensGroup(tokens, opener, closer)
    ensures |body| + 1 < Size(tokens)
  {
    GroupFacts(tokens, opener, closer);
    var all := Join(tokens[..GroupLength(tokens, closer)], ' ');
    all[1..|all| - 1]
  }

  lemma {:induction false} JoinEnds(ws: seq<string>, c: char)
    requires ws != [] && ws[0] != "" && ws[|ws| - 1] != ""
    ensures var s := Join(ws, c); s != "" && s[0] == ws[0][0] && s[|s| - 1] == ws[|ws| - 1][|ws[|ws| - 1]| - 1]
    decreases |ws|
  {
    if |ws| > 1 {
      var rest := ws[1..];
      if rest[0] != "" {
        JoinEnds(rest, c);
      } else {
        JoinLastChar(rest, c);
      }
    }
  }

  lemma {:induction false} JoinLastChar(ws: seq<string>, c: char)
    requires ws != [] && ws[|ws| - 1] != ""
    ensures var s := Join(ws, c); s != "" && s[|s| - 1] == ws[|ws| - 1][|ws[|ws| - 1]| - 1]
    decreases |ws|
  {
    if |ws| > 1 { JoinLastChar(ws[1..], c); }
  }

  lemma GroupFacts(tokens: seq<string>, opener: char, closer: char)
    requires OpensGroup(tokens, opener, closer)
    ensures var all := Join(tokens[..GroupLength(tokens, closer)], ' ');
            |all| >= 2 && all[0] == opener && all[|all| - 1] == closer && |all| < Size(tokens)
  {
    var n := GroupLength(tokens, closer);
    var group := tokens[..n];
    JoinEnds(group, ' ');
    SizeOfJoin(group, ' ');
    SizeSplits(tokens, n);
  }

  method Group(tokens: seq<string>, start: nat, opener: char, closer: char) returns (r: Option<(string, nat)>)
    requires start < |tokens| && StartsWith(tokens[start], opener) && opener != closer
    ensures r.None? <==> GroupEnd(tokens[start..], closer).None?
    ensures r.Some? ==> r.value.0 == GroupBody(tokens[start..], opener, closer)
    ensures r.Some? ==> r.value.1 == start + GroupLength(tokens[start..], closer)
  {
    var collected := [tokens[start]];
    var index := start;
    while !EndsWith(collected[|collected| - 1], closer)
      invariant start <= index < |tokens|
      invariant collected == tokens[start..index + 1]
      invariant forall k :: start <= k < index ==> !EndsWith(tokens[k], closer)
      decreases |tokens| - index
    {
      index := index + 1;
      if index == |tokens| {
        ghost var e := GroupEnd(tokens[start..], closer);
        return None;
      }
      collected := collected + [tokens[index]];
    }
    ghost var e := GroupEnd(tokens[start..], closer);
    assert EndsWith(tokens[start..][index - start], closer);
    assert e == Some(index - start);
    assert tokens[start..][..index - start + 1] == collected;
    GroupFacts(tokens[start..], opener, closer);
    var all := Join(collected, ' ');
    r := Some((all[1..|all| - 1], index + 1));
  }

  function Prepend(n: Node, rest: Option<seq<Node>>): Option<seq<Node>> {
    match rest
    case None => None
    case Some(ns) => Some([n] + ns)
  }

  /** `_parse` as a reader of nodes; None where it would index past the last token. */
  function ParseTokens(tokens: seq<string>): Option<seq<Node>>
    decreases Size(tokens), 0
  {
    if tokens == [] then Some([])
    else
      var token := tokens[0];
      if StartsWith(token, '{') && EndsWith(token, '}') then
        Prepend(Hole(token[1..|token| - 1]), ParseTokens(tokens[1..]))
      else if StartsWith(token, '(') then
        if GroupEnd(tokens, ')').None? then None
        else
          var body := GroupBody(tokens, '(', ')');
          SizeOfJoin(Split(body, '|'), '|');
          JoinSplit(body, '|');
          SizeSplits(tokens, GroupLength(tokens, ')'));
          match ParseOptions(Split(body, '|'))
          case None => None
          case Some(os) => Prepend(Choice(os), ParseTokens(tokens[GroupLength(tokens, ')')..]))
      else if StartsWith(token, '[') then
        if GroupEnd(tokens, ']').None? then None
        else
          var body := GroupBody(tokens, '[', ']');
          SizeSplits(tokens, GroupLength(tokens, ']'));
          match ParseText(body)
          case None => None
          case Some(b) => Prepend(Optional(b), ParseTokens(tokens[GroupLength(tokens, ']')..]))
      else Prepend(Word(token), ParseTokens(tokens[1..]))
  }

  function ParseOptions(options: seq<string>): Option<seq<Template>>
    decreases Size(options), 2
  {
    if options == [] then Some([])
    else
      match ParseText(Strip(options[0]))
      case None => None
      case Some(t) => PrependTemplate(t, ParseOptions(options[1..]))
  }

  function ParseText(text: string): Option<Template>
    decreases |text| + 1, 1
  {
    JoinSplit(text, ' ');
    SizeOfJoin(Split(text, ' '), ' ');
    match ParseTokens(Split(text, ' '))
    case None => None
    case Some(ns) => Some(Template(ns))
  }

  // ---- What is read, whatever the text ----

  /** b is a with spaces before and after it. */
  predicate Padded(a: string, b: string)
    decreases |b|
  {
    b == a || (StartsWith(b, ' ') && Padded(a, b[1..])) || (EndsWith(b, ' ') && Padded(a, b[..|b| - 1]))
  }

  lemma {:induction false} StripIgnoresPadding(a: string, b: string)
    requires Padded(a, b)
    ensures Strip(b) == Strip(a)
    decreases |b|
  {
    if b == a {
    } else if StartsWith(b, ' ') && Padded(a, b[1..]) {
      StripIgnoresPadding(a, b[1..]);
    } else {
      StripIgnoresPadding(a, b[..|b| - 1]);
      StripsLast(b);
    }
  }

  lemma {:induction false} StripsLast(s: string)
    requires EndsWith(s, ' ')
    ensures Strip(s) == Strip(s[..|s| - 1])
    decreases |s|
  {
    if StartsWith(s, ' ') && |s| > 1 {
      StripsLast(s[1..]);
      assert s[1..][..|s| - 2] == s[..|s| - 1][1..];
    } else if |s| == 1 {
      assert s[1..] == s[..0];
    }
  }

  /** Spaces around the branches of a choice make no difference. */
  lemma {:induction false} PaddingIsIgnored(plain: seq<string>, padded: seq<string>)
    requires |plain| == |padded| && forall i :: 0 <= i < |plain| ==> Padded(plain[i], padded[i])
    ensures ParseOptions(padded) == ParseOptions(plain)
    decreases |plain|
  {
    if plain != [] {
      StripIgnoresPadding(plain[0], padded[0]);
      PaddingIsIgnored(plain[1..], padded[1..]);
    }
  }

  /** No word, at any depth, begins with an opening bracket: such a token is a group or nothing is read. */
  predicate OpensNoWord(t: Template)
    decreases t, 0
  {
    forall i :: 0 <= i < |t.nodes| ==> OpensNoWordNode(t.nodes[i])
  }

  predicate OpensNoWordNode(n: Node)
    decreases n
  {
    match n
    case Word(w) => !StartsWith(w, '(') && !StartsWith(w, '[') && !(StartsWith(w, '{') && EndsWith(w, '}'))
    case Hole(_) => true
    case Choice(os) => forall i :: 0 <= i < |os| ==> OpensNoWord(os[i])
    case Optional(b) => OpensNoWord(b)
  }

  lemma {:induction false} TokensOpenNoWord(tokens: seq<string>, ns: seq<Node>)
    requires ParseTokens(tokens) == Some(ns)
    ensures forall i :: 0 <= i < |ns| ==> OpensNoWordNode(ns[i])
    decreases Size(tokens), 0
  {
    if tokens != [] {
      var token := tokens[0];
      if StartsWith(token, '{') && EndsWith(token, '}') {
        TokensOpenNoWord(tokens[1..], ns[1..]);
      } else if StartsWith(token, '(') {
        var body := GroupBody(tokens, '(', ')');
        SizeOfJoin(Split(body, '|'), '|');
        JoinSplit(body, '|');
        SizeSplits(tokens, GroupLength(tokens, ')'));
        OptionsOpenNoWord(Split(body, '|'), ParseOptions(Split(body, '|')).value);
        TokensOpenNoWord(tokens[GroupLength(tokens, ')')..], ns[1..]);
      } else if StartsWith(token, '[') {
        var body := GroupBody(tokens, '[', ']');
        SizeSplits(tokens, GroupLength(tokens, ']'));
        ReadOpensNoWord(body, ParseText(body).value);
        TokensOpenNoWord(tokens[GroupLength(tokens, ']')..], ns[1..]);
      } else {
        TokensOpenNoWord(tokens[1..], ns[1..]);
      }
    }
  }

  lemma {:induction false} OptionsOpenNoWord(options: seq<string>, os: seq<Template>)
    requires ParseOptions(options) == Some(os)
    ensures |os| == |options| && forall i :: 0 <= i < |os| ==> OpensNoWord(os[i])
    decreases Size(options), 2
  {
    if options != [] {
      ReadOpensNoWord(Strip(options[0]), os[0]);
      OptionsOpenNoWord(options[1..], os[1..]);
    }
  }

  /** Whatever text is read, no token that opens a group or is a slot has been taken for a word. */
  lemma {:induction false} ReadOpensNoWord(text: string, t: Template)
    requires ParseText(text) == Some(t)
    ensures OpensNoWord(t)
    decreases |text| + 1, 1
  {
    JoinSplit(text, ' ');
    SizeOfJoin(Split(text, ' '), ' ');
    TokensOpenNoWord(Split(text, ' '), t.nodes);
  }

  // ---- The loop of `_parse`, which emits parts directly ----

  function LiteralParts(tokens: seq<string>): seq<Part> {
    if tokens == [] then [] else [Literal(tokens[0])] + LiteralParts(tokens[1..])
  }

  function After<T>(done: seq<T>, rest: Option<seq<T>>): Option<seq<T>> {
    match rest
    case None => None
    case Some(ns) => Some(done + ns)
  }

  lemma AfterNothing<T>(r: Option<seq<T>>)
    ensures After([], r) == r
  {
    if r.Some? { assert [] + r.value == r.value; }
  }

  lemma {:induction false} CompileNodesAppend(a: seq<Node>, b: seq<Node>)
    ensures CompileNodes(a + b) == CompileNodes(a) + CompileNodes(b)
    decreases |a|
  {
    if a == [] {
      assert a + b == b;
    } else {
      assert (a + b)[1..] == a[1..] + b;
      CompileNodesAppend(a[1..], b);
    }
  }

  lemma {:induction false} LiteralPartsAppend(a: seq<string>, w: string)
    ensures LiteralParts(a + [w]) == LiteralParts(a) + [Literal(w)]
    decreases |a|
  {
    if a != [] {
      assert (a + [w])[1..] == a[1..] + [w];
      LiteralPartsAppend(a[1..], w);
    } else {
      assert a + [w] == [w];
    }
  }

  lemma {:induction false} CompileOptionsAppend(a: seq<Template>, t: Template)
    ensures CompileOptions(a + [t]) == CompileOptions(a) + [Compile(t)]
    decreases |a|
  {
    if a != [] {
      assert (a + [t])[1..] == a[1..] + [t];
      CompileOptionsAppend(a[1..], t);
    } else {
      assert a + [t] == [t];
    }
  }

  lemma AfterNode(done: seq<Node>, n: Node, rest: Option<seq<Node>>)
    ensures After(done, Prepend(n, rest)) == After(done + [n], rest)
    ensures CompileNodes(done + [n]) == CompileNodes(done) + [CompileNode(n)]
  {
    if rest.Some? { assert done + ([n] + rest.value) == (done + [n]) + rest.value; }
    CompileNodesAppend(done, [n]);
    assert CompileNodes([n]) == [CompileNode(n)];
  }

  function PartsOf(t: Option<Template>): Option<seq<Part>> {
    match t
    case None => None
    case Some(t) => Some(Parts(t))
  }

  /** One bracketed group: its part, and the index of the token after it. */
  method ParseGroup(tokens: seq<string>, i: nat) returns (r: Option<(Part, nat)>, ghost n: Node)
    requires i < |tokens| && (StartsWith(tokens[i], '(') || StartsWith(tokens[i], '['))
    requires !(StartsWith(tokens[i], '{') && EndsWith(tokens[i], '}'))
    ensures r.None? ==> ParseTokens(tokens[i..]).None?
    ensures r.Some? ==> i < r.value.1 <= |tokens| && r.value.0 == CompileNode(n)
    ensures r.Some? ==> ParseTokens(tokens[i..]) == Prepend(n, ParseTokens(tokens[r.value.1..]))
    decreases Size(tokens), 0
  {
    n := Word("");
    ghost var here := tokens[i..];
    assert here[0] == tokens[i];
    SizeSplits(tokens, i);
    if StartsWith(tokens[i], '(') {
      var g := Group(tokens, i, '(', ')');
      if g.None? { return None, n; }
      var (body, next) := g.value;
      assert here[GroupLength(here, ')')..] == tokens[next..];
      var rs := ParseBranches(body);
      if rs.None? { return None, n; }
      n := Choice(ParseOptions(Split(body, '|')).value);
      r := Some((Part(Alt(rs.value), false), next));
    } else {
      var g := Group(tokens, i, '[', ']');
      if g.None? { return None, n; }
      var (body, next) := g.value;
      assert here[GroupLength(here, ']')..] == tokens[next..];
      var inner := ParseLoop(body);
      if inner.None? { return None, n; }
      var out := JoinLoop(inner.value);
      n := Optional(ParseText(body).value);
      r := Some((Part(out, true), next));
    }
  }

  /** Nodes read so far, then whatever the tokens from `i` on read as. */
  ghost predicate Progress(tokens: seq<string>, i: nat, done: seq<Node>)
    requires i <= |tokens|
  {
    ParseTokens(tokens) == After(done, ParseTokens(tokens[i..]))
  }

  lemma ProgressStart(tokens: seq<string>)
    ensures Progress(tokens, 0, [])
  {
    AfterNothing(ParseTokens(tokens));
    assert tokens[0..] == tokens;
  }

  lemma ProgressStep(tokens: seq<string>, i: nat, next: nat, done: seq<Node>, n: Node)
    requires i <= next <= |tokens| && Progress(tokens, i, done)
    requires ParseTokens(tokens[i..]) == Prepend(n, ParseTokens(tokens[next..]))
    ensures Progress(tokens, next, done + [n])
    ensures CompileNodes(done + [n]) == CompileNodes(done) + [CompileNode(n)]
  {
    AfterNode(done, n, ParseTokens(tokens[next..]));
  }

  lemma ProgressLeaf(tokens: seq<string>, i: nat)
    requires i < |tokens|
    ensures StartsWith(tokens[i], '{') && EndsWith(tokens[i], '}') ==>
      ParseTokens(tokens[i..]) == Prepend(Hole(tokens[i][1..|tokens[i]| - 1]), ParseTokens(tokens[i + 1..]))
    ensures
      var slot := StartsWith(tokens[i], '{') && EndsWith(tokens[i], '}');
      !slot && !StartsWith(tokens[i], '(') && !StartsWith(tokens[i], '[') ==>
        ParseTokens(tokens[i..]) == Prepend(Word(tokens[i]), ParseTokens(tokens[i + 1..]))
  {
    assert tokens[i..][0] == tokens[i] && tokens[i..][1..] == tokens[i + 1..];
  }

  lemma ProgressEnd(tokens: seq<string>, done: seq<Node>)
    requires Progress(tokens, |tokens|, done)
    ensures ParseTokens(tokens) == Some(done)
  {
    assert tokens[|tokens|..] == [] && done + [] == done;
  }

  /** A slot or a group: its part, and the index of the token after it. */
  method ParseBracketed(tokens: seq<string>, i: nat) returns (r: Option<(Part, nat)>, ghost n: Node)
    requires i < |tokens|
    requires (StartsWith(tokens[i], '{') && EndsWith(tokens[i], '}')) ||
      StartsWith(tokens[i], '(') || StartsWith(tokens[i], '[')
    ensures r.None? ==> ParseTokens(tokens[i..]).None?
    ensures r.Some? ==> i < r.value.1 <= |tokens| && r.value.0 == CompileNode(n)
    ensures r.Some? ==> ParseTokens(tokens[i..]) == Prepend(n, ParseTokens(tokens[r.value.1..]))
    decreases Size(tokens), 1
  {
    var token := tokens[i];
    if StartsWith(token, '{') && EndsWith(token, '}') {
      ProgressLeaf(tokens, i);
      n := Hole(token[1..|token| - 1]);
      r := Some((Part(Capture(token[1..|token| - 1]), false), i + 1));
    } else {
      r, n := ParseGroup(tokens, i);
    }
  }

  /** None stands for the IndexError an unclosed bracket raises. */
  method ParseLoop(template: string) returns (r: Option<seq<Part>>)
    ensures r == PartsOf(ParseText(template))
    decreases |template| + 1, 3
  {
    var tokens := Split(template, ' ');
    JoinSplit(template, ' ');
    SizeOfJoin(tokens, ' ');
    var nodes;
    ghost var done;
    nodes, done := ParseAll(tokens);
    r := match nodes case None => None case Some(parts) => Some(KeepAnAnchor(parts));
  }

  method ParseAll(tokens: seq<string>) returns (r: Option<seq<Part>>, ghost done: seq<Node>)
    ensures r.None? ==> ParseTokens(tokens).None?
    ensures r.Some? ==> ParseTokens(tokens) == Some(done) && r.value == CompileNodes(done)
    decreases Size(tokens), 2
  {
    var parts: seq<Part> := [];
    var literal: seq<string> := [];
    var i := 0;
    done := [];
    ProgressStart(tokens);
    while i < |tokens|
      invariant 0 <= i <= |tokens| && Progress(tokens, i, done)
      invariant CompileNodes(done) == parts + LiteralParts(literal)
    {
      var token := tokens[i];
      if (StartsWith(token, '{') && EndsWith(token, '}')) || StartsWith(token, '(') || StartsWith(token, '[') {
        parts, literal := parts + LiteralParts(literal), [];
        ghost var n;
        var g;
        g, n := ParseBracketed(tokens, i);
        if g.None? { return None, done; }
        ProgressStep(tokens, i, g.value.1, done, n);
        assert parts + [g.value.0] + LiteralParts([]) == parts + LiteralParts([]) + [g.value.0];
        parts, i, done := parts + [g.value.0], g.value.1, done + [n];
      } else {
        ProgressLeaf(tokens, i);
        ProgressStep(tokens, i, i + 1, done, Word(token));
        LiteralPartsAppend(literal, token);
        literal, i, done := literal + [token], i + 1, done + [Word(token)];
      }
    }
    ProgressEnd(tokens, done);
    r := Some(parts + LiteralParts(literal));
  }

  function PrependTemplate(t: Template, rest: Option<seq<Template>>): Option<seq<Template>> {
    match rest
    case None => None
    case Some(ts) => Some([t] + ts)
  }

  lemma AfterTemplate(done: seq<Template>, t: Template, rest: Option<seq<Template>>)
    ensures After(done, PrependTemplate(t, rest)) == After(done + [t], rest)
  {
    if rest.Some? { assert done + ([t] + rest.value) == (done + [t]) + rest.value; }
  }

  lemma NoOption(done: seq<Template>, options: seq<string>)
    requires options != [] && ParseText(Strip(options[0])).None?
    ensures After(done, ParseOptions(options)).None?
  {}

  /** The alternatives of one group, each parsed and joined. */
  method ParseBranches(body: string) returns (r: Option<seq<Regex>>)
    ensures r == match ParseOptions(Split(body, '|')) case None => None case Some(os) => Some(CompileOptions(os))
    decreases |body| + 1, 4
  {
    var options := Split(body, '|');
    JoinSplit(body, '|');
    SizeOfJoin(options, '|');
    var rs: seq<Regex> := [];
    ghost var done: seq<Template> := [];
    AfterNothing(ParseOptions(options));
    assert options[0..] == options;
    for k := 0 to |options|
      invariant ParseOptions(options) == After(done, ParseOptions(options[k..]))
      invariant rs == CompileOptions(done)
    {
      ghost var here := options[k..];
      assert here[0] == options[k] && here[1..] == options[k + 1..];
      SizeSplits(options, k);
      var inner := ParseLoop(Strip(options[k]));
      if inner.None? {
        NoOption(done, here);
        return None;
      }
      var out := JoinLoop(inner.value);
      ghost var t := ParseText(Strip(options[k])).value;
      CompileOptionsAppend(done, t);
      AfterTemplate(done, t, ParseOptions(here[1..]));
      rs, done := rs + [out], done + [t];
    }
    assert options[|options|..] == [];
    assert done + [] == done;
    r := Some(rs);
  }
}
