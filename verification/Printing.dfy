/** Printing templates, and exactly when the printed text is read back. */
module Printing {
  import opened Options
  import opened Text
  import opened Templates
  import opened TemplateText

  function Show(t: Template): string
    decreases t, 0
  {
    Join(ShowNodes(t.nodes), ' ')
  }

  function ShowNodes(ns: seq<Node>): seq<string>
    decreases ns
  {
    if ns == [] then [] else ShowNode(ns[0]) + ShowNodes(ns[1..])
  }

  function ShowNode(n: Node): seq<string>
    decreases n
  {
    match n
    case Word(w) => [w]
    case Hole(k) => ["{" + k + "}"]
    case Choice(os) => Split("(" + Join(ShowOptions(os), '|') + ")", ' ')
    case Optional(b) => Split("[" + Show(b) + "]", ' ')
  }

  function ShowOptions(os: seq<Template>): (r: seq<string>)
    ensures |r| == |os|
    decreases os
  {
    if os == [] then [] else [Show(os[0])] + ShowOptions(os[1..])
  }

  predicate Plain(w: string) {
    w != "" && forall c :: c in w ==> c !in " ()[]{}|"
  }

  // ---- Which templates print to text that closes where it should ----

  /** Words and slot names without template syntax, at every depth. */
  predicate Lexical(t: Template)
    decreases t, 0
  {
    forall i :: 0 <= i < |t.nodes| ==> LexicalNode(t.nodes[i])
  }

  predicate LexicalNode(n: Node)
    decreases n
  {
    match n
    case Word(w) => Plain(w)
    case Hole(k) => Plain(k)
    case Choice(os) => forall i :: 0 <= i < |os| ==> Lexical(os[i])
    case Optional(b) => Lexical(b)
  }

  /** A choice with several branches somewhere, which prints as a bar. */
  predicate Forks(t: Template)
    decreases t, 0
  {
    exists i :: 0 <= i < |t.nodes| && ForksNode(t.nodes[i])
  }

  predicate ForksNode(n: Node)
    decreases n
  {
    match n
    case Choice(os) => |os| > 1 || exists i :: 0 <= i < |os| && Forks(os[i])
    case Optional(b) => Forks(b)
    case _ => false
  }

  /** A token before the last already ends with the closer. */
  predicate EndsEarly(g: seq<string>, closer: char) {
    exists i :: 0 <= i < |g| - 1 && EndsWith(g[i], closer)
  }

  /** No group ends before its last token, no branch of a choice prints a bar, and nothing is empty. */
  predicate Closes(t: Template)
    decreases t, 0
  {
    t.nodes != [] && forall i :: 0 <= i < |t.nodes| ==> ClosesNode(t.nodes[i])
  }

  predicate ClosesNode(n: Node)
    decreases n, 1
  {
    match n
    case Choice(os) =>
      os != [] && !EndsEarly(ShowNode(n), ')') && forall i :: 0 <= i < |os| ==> Closes(os[i]) && !Forks(os[i])
    case Optional(b) => !EndsEarly(ShowNode(n), ']') && Closes(b)
    case _ => true
  }

  // ---- Characters and tokens of printed templates ----

  lemma {:induction false} CharOfJoin(ws: seq<string>, c: char, d: char)
    requires d in Join(ws, c)
    ensures d == c || exists i :: 0 <= i < |ws| && d in ws[i]
    decreases |ws|
  {
    if |ws| == 1 {
      assert d in ws[0];
    } else if |ws| > 1 && d !in ws[0] && d != c {
      assert d in Join(ws[1..], c);
      CharOfJoin(ws[1..], c, d);
      var i :| 0 <= i < |ws[1..]| && d in ws[1..][i];
      assert d in ws[i + 1];
    }
  }

  lemma {:induction false} CharOfSplit(s: string, c: char, i: nat, d: char)
    requires i < |Split(s, c)| && d in Split(s, c)[i]
    ensures d in s && d != c
    decreases |s|
  {
    if s[0] == c {
      CharOfSplit(s[1..], c, i - 1, d);
    } else if i > 0 || d in Split(s[1..], c)[0] {
      CharOfSplit(s[1..], c, i, d);
    }
  }

  lemma {:induction false} SplitSnoc(y: string, d: char, c: char)
    requires d != c
    ensures var ws, n := Split(y, c), |Split(y, c)| - 1; Split(y + [d], c) == ws[..n] + [ws[n] + [d]]
    decreases |y|
  {
    var t := y + [d];
    if y == "" {
      assert t == [d] && t[1..] == "";
      assert Split("", c) == [""] && [d] + "" == "" + [d];
      assert Split(t, c) == [""][..0] + ["" + [d]];
    } else {
      assert t[1..] == y[1..] + [d];
      SplitSnoc(y[1..], d, c);
      var ws := Split(y[1..], c);
      var n := |ws| - 1;
      if y[0] == c {
        assert ([""] + ws)[..n + 1] == [""] + ws[..n];
      } else if n > 0 {
        assert ([[y[0]] + ws[0]] + ws[1..])[..n] == [[y[0]] + ws[0]] + ws[..n][1..];
        assert (ws[..n] + [ws[n] + [d]])[1..] == ws[..n][1..] + [ws[n] + [d]];
      } else {
        assert [y[0]] + (ws[0] + [d]) == ([y[0]] + ws[0]) + [d];
      }
    }
  }

  lemma {:induction false} ShownBy(ns: seq<Node>, i: nat) returns (k: nat, j: nat)
    requires i < |ShowNodes(ns)|
    ensures k < |ns| && j < |ShowNode(ns[k])| && ShowNode(ns[k])[j] == ShowNodes(ns)[i]
    decreases |ns|
  {
    var n := |ShowNode(ns[0])|;
    if i < n {
      k, j := 0, i;
    } else {
      k, j := ShownBy(ns[1..], i - n);
      k := k + 1;
    }
  }

  lemma {:induction false} ShowOptionsAt(os: seq<Template>)
    ensures forall k :: 0 <= k < |os| ==> ShowOptions(os)[k] == Show(os[k])
  {
    if os != [] { ShowOptionsAt(os[1..]); }
  }

  lemma {:induction false} ShownLast(ns: seq<Node>)
    requires ns != [] && ShowNode(ns[|ns| - 1]) != []
    ensures ShowNodes(ns) != []
    ensures var g := ShowNode(ns[|ns| - 1]); ShowNodes(ns)[|ShowNodes(ns)| - 1] == g[|g| - 1]
    decreases |ns|
  {
    if |ns| > 1 {
      ShownLast(ns[1..]);
      LastOfTwo(ShowNode(ns[0]), ShowNodes(ns[1..]));
    } else {
      ShowOne(ns);
    }
  }

  lemma LastOfTwo(a: seq<string>, b: seq<string>)
    requires b != []
    ensures a + b != [] && (a + b)[|a + b| - 1] == b[|b| - 1]
  {}

  lemma ShowOne(ns: seq<Node>)
    requires |ns| == 1
    ensures ShowNodes(ns) == ShowNode(ns[0])
  {
    assert ShowNodes(ns[1..]) == [];
  }

  lemma BracketTokens(opener: char, body: string, closer: char)
    requires opener != ' ' && closer != ' '
    ensures var g := Split([opener] + body + [closer], ' ');
            && g[0] != "" && g[|g| - 1] != "" && forall j :: 0 <= j < |g| ==> ' ' !in g[j]
  {
    var x := [opener] + body;
    SplitSnoc(x, closer, ' ');
    var g := Split(x + [closer], ' ');
    assert (x + [closer])[0] == opener;
    forall j | 0 <= j < |g| ensures ' ' !in g[j] {
      if ' ' in g[j] { CharOfSplit(x + [closer], ' ', j, ' '); }
    }
  }

  lemma {:induction false} JoinHas(ws: seq<string>, c: char, d: char, i: nat)
    requires i < |ws| && d in ws[i]
    ensures d in Join(ws, c)
    decreases |ws|
  {
    if |ws| > 1 {
      if i > 0 { JoinHas(ws[1..], c, d, i - 1); }
      assert d in ws[0] || d in Join(ws[1..], c);
    }
  }

  lemma ShownNodeTokens(n: Node)
    requires LexicalNode(n)
    ensures ShowNode(n) != [] && ShowNode(n)[0] != "" && ShowNode(n)[|ShowNode(n)| - 1] != ""
    ensures forall j :: 0 <= j < |ShowNode(n)| ==> ' ' !in ShowNode(n)[j]
  {
    match n
    case Word(w) =>
    case Hole(k) =>
    case Choice(os) => BracketTokens('(', Join(ShowOptions(os), '|'), ')');
    case Optional(b) => BracketTokens('[', Show(b), ']');
  }

  /** No printed token is empty at the ends or holds a space, so the text splits back into the same tokens. */
  lemma ShownTokens(t: Template)
    requires Lexical(t) && t.nodes != []
    ensures ShowNodes(t.nodes) != []
    ensures forall i :: 0 <= i < |ShowNodes(t.nodes)| ==> ' ' !in ShowNodes(t.nodes)[i]
    ensures ShowNodes(t.nodes)[0] != "" && ShowNodes(t.nodes)[|ShowNodes(t.nodes)| - 1] != ""
  {
    var ns := t.nodes;
    forall i | 0 <= i < |ShowNodes(ns)| ensures ' ' !in ShowNodes(ns)[i] {
      var k, j := ShownBy(ns, i);
      ShownNodeTokens(ns[k]);
    }
    ShownNodeTokens(ns[0]);
    ShownNodeTokens(ns[|ns| - 1]);
    ShownLast(ns);
  }

  lemma ShownIsStripped(t: Template)
    requires Lexical(t) && t.nodes != []
    ensures Strip(Show(t)) == Show(t)
  {
    var tokens := ShowNodes(t.nodes);
    ShownTokens(t);
    JoinEnds(tokens, ' ');
    assert tokens[0][0] in tokens[0] && tokens[|tokens| - 1][|tokens[|tokens| - 1]| - 1] in tokens[|tokens| - 1];
  }

  /** A printed template has a bar exactly when it forks. */
  lemma {:induction false} BarIffForks(t: Template)
    requires Lexical(t)
    ensures '|' in Show(t) <==> Forks(t)
    decreases t, 0
  {
    if '|' in Show(t) {
      CharOfJoin(ShowNodes(t.nodes), ' ', '|');
      var i :| 0 <= i < |ShowNodes(t.nodes)| && '|' in ShowNodes(t.nodes)[i];
      var k, j := ShownBy(t.nodes, i);
      NodeBar(t.nodes[k]);
    }
    if k :| 0 <= k < |t.nodes| && ForksNode(t.nodes[k]) {
      NodeBar(t.nodes[k]);
      var j :| 0 <= j < |ShowNode(t.nodes[k])| && '|' in ShowNode(t.nodes[k])[j];
      var i := ShownAt(t.nodes, k, j);
      JoinHas(ShowNodes(t.nodes), ' ', '|', i);
    }
  }

  lemma {:induction false} ShownAt(ns: seq<Node>, k: nat, j: nat) returns (i: nat)
    requires k < |ns| && j < |ShowNode(ns[k])|
    ensures i < |ShowNodes(ns)| && ShowNodes(ns)[i] == ShowNode(ns[k])[j]
    decreases |ns|
  {
    if k == 0 {
      i := j;
    } else {
      i := ShownAt(ns[1..], k - 1, j);
      i := i + |ShowNode(ns[0])|;
    }
  }

  lemma {:induction false} NodeBar(n: Node)
    requires LexicalNode(n)
    ensures (exists j :: 0 <= j < |ShowNode(n)| && '|' in ShowNode(n)[j]) <==> ForksNode(n)
    decreases n
  {
    match n
    case Word(w) =>
    case Hole(k) =>
    case Choice(os) =>
      var inner := Join(ShowOptions(os), '|');
      SplitHas("(" + inner + ")", ' ', '|');
      assert '|' in "(" + inner + ")" <==> '|' in inner;
      OptionsBar(os);
      assert ShowNode(n) == Split("(" + inner + ")", ' ');
      assert ForksNode(n) <==> '|' in inner;
    case Optional(b) =>
      var inner := Show(b);
      SplitHas("[" + inner + "]", ' ', '|');
      assert '|' in "[" + inner + "]" <==> '|' in inner;
      BarIffForks(b);
      assert ShowNode(n) == Split("[" + inner + "]", ' ');
      assert ForksNode(n) <==> '|' in inner;
  }

  lemma {:induction false} OptionsBar(os: seq<Template>)
    requires forall i :: 0 <= i < |os| ==> Lexical(os[i])
    ensures '|' in Join(ShowOptions(os), '|') <==> |os| > 1 || exists i :: 0 <= i < |os| && Forks(os[i])
    decreases os
  {
    ShowOptionsAt(os);
    forall i | 0 <= i < |os| ensures '|' in ShowOptions(os)[i] <==> Forks(os[i]) { BarIffForks(os[i]); }
    if '|' in Join(ShowOptions(os), '|') && |os| <= 1 {
      if |os| == 1 { assert ShowOptions(os)[0] == Join(ShowOptions(os), '|'); }
    }
    if i :| 0 <= i < |os| && Forks(os[i]) { JoinHas(ShowOptions(os), '|', '|', i); }
    if |os| > 1 { assert (ShowOptions(os)[0] + ['|'])[|ShowOptions(os)[0]|] == '|'; }
  }

  /** A character other than the separator is in the text exactly when it is in a field. */
  lemma {:induction false} SplitHas(s: string, c: char, d: char)
    requires c != d
    ensures d in s <==> exists j :: 0 <= j < |Split(s, c)| && d in Split(s, c)[j]
  {
    JoinSplit(s, c);
    if d in s {
      CharOfJoin(Split(s, c), c, d);
    }
    if j :| 0 <= j < |Split(s, c)| && d in Split(s, c)[j] { CharOfSplit(s, c, j, d); }
  }

  // ---- The parser at a printed group ----

  lemma {:induction false} SizeAppend(a: seq<string>, b: seq<string>)
    ensures Size(a + b) == Size(a) + Size(b)
  {
    SizeSplits(a + b, |a|);
    assert (a + b)[..|a|] == a && (a + b)[|a|..] == b;
  }

  /** What the parser takes as a bracketed group: the whole of it, or less when a token ends it early. */
  lemma GroupRead(opener: char, body: string, closer: char, rest: seq<string>)
    requires opener != ' ' && closer != ' ' && opener != closer
    ensures var g := Split([opener] + body + [closer], ' ');
      && StartsWith(g[0], opener) && OpensGroup(g + rest, opener, closer)
      && (if EndsEarly(g, closer) then |GroupBody(g + rest, opener, closer)| < |body|
          else GroupBody(g + rest, opener, closer) == body && (g + rest)[GroupLength(g + rest, closer)..] == rest)
  {
    var x := [opener] + body;
    var g := Split(x + [closer], ' ');
    assert x + [closer] == [opener] + body + [closer];
    GroupShape(opener, body, closer);
    GroupTaken(g, rest, closer);
    var all := g + rest;
    var n := GroupLength(all, closer);
    GroupFacts(all, opener, closer);
    JoinSplit(x + [closer], ' ');
    assert all[..n] == g[..n];
    if n == |g| {
      assert g[..n] == g;
      assert (x + [closer])[1..|body| + 1] == body;
    } else {
      SizeOfJoin(g[..n], ' ');
      SizeOfJoin(g, ' ');
      SizeSplits(g, n);
      assert Size(g[n..]) > 0;
    }
  }

  lemma GroupShape(opener: char, body: string, closer: char)
    requires opener != ' ' && closer != ' ' && opener != closer
    ensures var g := Split([opener] + body + [closer], ' ');
      StartsWith(g[0], opener) && EndsWith(g[|g| - 1], closer)
  {
    var x := [opener] + body;
    assert x[1..] == body && x + [closer] == [opener] + body + [closer];
    SplitSnoc(x, closer, ' ');
    assert (x + [closer])[0] == opener;
  }

  lemma GroupTaken(g: seq<string>, rest: seq<string>, closer: char)
    requires g != [] && EndsWith(g[|g| - 1], closer)
    ensures GroupEnd(g + rest, closer).Some? && GroupLength(g + rest, closer) <= |g|
    ensures GroupLength(g + rest, closer) == |g| <==> !EndsEarly(g, closer)
    ensures !EndsEarly(g, closer) ==> (g + rest)[GroupLength(g + rest, closer)..] == rest
  {
    var all := g + rest;
    assert all[|g| - 1] == g[|g| - 1];
    var e := GroupEnd(all, closer).value;
    assert e < |g| - 1 ==> g[e] == all[e];
    assert forall i :: 0 <= i < |g| - 1 ==> all[i] == g[i];
  }

  // ---- A template prints no longer than the text it was read from ----

  lemma {:induction false} ReadTokensShrink(tokens: seq<string>, ns: seq<Node>)
    requires ParseTokens(tokens) == Some(ns)
    ensures Size(ShowNodes(ns)) <= Size(tokens) && (tokens != [] ==> ns != [])
    decreases Size(tokens), 1
  {
    if tokens != [] {
      var token := tokens[0];
      if StartsWith(token, '{') && EndsWith(token, '}') {
        ReadTokensShrink(tokens[1..], ns[1..]);
        SlotShrinks(token, tokens[1..], ns);
      } else if StartsWith(token, '(') {
        ReadChoiceShrinks(tokens, ns);
      } else if StartsWith(token, '[') {
        ReadOptionalShrinks(tokens, ns);
      } else {
        ReadTokensShrink(tokens[1..], ns[1..]);
        SizeAppend(ShowNode(ns[0]), ShowNodes(ns[1..]));
      }
    }
  }

  lemma SlotShrinks(token: string, rest: seq<string>, ns: seq<Node>)
    requires StartsWith(token, '{') && EndsWith(token, '}')
    requires ns != [] && ns[0] == Hole(token[1..|token| - 1]) && Size(ShowNodes(ns[1..])) <= Size(rest)
    ensures Size(ShowNodes(ns)) <= |token| + 1 + Size(rest)
  {
    BracesShown(token);
    SizeAppend(ShowNode(ns[0]), ShowNodes(ns[1..]));
    SizeOfOne(token);
  }

  lemma BracesShown(token: string)
    requires StartsWith(token, '{') && EndsWith(token, '}')
    ensures |token| >= 2 && ShowNode(Hole(token[1..|token| - 1])) == [token]
  {
    assert "{" + token[1..|token| - 1] + "}" == token;
  }

  lemma SizeOfOne(token: string)
    ensures Size([token]) == |token| + 1
  {
    assert [token][1..] == [];
  }

  lemma {:induction false} ReadOptionalShrinks(tokens: seq<string>, ns: seq<Node>)
    requires ParseTokens(tokens) == Some(ns) && tokens != [] && StartsWith(tokens[0], '[')
    ensures Size(ShowNodes(ns)) <= Size(tokens) && ns != []
    decreases Size(tokens), 0
  {
    var n, body := GroupLength(tokens, ']'), GroupBody(tokens, '[', ']');
    var b := ParseText(body).value;
    SizeSplits(tokens, n);
    ReadTokensShrink(tokens[n..], ns[1..]);
    ReadTextShrinks(body, b);
    GroupSize(tokens, '[', ']');
    BracketSize('[', Show(b), ']');
    SizeAppend(ShowNode(ns[0]), ShowNodes(ns[1..]));
  }

  lemma {:induction false} ReadChoiceShrinks(tokens: seq<string>, ns: seq<Node>)
    requires ParseTokens(tokens) == Some(ns) && tokens != [] && StartsWith(tokens[0], '(')
    ensures Size(ShowNodes(ns)) <= Size(tokens) && ns != []
    decreases Size(tokens), 0
  {
    var n, body := GroupLength(tokens, ')'), GroupBody(tokens, '(', ')');
    var pieces := Split(body, '|');
    var os := ParseOptions(pieces).value;
    SizeSplits(tokens, n);
    ReadTokensShrink(tokens[n..], ns[1..]);
    JoinSplit(body, '|');
    SizeOfJoin(pieces, '|');
    ReadOptionsShrink(pieces, os);
    SizeOfJoin(ShowOptions(os), '|');
    GroupSize(tokens, '(', ')');
    BracketSize('(', Join(ShowOptions(os), '|'), ')');
    SizeAppend(ShowNode(ns[0]), ShowNodes(ns[1..]));
  }

  lemma {:induction false} ReadTextShrinks(text: string, t: Template)
    requires ParseText(text) == Some(t)
    ensures |Show(t)| <= |text| && t.nodes != []
    decreases |text| + 1, 2
  {
    var tokens := Split(text, ' ');
    JoinSplit(text, ' ');
    SizeOfJoin(tokens, ' ');
    ReadTokensShrink(tokens, t.nodes);
    ShownNotEmpty(t.nodes);
    SizeOfJoin(ShowNodes(t.nodes), ' ');
  }

  lemma {:induction false} ReadOptionsShrink(options: seq<string>, os: seq<Template>)
    requires ParseOptions(options) == Some(os)
    ensures |os| == |options| && Size(ShowOptions(os)) <= Size(options)
    decreases Size(options), 3
  {
    if options != [] {
      ReadTextShrinks(Strip(options[0]), os[0]);
      ReadOptionsShrink(options[1..], os[1..]);
    }
  }

  lemma ShownNotEmpty(ns: seq<Node>)
    requires ns != []
    ensures ShowNodes(ns) != []
  {
    assert ShowNode(ns[0]) != [];
  }

  /** The tokens of a group are its body, two brackets and a separator. */
  lemma GroupSize(tokens: seq<string>, opener: char, closer: char)
    requires OpensGroup(tokens, opener, closer)
    ensures Size(tokens[..GroupLength(tokens, closer)]) == |GroupBody(tokens, opener, closer)| + 3
  {
    GroupFacts(tokens, opener, closer);
    SizeOfJoin(tokens[..GroupLength(tokens, closer)], ' ');
  }

  lemma BracketSize(opener: char, body: string, closer: char)
    ensures Size(Split([opener] + body + [closer], ' ')) == |body| + 3
  {
    JoinSplit([opener] + body + [closer], ' ');
    SizeOfJoin(Split([opener] + body + [closer], ' '), ' ');
  }

  // ---- What closes is read back ----

  lemma {:induction false} NodeReads(n: Node, rest: seq<string>)
    requires LexicalNode(n) && ClosesNode(n)
    ensures ParseTokens(ShowNode(n) + rest) == Prepend(n, ParseTokens(rest))
    decreases n, 1
  {
    var all := ShowNode(n) + rest;
    match n
    case Word(w) =>
      assert w[0] in w && '(' in " ()[]{}|" && '[' in " ()[]{}|" && '{' in " ()[]{}|";
      assert all[0] == w && all[1..] == rest;
    case Hole(k) =>
      assert all[0] == "{" + k + "}" && all[0][1..|all[0]| - 1] == k && all[1..] == rest;
    case Choice(os) =>
      GroupRead('(', Join(ShowOptions(os), '|'), ')', rest);
      OptionsRead(os);
    case Optional(b) =>
      GroupRead('[', Show(b), ']', rest);
      TextReads(b);
  }

  lemma {:induction false} NodesRead(ns: seq<Node>)
    requires forall i :: 0 <= i < |ns| ==> LexicalNode(ns[i]) && ClosesNode(ns[i])
    ensures ParseTokens(ShowNodes(ns)) == Some(ns)
    decreases ns, 2
  {
    if ns != [] {
      NodesRead(ns[1..]);
      NodeReads(ns[0], ShowNodes(ns[1..]));
      assert [ns[0]] + ns[1..] == ns;
    }
  }

  lemma {:induction false} OptionsRead(os: seq<Template>)
    requires os != [] && forall i :: 0 <= i < |os| ==> Lexical(os[i]) && Closes(os[i]) && !Forks(os[i])
    ensures ParseOptions(Split(Join(ShowOptions(os), '|'), '|')) == Some(os)
    decreases os, 2
  {
    ShowOptionsAt(os);
    forall k | 0 <= k < |os| ensures '|' !in ShowOptions(os)[k] { BarIffForks(os[k]); }
    SplitJoin(ShowOptions(os), '|');
    ListReads(os);
  }

  lemma {:induction false} ListReads(os: seq<Template>)
    requires forall i :: 0 <= i < |os| ==> Lexical(os[i]) && Closes(os[i])
    ensures ParseOptions(ShowOptions(os)) == Some(os)
    decreases os, 1
  {
    if os != [] {
      var shown := ShowOptions(os);
      assert shown[0] == Show(os[0]) && shown[1..] == ShowOptions(os[1..]) && [os[0]] + os[1..] == os;
      ShownIsStripped(os[0]);
      TextReads(os[0]);
      ListReads(os[1..]);
    }
  }

  lemma {:induction false} TextReads(t: Template)
    requires Lexical(t) && Closes(t)
    ensures ParseText(Show(t)) == Some(t)
    decreases t, 0
  {
    ShownTokens(t);
    SplitJoin(ShowNodes(t.nodes), ' ');
    NodesRead(t.nodes);
  }

  // ---- What is read back closes ----

  lemma {:induction false} NodeMustClose(n: Node, rest: seq<string>, ns: seq<Node>)
    requires LexicalNode(n) && ParseTokens(ShowNode(n) + rest) == Some([n] + ns)
    ensures ClosesNode(n) && ParseTokens(rest) == Some(ns)
    decreases n, 1
  {
    var all := ShowNode(n) + rest;
    assert ([n] + ns)[1..] == ns;
    match n
    case Word(w) =>
      assert w[0] in w && '(' in " ()[]{}|" && '[' in " ()[]{}|" && '{' in " ()[]{}|";
      assert all[0] == w && all[1..] == rest;
    case Hole(k) =>
      assert all[0] == "{" + k + "}" && all[0][1..|all[0]| - 1] == k && all[1..] == rest;
    case Choice(os) => ChoiceMustClose(os, rest, ns);
    case Optional(b) => OptionalMustClose(b, rest, ns);
  }

  lemma {:induction false} OptionalMustClose(b: Template, rest: seq<string>, ns: seq<Node>)
    requires Lexical(b) && ParseTokens(ShowNode(Optional(b)) + rest) == Some([Optional(b)] + ns)
    ensures ClosesNode(Optional(b)) && ParseTokens(rest) == Some(ns)
    decreases b, 3
  {
    var all := ShowNode(Optional(b)) + rest;
    GroupRead('[', Show(b), ']', rest);
    var body := GroupBody(all, '[', ']');
    OptionalWasRead(all, b, ns);
    ReadTextShrinks(body, b);
    TextMustClose(b);
  }

  lemma OptionalWasRead(all: seq<string>, b: Template, ns: seq<Node>)
    requires OpensGroup(all, '[', ']') && ParseTokens(all) == Some([Optional(b)] + ns)
    ensures ParseText(GroupBody(all, '[', ']')) == Some(b)
    ensures ParseTokens(all[GroupLength(all, ']')..]) == Some(ns)
  {
    assert ([Optional(b)] + ns)[0] == Optional(b) && ([Optional(b)] + ns)[1..] == ns;
    var read := ParseText(GroupBody(all, '[', ']'));
    var after := ParseTokens(all[GroupLength(all, ']')..]);
    assert ([Optional(read.value)] + after.value)[0] == Optional(read.value);
    assert ([Optional(read.value)] + after.value)[1..] == after.value;
  }

  lemma ChoiceWasRead(all: seq<string>, os: seq<Template>, ns: seq<Node>)
    requires OpensGroup(all, '(', ')') && ParseTokens(all) == Some([Choice(os)] + ns)
    ensures ParseOptions(Split(GroupBody(all, '(', ')'), '|')) == Some(os)
    ensures ParseTokens(all[GroupLength(all, ')')..]) == Some(ns)
  {
    assert ([Choice(os)] + ns)[0] == Choice(os) && ([Choice(os)] + ns)[1..] == ns;
    var read := ParseOptions(Split(GroupBody(all, '(', ')'), '|'));
    var after := ParseTokens(all[GroupLength(all, ')')..]);
    assert ([Choice(read.value)] + after.value)[0] == Choice(read.value);
    assert ([Choice(read.value)] + after.value)[1..] == after.value;
  }

  lemma {:induction false} ChoiceMustClose(os: seq<Template>, rest: seq<string>, ns: seq<Node>)
    requires LexicalNode(Choice(os)) && ParseTokens(ShowNode(Choice(os)) + rest) == Some([Choice(os)] + ns)
    ensures ClosesNode(Choice(os)) && ParseTokens(rest) == Some(ns)
    decreases os, 3
  {
    var all, shown := ShowNode(Choice(os)) + rest, ShowOptions(os);
    GroupRead('(', Join(shown, '|'), ')', rest);
    var body := GroupBody(all, '(', ')');
    var pieces := Split(body, '|');
    ChoiceWasRead(all, os, ns);
    JoinSplit(body, '|');
    SizeOfJoin(pieces, '|');
    ReadOptionsShrink(pieces, os);
    SizeOfJoin(shown, '|');
    assert body == Join(shown, '|');
    SplitCount(body, '|');
    JoinCount(shown, '|');
    SplitJoin(shown, '|');
    ListMustClose(os);
    ShowOptionsAt(os);
    forall i | 0 <= i < |os| ensures !Forks(os[i]) { BarIffForks(os[i]); }
  }

  lemma {:induction false} ListMustClose(os: seq<Template>)
    requires (forall i :: 0 <= i < |os| ==> Lexical(os[i])) && ParseOptions(ShowOptions(os)) == Some(os)
    ensures forall i :: 0 <= i < |os| ==> Closes(os[i])
    decreases os, 2
  {
    if os != [] {
      assert ShowOptions(os)[1..] == ShowOptions(os[1..]);
      ReadTextShrinks(Strip(Show(os[0])), os[0]);
      ShownIsStripped(os[0]);
      TextMustClose(os[0]);
      ListMustClose(os[1..]);
    }
  }

  lemma {:induction false} NodesMustClose(ns: seq<Node>)
    requires (forall i :: 0 <= i < |ns| ==> LexicalNode(ns[i])) && ParseTokens(ShowNodes(ns)) == Some(ns)
    ensures forall i :: 0 <= i < |ns| ==> ClosesNode(ns[i])
    decreases ns, 2
  {
    if ns != [] {
      assert [ns[0]] + ns[1..] == ns;
      NodeMustClose(ns[0], ShowNodes(ns[1..]), ns[1..]);
      NodesMustClose(ns[1..]);
    }
  }

  lemma {:induction false} TextMustClose(t: Template)
    requires Lexical(t) && ParseText(Show(t)) == Some(t)
    ensures Closes(t)
    decreases t, 0
  {
    ReadTextShrinks(Show(t), t);
    ShownTokens(t);
    SplitJoin(ShowNodes(t.nodes), ' ');
    NodesMustClose(t.nodes);
  }

  /** Printing then parsing gives a template back exactly when every group in it closes where it should. */
  lemma ParseShow(t: Template)
    requires Lexical(t)
    ensures ParseText(Show(t)) == Some(t) <==> Closes(t)
  {
    if Closes(t) { TextReads(t); }
    if ParseText(Show(t)) == Some(t) { TextMustClose(t); }
  }

  // ---- Groups inside groups of their own kind ----

  /** An optional group at the start of another: its closer ends a token before the last. */
  function Nested(x: string, y: string): Template {
    Template([Optional(Template([Optional(Template([Word(x)])), Word(y)]))])
  }

  lemma NestedOptionalIsLost(x: string, y: string)
    requires Plain(x) && Plain(y)
    ensures Lexical(Nested(x, y)) && ParseText(Show(Nested(x, y))) != Some(Nested(x, y))
  {
    var t := Nested(x, y);
    var outer := t.nodes[0];
    ShownNested(x, y);
    assert LexicalNode(Word(x)) && LexicalNode(Word(y)) && Lexical(Template([Word(x)]));
    assert LexicalNode(Optional(Template([Word(x)]))) && LexicalNode(outer);
    assert EndsWith(ShowNode(outer)[0], ']') && |ShowNode(outer)| == 2;
    assert EndsEarly(ShowNode(outer), ']') && !ClosesNode(outer);
    ParseShow(t);
  }

  lemma ShownNested(x: string, y: string)
    requires Plain(x) && Plain(y)
    ensures ShowNode(Nested(x, y).nodes[0]) == ["[[" + x + "]", y + "]"]
  {
    var w, body := "[" + x + "]", Template([Optional(Template([Word(x)])), Word(y)]);
    ShownBody(x, y, w, body);
    SplitTwo("[" + w, y + "]");
    assert "[" + Show(body) + "]" == "[" + w + [' '] + (y + "]");
    assert "[" + w == "[[" + x + "]";
  }

  lemma ShownBody(x: string, y: string, w: string, body: Template)
    requires Plain(x) && Plain(y) && w == "[" + x + "]"
    requires body == Template([Optional(Template([Word(x)])), Word(y)])
    ensures Show(body) == w + [' '] + y && ' ' !in "[" + w && ' ' !in y + "]"
  {
    assert ' ' in " ()[]{}|";
    var inner := Template([Word(x)]);
    ShowOne(inner.nodes);
    SplitWord(w, ' ');
    assert Show(inner) == x && ShowNode(body.nodes[0]) == [w];
    ShowOne(body.nodes[1..]);
    assert ShowNodes(body.nodes) == [w] + [y] == [w, y];
    JoinTwo(w, y);
  }

  lemma JoinTwo(a: string, b: string)
    ensures Join([a, b], ' ') == a + [' '] + b
  {
    assert [a, b][1..] == [b];
  }

  lemma SplitTwo(a: string, b: string)
    requires ' ' !in a && ' ' !in b
    ensures Split(a + [' '] + b, ' ') == [a, b]
  {
    SplitFirst(a, ' ', b);
    SplitWord(b, ' ');
  }

  /** An optional group alone inside another is read back. */
  lemma NestedAloneIsRead(x: string)
    requires Plain(x)
    ensures var t := Template([Optional(Template([Optional(Template([Word(x)]))]))]);
      Show(t) == "[[" + x + "]]" && ParseText(Show(t)) == Some(t)
  {
    var one := Template([Word(x)]);
    var two := Template([Optional(one)]);
    ShowOne(one.nodes);
    assert LexicalNode(one.nodes[0]) && Lexical(one) && ClosesNode(one.nodes[0]) && Closes(one);
    Wrapped(one, x, two, "[" + x + "]");
    Wrapped(two, "[" + x + "]", Template([Optional(two)]), "[[" + x + "]]");
    ParseShow(Template([Optional(two)]));
  }

  /** A template that shows as one word, in brackets, does so too and closes. */
  lemma Wrapped(b: Template, shown: string, t: Template, word: string)
    requires Lexical(b) && Closes(b) && Show(b) == shown && ' ' !in shown
    requires t == Template([Optional(b)]) && word == "[" + shown + "]"
    ensures Lexical(t) && Closes(t) && Show(t) == word && ' ' !in word
  {
    SplitWord(word, ' ');
    ShowOne(t.nodes);
    assert LexicalNode(t.nodes[0]) && ClosesNode(t.nodes[0]);
  }
}
