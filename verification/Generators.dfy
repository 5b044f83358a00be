/** `_fill` as it works: rewriting the template's text, and what it generates. */
module Generators {
  import opened Options
  import opened Text
  import opened Regexes
  import opened NoiseTables
  import opened Templates
  import opened TemplateText
  import opened Printing
  import opened Utterances

  // ---- The rewriting steps ----

  /** `text.replace(pattern, value)` */
  function Replace(s: string, pattern: string, value: string): string
    requires pattern != ""
    decreases |s|
  {
    if s == "" then ""
    else if pattern <= s then value + Replace(s[|pattern|..], pattern, value)
    else [s[0]] + Replace(s[1..], pattern, value)
  }

  function Placeholder(name: string): string { "{" + name + "}" }

  /** Position of the first character that is one of `stops`, or the length. */
  function Until(s: string, stops: string): (i: nat)
    ensures i <= |s| && (i < |s| ==> s[i] in stops) && forall k :: 0 <= k < i ==> s[k] !in stops
  {
    if s == "" || s[0] in stops then 0 else 1 + Until(s[1..], stops)
  }

  /** `re.sub(r"\(([^|)]+)\|[^)]*\)", r"\1", s)` */
  function FirstBranches(s: string): string
    decreases |s|
  {
    if s == "" then ""
    else
      var i := Until(s[1..], "|)");
      if s[0] == '(' && 0 < i && i + 1 < |s| && s[i + 1] == '|' && i + 2 + Until(s[i + 2..], ")") < |s|
      then s[1..i + 1] + FirstBranches(s[i + 2 + Until(s[i + 2..], ")") + 1..])
      else [s[0]] + FirstBranches(s[1..])
  }

  /** `re.sub(r"\[([^\]]*)\]", r"\1", s)` */
  function Unbracketed(s: string): string
    decreases |s|
  {
    if s == "" then ""
    else
      var i := Until(s[1..], "]");
      if s[0] == '[' && i + 1 < |s| then s[1..i + 1] + Unbracketed(s[i + 2..])
      else [s[0]] + Unbracketed(s[1..])
  }

  /** `re.sub(r"\s+", " ", s)` on text whose only white space is spaces. */
  function Squeezed(s: string): string {
    if s == "" then ""
    else if |s| > 1 && s[0] == ' ' && s[1] == ' ' then Squeezed(s[1..])
    else [s[0]] + Squeezed(s[1..])
  }

  function Substituted(text: string, names: seq<string>, sample: string -> string): string {
    if names == [] then text
    else
      var name := names[|names| - 1];
      Replace(Substituted(text, names[..|names| - 1], sample), Placeholder(name), sample(name))
  }

  function FillText(text: string, names: seq<string>, sample: string -> string): string {
    Strip(Squeezed(Unbracketed(FirstBranches(Substituted(text, names, sample)))))
  }

  predicate Contains(s: string, p: string) { exists i :: 0 <= i <= |s| && p <= s[i..] }

  /** `re.sub(r"\[[^\]]*" + p + r"[^\]]*\]", "", s)` for a p without brackets. */
  function GroupsDropped(s: string, p: string): string
    decreases |s|
  {
    if s == "" then ""
    else
      var i := Until(s[1..], "]");
      if s[0] == '[' && i + 1 < |s| && Contains(s[1..i + 1], p) then GroupsDropped(s[i + 2..], p)
      else [s[0]] + GroupsDropped(s[1..], p)
  }

  /** One slot: its sample put in, or, when there is none, the optional groups around it taken out. */
  function SlotFilled(text: string, name: string, sample: Option<string>): string {
    match sample
    case Some(value) => Replace(text, Placeholder(name), value)
    case None =>
      if !Contains(text, Placeholder(name)) then text
      else Strip(Replace(GroupsDropped(text, Placeholder(name)), Placeholder(name), ""))
  }

  function SlotsFilled(text: string, names: seq<string>, samples: string -> Option<string>): string {
    if names == [] then text
    else
      var name := names[|names| - 1];
      SlotFilled(SlotsFilled(text, names[..|names| - 1], samples), name, samples(name))
  }

  /** Slots in order, then branches, brackets and white space. */
  method FillLoop(template: string, names: seq<string>, samples: string -> Option<string>) returns (text: string)
    ensures text == Strip(Squeezed(Unbracketed(FirstBranches(SlotsFilled(template, names, samples)))))
  {
    text := template;
    for i := 0 to |names|
      invariant text == SlotsFilled(template, names[..i], samples)
    {
      assert names[..i + 1][..i] == names[..i];
      text := SlotFilled(text, names[i], samples(names[i]));
    }
    assert names[..|names|] == names;
    text := FirstBranches(text);
    text := Unbracketed(text);
    text := Strip(Squeezed(text));
  }

  /** With a sample for every slot the loop only substitutes. */
  lemma {:induction false} SampledSlots(text: string, names: seq<string>, samples: string -> Option<string>,
        sample: string -> string)
    requires forall i :: 0 <= i < |names| ==> samples(names[i]) == Some(sample(names[i]))
    ensures SlotsFilled(text, names, samples) == Substituted(text, names, sample)
    decreases |names|
  {
    if names != [] {
      var init := names[..|names| - 1];
      assert forall i :: 0 <= i < |init| ==> init[i] == names[i];
      SampledSlots(text, init, samples, sample);
    }
  }

  // ---- White space ----

  /** The fields that are not empty. */
  function Filled(ws: seq<string>): seq<string> {
    if ws == [] then [] else (if ws[0] == "" then [] else [ws[0]]) + Filled(ws[1..])
  }

  lemma {:induction false} SqueezedFields(s: string)
    ensures Filled(Split(Squeezed(s), ' ')) == Filled(Split(s, ' ')) && NoDouble(Squeezed(s))
    ensures s != "" ==> Squeezed(s) != "" && Squeezed(s)[0] == s[0]
    decreases |s|
  {
    if s != "" {
      SqueezedFields(s[1..]);
      var r := Squeezed(s[1..]);
      if |s| > 1 && s[0] == ' ' && s[1] == ' ' {
        assert Split(s, ' ') == [""] + Split(s[1..], ' ');
        assert ([""] + Split(s[1..], ' '))[1..] == Split(s[1..], ' ');
      } else {
        assert ([s[0]] + r)[1..] == r;
        FirstField(s[0], s[1..], r);
        if |s| > 1 { assert r[0] == s[1]; }
      }
    }
  }

  /** One character in front changes the fields of two texts alike, if they begin alike. */
  lemma FirstField(c: char, a: string, b: string)
    requires Filled(Split(a, ' ')) == Filled(Split(b, ' ')) && (a == "" <==> b == "") && (a != "" ==> a[0] == b[0])
    ensures Filled(Split([c] + a, ' ')) == Filled(Split([c] + b, ' '))
  {
    assert ([c] + a)[1..] == a && ([c] + b)[1..] == b;
    var x, y := Split(a, ' '), Split(b, ' ');
    if c == ' ' {
      assert ([""] + x)[1..] == x && ([""] + y)[1..] == y;
    } else {
      var p, q := [[c] + x[0]] + x[1..], [[c] + y[0]] + y[1..];
      assert p[1..] == x[1..] && q[1..] == y[1..];
      assert a == "" || a[0] == ' ' <==> x[0] == "";
      assert b == "" || b[0] == ' ' <==> y[0] == "";
      if x[0] == "" {
        assert [] + Filled(x[1..]) == Filled(x[1..]) && [] + Filled(y[1..]) == Filled(y[1..]);
      } else {
        assert Filled(x)[1..] == Filled(x[1..]) && Filled(y)[1..] == Filled(y[1..]);
      }
    }
  }

  lemma {:induction false} LastField(s: string)
    ensures Split(s + [' '], ' ') == Split(s, ' ') + [""]
    decreases |s|
  {
    var t := s + [' '];
    if s == "" {
      assert t[1..] == "" && Split(t, ' ') == [""] + [""];
    } else {
      LastField(s[1..]);
      assert t[1..] == s[1..] + [' '];
    }
  }

  lemma {:induction false} FilledSnoc(ws: seq<string>)
    ensures Filled(ws + [""]) == Filled(ws)
    decreases |ws|
  {
    if ws == [] {
      assert ws + [""] == [""] && [""][1..] == [];
    } else {
      assert (ws + [""])[1..] == ws[1..] + [""];
      FilledSnoc(ws[1..]);
    }
  }

  lemma {:induction false} StripFields(s: string)
    ensures Filled(Split(Strip(s), ' ')) == Filled(Split(s, ' '))
    ensures Strip(s) == "" || Trim(Strip(s))
    ensures NoDouble(s) ==> NoDouble(Strip(s))
    decreases |s|
  {
    if StartsWith(s, ' ') {
      StripFields(s[1..]);
      assert ([""] + Split(s[1..], ' '))[1..] == Split(s[1..], ' ');
      assert [] + Filled(Split(s[1..], ' ')) == Filled(Split(s[1..], ' '));
    } else if EndsWith(s, ' ') {
      var t := s[..|s| - 1];
      StripFields(t);
      LastField(t);
      FilledSnoc(Split(t, ' '));
      assert s == t + [' '];
    }
  }

  /** Text without doubled spaces, and none at its end, has no empty field but a first one. */
  lemma {:induction false} FullFields(s: string)
    requires NoDouble(s) && s != "" && s[|s| - 1] != ' '
    ensures Split(s, ' ')[0] == "" <==> s[0] == ' '
    ensures forall i :: 0 < i < |Split(s, ' ')| ==> Split(s, ' ')[i] != ""
    decreases |s|
  {
    if |s| > 1 {
      FullFields(s[1..]);
    } else {
      assert s[1..] == "";
    }
  }

  lemma {:induction false} FilledAll(ws: seq<string>)
    requires forall i :: 0 <= i < |ws| ==> ws[i] != ""
    ensures Filled(ws) == ws
    decreases |ws|
  {
    if ws != [] { FilledAll(ws[1..]); }
  }

  /** The last rewriting leaves the words of the text, whatever it is, with single spaces between them. */
  lemma WhiteSpaceIs(s: string)
    ensures Strip(Squeezed(s)) == Join(Filled(Split(s, ' ')), ' ')
  {
    var r := Strip(Squeezed(s));
    SqueezedFields(s);
    StripFields(Squeezed(s));
    if r == "" {
      assert Split(r, ' ') == [""] && [""][1..] == [];
    } else {
      FullFields(r);
      FilledAll(Split(r, ' '));
      JoinSplit(r, ' ');
    }
  }

  // ---- What each step leaves of a printed template ----

  /** How far the rewriting has come: the text of each slot, and which brackets are still there. */
  datatype Style = Style(slot: string -> string, choices: bool, brackets: bool)

  function Render(t: Template, st: Style): string
    decreases t, 0
  {
    Join(RenderNodes(t.nodes, st), ' ')
  }

  function RenderNodes(ns: seq<Node>, st: Style): (ws: seq<string>)
    ensures |ws| == |ns|
    decreases ns
  {
    if ns == [] then [] else [RenderNode(ns[0], st)] + RenderNodes(ns[1..], st)
  }

  function RenderNode(n: Node, st: Style): string
    decreases n
  {
    match n
    case Word(w) => w
    case Hole(k) => st.slot(k)
    case Choice(os) =>
      if st.choices then "(" + Join(RenderOptions(os, st), '|') + ")" else if os == [] then "" else Render(os[0], st)
    case Optional(b) => if st.brackets then "[" + Render(b, st) + "]" else Render(b, st)
  }

  function RenderOptions(os: seq<Template>, st: Style): (r: seq<string>)
    ensures |r| == |os|
    decreases os
  {
    if os == [] then [] else [Render(os[0], st)] + RenderOptions(os[1..], st)
  }

  /** Text with none of the template syntax in it. */
  predicate Bare(s: string) { forall c :: c in s ==> c !in "()[]{}|" }

  /** A sample as `intents.yaml` spells them: words and single spaces. */
  predicate CleanSample(s: string) { Bare(s) && Trim(s) && NoDouble(s) }

  // ---- Rewriting left to right ----

  type Rewrite = string -> string

  /** On text that starts with a, the rewriting gives b and goes on with the rest. */
  ghost predicate Maps(f: Rewrite, a: string, b: string) {
    forall rest {:trigger f(a + rest)} :: f(a + rest) == b + f(rest)
  }

  ghost predicate Copies(f: Rewrite, c: char) { Maps(f, [c], [c]) }

  lemma MapsNothing(f: Rewrite)
    ensures Maps(f, "", "")
  {
    forall rest ensures f("" + rest) == "" + f(rest) { assert "" + rest == rest && "" + f(rest) == f(rest); }
  }

  lemma MapsAppend(f: Rewrite, a: string, b: string, c: string, d: string)
    requires Maps(f, a, b) && Maps(f, c, d)
    ensures Maps(f, a + c, b + d)
  {
    forall rest ensures f((a + c) + rest) == (b + d) + f(rest) {
      assert (a + c) + rest == a + (c + rest);
      assert (b + d) + f(rest) == b + (d + f(rest));
    }
  }

  lemma {:induction false} MapsCopy(f: Rewrite, a: string)
    requires forall i :: 0 <= i < |a| ==> Copies(f, a[i])
    ensures Maps(f, a, a)
    decreases |a|
  {
    if a == "" {
      MapsNothing(f);
    } else {
      var head, tail := [a[0]], a[1..];
      assert a == head + tail;
      assert forall i :: 0 <= i < |tail| ==> tail[i] == a[i + 1];
      MapsCopy(f, tail);
      assert Copies(f, a[0]);
      MapsAppend(f, head, head, tail, tail);
    }
  }

  lemma {:induction false} MapsJoin(f: Rewrite, ws: seq<string>, vs: seq<string>, c: char)
    requires |ws| == |vs| && Copies(f, c) && forall i :: 0 <= i < |ws| ==> Maps(f, ws[i], vs[i])
    ensures Maps(f, Join(ws, c), Join(vs, c))
    decreases |ws|
  {
    if |ws| == 0 {
      MapsNothing(f);
    } else if |ws| > 1 {
      MapsJoin(f, ws[1..], vs[1..], c);
      MapsAppend(f, ws[0], vs[0], [c], [c]);
      MapsAppend(f, ws[0] + [c], vs[0] + [c], Join(ws[1..], c), Join(vs[1..], c));
    }
  }

  lemma MapsAround(f: Rewrite, opener: char, a: string, b: string, closer: char)
    requires Copies(f, opener) && Maps(f, a, b) && Copies(f, closer)
    ensures Maps(f, [opener] + a + [closer], [opener] + b + [closer])
  {
    MapsAppend(f, [opener], [opener], a, b);
    MapsAppend(f, [opener] + a, [opener] + b, [closer], [closer]);
  }

  lemma MapsWhole(f: Rewrite, a: string, b: string)
    requires Maps(f, a, b) && f("") == ""
    ensures f(a) == b
  {
    assert a + "" == a && f(a + "") == b + f("") && b + "" == b;
  }

  // ---- The nodes of a rendered template ----

  lemma {:induction false} RenderNodesAt(ns: seq<Node>, st: Style)
    ensures forall i :: 0 <= i < |ns| ==> RenderNodes(ns, st)[i] == RenderNode(ns[i], st)
  {
    if ns != [] { RenderNodesAt(ns[1..], st); }
  }

  lemma {:induction false} RenderOptionsAt(os: seq<Template>, st: Style)
    ensures forall i :: 0 <= i < |os| ==> RenderOptions(os, st)[i] == Render(os[i], st)
  {
    if os != [] { RenderOptionsAt(os[1..], st); }
  }

  /** Text without syntax, and no brackets of a kind that cannot occur there. */
  function BareSlots(st: Style): string -> bool { k => Bare(st.slot(k)) }

  function CleanSlots(st: Style): string -> bool { k => CleanSample(st.slot(k)) }

  lemma CleanIsBare(t: Template, a: Style)
    requires Slots(t, CleanSlots(a))
    ensures Slots(t, BareSlots(a))
  {
    forall k | CleanSlots(a)(k) ensures BareSlots(a)(k) {
      assert CleanSample(a.slot(k));
      assert Bare(a.slot(k));
    }
    SlotsImply(t, CleanSlots(a), BareSlots(a));
  }

  lemma {:induction false} SlotsImply(t: Template, p: string -> bool, q: string -> bool)
    requires Slots(t, p) && forall k :: p(k) ==> q(k)
    ensures Slots(t, q)
    decreases t
  {
    forall i | 0 <= i < |t.nodes| ensures SlotsOf(t.nodes[i], q) {
      assert SlotsOf(t.nodes[i], p);
      match t.nodes[i]
      case Choice(os) => forall j | 0 <= j < |os| ensures Slots(os[j], q) { SlotsImply(os[j], p, q); }
      case Optional(b) => SlotsImply(b, p, q);
      case _ =>
    }
  }

  // ---- Which templates the rewriting gets right ----

  /** Every choice, in every branch, has something to choose from. */
  predicate Branching(t: Template)
    decreases t, 0
  {
    forall i :: 0 <= i < |t.nodes| ==> BranchingNode(t.nodes[i])
  }

  predicate BranchingNode(n: Node)
    decreases n
  {
    match n
    case Choice(os) => |os| > 1 && forall i :: 0 <= i < |os| ==> Branching(os[i])
    case Optional(b) => Branching(b)
    case _ => true
  }

  /** Along the first branches, no optional group inside another. */
  predicate Flat(t: Template, inOptional: bool)
    decreases t, 0
  {
    forall i :: 0 <= i < |t.nodes| ==> FlatNode(t.nodes[i], inOptional)
  }

  predicate FlatNode(n: Node, inOptional: bool)
    decreases n
  {
    match n
    case Choice(os) => os != [] ==> Flat(os[0], inOptional)
    case Optional(b) => !inOptional && Flat(b, true)
    case _ => true
  }

  /** No choice at any depth. */
  predicate Choiceless(t: Template)
    decreases t, 0
  {
    forall i :: 0 <= i < |t.nodes| ==> ChoicelessNode(t.nodes[i])
  }

  predicate ChoicelessNode(n: Node)
    decreases n
  {
    match n
    case Choice(_) => false
    case Optional(b) => Choiceless(b)
    case _ => true
  }

  /** A branch without forks in a template of real choices has no choice at all. */
  lemma {:induction false} ForklessIsChoiceless(t: Template)
    requires Branching(t) && !Forks(t)
    ensures Choiceless(t)
    decreases t
  {
    forall i | 0 <= i < |t.nodes| ensures ChoicelessNode(t.nodes[i]) {
      assert BranchingNode(t.nodes[i]) && !ForksNode(t.nodes[i]);
      match t.nodes[i]
      case Optional(b) => ForklessIsChoiceless(b);
      case _ =>
    }
  }

  /** Choiceless text has no round bracket and no bar. */
  lemma {:induction false} ChoicelessChars(t: Template, st: Style, c: char)
    requires Lexical(t) && Choiceless(t) && Slots(t, BareSlots(st)) && c in "()|"
    ensures c !in Render(t, st)
    decreases t
  {
    if c in Render(t, st) {
      CharOfJoin(RenderNodes(t.nodes, st), ' ', c);
      RenderNodesAt(t.nodes, st);
      var i :| 0 <= i < |t.nodes| && c in RenderNode(t.nodes[i], st);
      assert LexicalNode(t.nodes[i]) && ChoicelessNode(t.nodes[i]) && SlotsOf(t.nodes[i], BareSlots(st));
      match t.nodes[i]
      case Word(w) =>
      case Hole(k) =>
      case Optional(b) => ChoicelessChars(b, st, c);
    }
  }

  /** Text without forks has no bar. */
  lemma {:induction false} ForklessChars(t: Template, st: Style)
    requires Lexical(t) && !Forks(t) && Slots(t, BareSlots(st))
    ensures '|' !in Render(t, st)
    decreases t, 0
  {
    RenderNodesAt(t.nodes, st);
    forall i | 0 <= i < |t.nodes| ensures '|' !in RenderNodes(t.nodes, st)[i] {
      assert LexicalNode(t.nodes[i]) && !ForksNode(t.nodes[i]) && SlotsOf(t.nodes[i], BareSlots(st));
      ForklessNodeChars(t.nodes[i], st);
    }
    if '|' in Render(t, st) { CharOfJoin(RenderNodes(t.nodes, st), ' ', '|'); }
  }

  lemma {:induction false} ForklessNodeChars(n: Node, st: Style)
    requires LexicalNode(n) && !ForksNode(n) && SlotsOf(n, BareSlots(st))
    ensures '|' !in RenderNode(n, st)
    decreases n, 1
  {
    match n
    case Word(w) =>
    case Hole(k) =>
    case Choice(os) =>
      if |os| == 1 {
        ForklessChars(os[0], st);
        assert RenderOptions(os, st) == [Render(os[0], st)];
      }
    case Optional(b) => ForklessChars(b, st);
  }

  lemma {:induction false} RenderedSome(t: Template, st: Style)
    requires Lexical(t) && Closes(t) && Slots(t, CleanSlots(st))
    ensures Render(t, st) != ""
    decreases t
  {
    var ws := RenderNodes(t.nodes, st);
    RenderNodesAt(t.nodes, st);
    assert LexicalNode(t.nodes[0]) && ClosesNode(t.nodes[0]) && SlotsOf(t.nodes[0], CleanSlots(st));
    match t.nodes[0]
    case Choice(os) => if !st.choices { RenderedSome(os[0], st); }
    case Optional(b) => if !st.brackets { RenderedSome(b, st); }
    case _ =>
    assert ws[0] != "";
  }

  // ---- Placeholders ----

  function Replacer(name: string, value: string): Rewrite { s => Replace(s, Placeholder(name), value) }

  lemma ReplacerCopies(name: string, value: string, c: char)
    requires c != '{'
    ensures Copies(Replacer(name, value), c)
  {
    var f := Replacer(name, value);
    forall rest ensures f([c] + rest) == [c] + f(rest) {
      assert Placeholder(name)[0] == '{' && ([c] + rest)[0] == c && ([c] + rest)[1..] == rest;
    }
  }

  lemma ReplacerHits(name: string, value: string)
    ensures Maps(Replacer(name, value), Placeholder(name), value)
  {
    var f, p := Replacer(name, value), Placeholder(name);
    forall rest ensures f(p + rest) == value + f(rest) { assert (p + rest)[|p|..] == rest; }
  }

  lemma PrefixIsSame(name: string, k: string, rest: string)
    requires Plain(name) && Plain(k) && Placeholder(name) <= Placeholder(k) + rest
    ensures name == k
  {
    var p, q := Placeholder(name), Placeholder(k) + rest;
    assert forall i :: 0 <= i < |p| ==> p[i] == q[i];
    assert forall i :: 0 <= i < |name| ==> name[i] == p[i + 1] && name[i] in name;
    assert forall i :: 0 <= i < |k| ==> k[i] == q[i + 1] && k[i] in k;
    assert p[|name| + 1] == '}' && q[|k| + 1] == '}';
    assert |name| == |k|;
  }

  lemma ReplacerMisses(name: string, value: string, k: string)
    requires Plain(name) && Plain(k) && k != name
    ensures Maps(Replacer(name, value), Placeholder(k), Placeholder(k))
  {
    var f, tail := Replacer(name, value), k + "}";
    forall i | 0 <= i < |tail| ensures Copies(f, tail[i]) {
      if i < |k| { assert tail[i] in k; }
      ReplacerCopies(name, value, tail[i]);
    }
    MapsCopy(f, tail);
    forall rest ensures f(Placeholder(k) + rest) == Placeholder(k) + f(rest) { MissesHere(name, value, k, tail, rest); }
  }

  lemma MissesHere(name: string, value: string, k: string, tail: string, rest: string)
    requires Plain(name) && Plain(k) && k != name && tail == k + "}"
    requires Replacer(name, value)(tail + rest) == tail + Replacer(name, value)(rest)
    ensures Replacer(name, value)(Placeholder(k) + rest) == Placeholder(k) + Replacer(name, value)(rest)
  {
    var s := Placeholder(k) + rest;
    if Placeholder(name) <= s { PrefixIsSame(name, k, rest); }
    assert s[0] == '{' && s[1..] == tail + rest;
    assert [s[0]] + (tail + Replacer(name, value)(rest)) == Placeholder(k) + Replacer(name, value)(rest);
  }

  /** What replacing one placeholder does to the text of a slot. */
  function SlotStep(name: string, value: string, slot: string -> string, slot2: string -> string): string -> bool {
    k => if slot(k) == Placeholder(k) then slot2(k) == if k == name then value else Placeholder(k)
         else Bare(slot(k)) && slot2(k) == slot(k)
  }

  lemma SlotMaps(name: string, value: string, slot: string -> string, slot2: string -> string, k: string)
    requires Plain(name) && Plain(k) && SlotStep(name, value, slot, slot2)(k)
    ensures Maps(Replacer(name, value), slot(k), slot2(k))
  {
    if slot(k) != Placeholder(k) {
      BareCopies(name, value, slot(k));
    } else if k == name {
      ReplacerHits(name, value);
    } else {
      ReplacerMisses(name, value, k);
    }
  }

  lemma BareCopies(name: string, value: string, s: string)
    requires '{' !in s
    ensures Maps(Replacer(name, value), s, s)
  {
    forall i | 0 <= i < |s| ensures Copies(Replacer(name, value), s[i]) {
      assert s[i] in s;
      ReplacerCopies(name, value, s[i]);
    }
    MapsCopy(Replacer(name, value), s);
  }

  lemma {:induction false} ReplaceRenders(t: Template, name: string, value: string, a: Style, b: Style)
    requires Lexical(t) && Plain(name)
    requires a.choices && a.brackets && b.choices && b.brackets && Slots(t, SlotStep(name, value, a.slot, b.slot))
    ensures Maps(Replacer(name, value), Render(t, a), Render(t, b))
    decreases t, 0
  {
    var f := Replacer(name, value);
    RenderNodesAt(t.nodes, a);
    RenderNodesAt(t.nodes, b);
    ReplacerCopies(name, value, ' ');
    forall i | 0 <= i < |t.nodes| ensures Maps(f, RenderNodes(t.nodes, a)[i], RenderNodes(t.nodes, b)[i]) {
      assert LexicalNode(t.nodes[i]) && SlotsOf(t.nodes[i], SlotStep(name, value, a.slot, b.slot));
      ReplaceRendersNode(t.nodes[i], name, value, a, b);
    }
    MapsJoin(f, RenderNodes(t.nodes, a), RenderNodes(t.nodes, b), ' ');
  }

  lemma {:induction false} ReplaceRendersNode(n: Node, name: string, value: string, a: Style, b: Style)
    requires LexicalNode(n) && Plain(name)
    requires a.choices && a.brackets && b.choices && b.brackets && SlotsOf(n, SlotStep(name, value, a.slot, b.slot))
    ensures Maps(Replacer(name, value), RenderNode(n, a), RenderNode(n, b))
    decreases n, 1
  {
    var f := Replacer(name, value);
    match n
    case Word(w) => BareCopies(name, value, w);
    case Hole(k) => SlotMaps(name, value, a.slot, b.slot, k);
    case Choice(os) =>
      RenderOptionsAt(os, a);
      RenderOptionsAt(os, b);
      forall i | 0 <= i < |os| ensures Maps(f, RenderOptions(os, a)[i], RenderOptions(os, b)[i]) {
        ReplaceRenders(os[i], name, value, a, b);
      }
      ReplacerCopies(name, value, '|');
      ReplacerCopies(name, value, '(');
      ReplacerCopies(name, value, ')');
      MapsJoin(f, RenderOptions(os, a), RenderOptions(os, b), '|');
      MapsAround(f, '(', Join(RenderOptions(os, a), '|'), Join(RenderOptions(os, b), '|'), ')');
    case Optional(body) =>
      ReplaceRenders(body, name, value, a, b);
      ReplacerCopies(name, value, '[');
      ReplacerCopies(name, value, ']');
      MapsAround(f, '[', Render(body, a), Render(body, b), ']');
  }

  // ---- Branches ----

  lemma {:induction false} UntilAt(a: string, c: char, rest: string, stops: string)
    requires c in stops && forall i :: 0 <= i < |a| ==> a[i] !in stops
    ensures Until(a + [c] + rest, stops) == |a|
    decreases |a|
  {
    if a != "" {
      UntilAt(a[1..], c, rest, stops);
      assert (a + [c] + rest)[1..] == a[1..] + [c] + rest;
    }
  }

  lemma BranchesCopies(c: char)
    requires c != '('
    ensures Copies(FirstBranches, c)
  {
    forall rest ensures FirstBranches([c] + rest) == [c] + FirstBranches(rest) { assert ([c] + rest)[1..] == rest; }
  }

  lemma BranchesCopy(s: string)
    requires '(' !in s
    ensures Maps(FirstBranches, s, s)
  {
    forall i | 0 <= i < |s| ensures Copies(FirstBranches, s[i]) {
      assert s[i] in s;
      BranchesCopies(s[i]);
    }
    MapsCopy(FirstBranches, s);
  }

  /** Of several branches the first stays. */
  lemma FirstOfMany(first: string, others: string)
    requires first != "" && '|' !in first && ')' !in first && ')' !in others
    ensures Maps(FirstBranches, "(" + first + "|" + others + ")", first)
  {
    forall rest ensures FirstBranches("(" + first + "|" + others + ")" + rest) == first + FirstBranches(rest) {
      MatchHere("(" + first + "|" + others + ")" + rest, first, others, rest);
    }
  }

  lemma MatchHere(s: string, first: string, others: string, rest: string)
    requires s == "(" + first + "|" + others + ")" + rest
    requires first != "" && '|' !in first && ')' !in first && ')' !in others
    ensures FirstBranches(s) == first + FirstBranches(rest)
  {
    var n := |first|;
    assert s[1..] == first + ['|'] + (others + ")" + rest);
    UntilAt(first, '|', others + ")" + rest, "|)");
    assert s[n + 1] == '|' && s[1..n + 1] == first && s[n + 2..] == others + [')'] + rest;
    UntilAt(others, ')', rest, ")");
    assert s[n + 2 + |others| + 1..] == rest;
  }

  lemma {:induction false} ChoicelessSame(t: Template, a: Style, b: Style)
    requires Choiceless(t) && a.slot == b.slot && a.brackets == b.brackets
    ensures Render(t, a) == Render(t, b)
    decreases t
  {
    RenderNodesAt(t.nodes, a);
    RenderNodesAt(t.nodes, b);
    forall i | 0 <= i < |t.nodes| ensures RenderNodes(t.nodes, a)[i] == RenderNodes(t.nodes, b)[i] {
      assert ChoicelessNode(t.nodes[i]);
      match t.nodes[i]
      case Optional(body) => ChoicelessSame(body, a, b);
      case _ =>
    }
    assert RenderNodes(t.nodes, a) == RenderNodes(t.nodes, b);
  }

  lemma {:induction false} BranchesRender(t: Template, a: Style, b: Style)
    requires Lexical(t) && Closes(t) && Branching(t) && Slots(t, CleanSlots(a))
    requires a.choices && !b.choices && a.slot == b.slot && a.brackets && b.brackets
    ensures Maps(FirstBranches, Render(t, a), Render(t, b))
    decreases t, 0
  {
    RenderNodesAt(t.nodes, a);
    RenderNodesAt(t.nodes, b);
    BranchesCopies(' ');
    forall i | 0 <= i < |t.nodes| ensures Maps(FirstBranches, RenderNodes(t.nodes, a)[i], RenderNodes(t.nodes, b)[i]) {
      assert LexicalNode(t.nodes[i]) && ClosesNode(t.nodes[i]) && BranchingNode(t.nodes[i]);
      assert SlotsOf(t.nodes[i], CleanSlots(a));
      BranchesRenderNode(t.nodes[i], a, b);
    }
    MapsJoin(FirstBranches, RenderNodes(t.nodes, a), RenderNodes(t.nodes, b), ' ');
  }

  lemma {:induction false} BranchesRenderNode(n: Node, a: Style, b: Style)
    requires LexicalNode(n) && ClosesNode(n) && BranchingNode(n) && SlotsOf(n, CleanSlots(a))
    requires a.choices && !b.choices && a.slot == b.slot && a.brackets && b.brackets
    ensures Maps(FirstBranches, RenderNode(n, a), RenderNode(n, b))
    decreases n, 1
  {
    match n
    case Word(w) => BranchesCopy(w);
    case Hole(k) => BranchesCopy(a.slot(k));
    case Choice(os) => ChoiceRenders(os, a, b);
    case Optional(body) =>
      BranchesRender(body, a, b);
      BranchesCopies('[');
      BranchesCopies(']');
      MapsAround(FirstBranches, '[', Render(body, a), Render(body, b), ']');
  }

  /** The branches of a real choice are free of round brackets and bars. */
  lemma BranchesAreChoiceless(os: seq<Template>, a: Style)
    requires LexicalNode(Choice(os)) && ClosesNode(Choice(os)) && BranchingNode(Choice(os))
    requires SlotsOf(Choice(os), CleanSlots(a))
    ensures forall k :: 0 <= k < |os| ==> Choiceless(os[k]) && Slots(os[k], BareSlots(a))
    ensures forall k, c :: 0 <= k < |os| && c in "()|" ==> c !in Render(os[k], a)
  {
    forall k | 0 <= k < |os| ensures Choiceless(os[k]) && Slots(os[k], BareSlots(a)) {
      ForklessIsChoiceless(os[k]);
      CleanIsBare(os[k], a);
    }
    forall k, c | 0 <= k < |os| && c in "()|" ensures c !in Render(os[k], a) { ChoicelessChars(os[k], a, c); }
  }

  lemma ChoiceRenders(os: seq<Template>, a: Style, b: Style)
    requires LexicalNode(Choice(os)) && ClosesNode(Choice(os)) && BranchingNode(Choice(os))
    requires SlotsOf(Choice(os), CleanSlots(a))
    requires a.choices && !b.choices && a.slot == b.slot && a.brackets && b.brackets
    ensures Maps(FirstBranches, RenderNode(Choice(os), a), RenderNode(Choice(os), b))
  {
    BranchesAreChoiceless(os, a);
    assert '|' in "()|" && ')' in "()|";
    RenderedSome(os[0], a);
    ChoicelessSame(os[0], a, b);
    OthersHave(os, a, ')');
    FirstOfMany(Render(os[0], a), Join(RenderOptions(os[1..], a), '|'));
    SeveralBranches(os, a);
  }

  /** A round bracket in the other branches is in one of them. */
  lemma OthersHave(os: seq<Template>, a: Style, c: char)
    requires |os| > 1 && c != '|'
    ensures c in Join(RenderOptions(os[1..], a), '|') <==> exists k :: 0 < k < |os| && c in Render(os[k], a)
  {
    var others := RenderOptions(os[1..], a);
    RenderOptionsAt(os[1..], a);
    if c in Join(others, '|') {
      CharOfJoin(others, '|', c);
      var j :| 0 <= j < |others| && c in others[j];
      assert others[j] == Render(os[j + 1], a);
    }
    if k :| 0 < k < |os| && c in Render(os[k], a) {
      assert others[k - 1] == Render(os[k], a);
      JoinHas(others, '|', c, k - 1);
    }
  }

  lemma SeveralBranches(os: seq<Template>, a: Style)
    requires |os| > 1 && a.choices
    ensures RenderNode(Choice(os), a) == "(" + Render(os[0], a) + "|" + Join(RenderOptions(os[1..], a), '|') + ")"
  {
    var first, others := Render(os[0], a), Join(RenderOptions(os[1..], a), '|');
    assert RenderOptions(os, a)[1..] == RenderOptions(os[1..], a);
    assert Join(RenderOptions(os, a), '|') == first + ['|'] + others;
    assert "(" + (first + ['|'] + others) + ")" == "(" + first + "|" + others + ")";
  }

  // ---- A choice with one branch leaves a bracket behind ----

  /** Closing brackets less opening ones. */
  function Depth(s: string): int {
    if s == "" then 0 else (if s[0] == ')' then 1 else if s[0] == '(' then -1 else 0) + Depth(s[1..])
  }

  lemma {:induction false} DepthAppend(a: string, b: string)
    ensures Depth(a + b) == Depth(a) + Depth(b)
    decreases |a|
  {
    if a == "" {
      assert a + b == b;
    } else {
      DepthAppend(a[1..], b);
      assert (a + b)[1..] == a[1..] + b;
    }
  }

  lemma {:induction false} DepthOpen(s: string)
    requires ')' !in s
    ensures Depth(s) <= 0 && ('(' !in s ==> Depth(s) == 0)
    decreases |s|
  {
    if s != "" {
      assert s == [s[0]] + s[1..];
      DepthOpen(s[1..]);
    }
  }

  lemma {:induction false} DepthClosed(s: string)
    requires Depth(s) > 0
    ensures ')' in s
  {
    if ')' !in s { DepthOpen(s); }
  }

  /** No prefix closes more than it opens, and in the end everything is closed. */
  predicate Balanced(s: string) { Depth(s) == 0 && forall n :: 0 <= n <= |s| ==> Depth(s[..n]) <= 0 }

  lemma BalancedNone(s: string)
    requires '(' !in s && ')' !in s
    ensures Balanced(s)
  {
    DepthOpen(s);
    forall n | 0 <= n <= |s| ensures Depth(s[..n]) <= 0 { DepthOpen(s[..n]); }
  }

  lemma BalancedAppend(a: string, b: string)
    requires Balanced(a) && Balanced(b)
    ensures Balanced(a + b)
  {
    var s := a + b;
    DepthAppend(a, b);
    forall n | 0 <= n <= |s| ensures Depth(s[..n]) <= 0 {
      if n <= |a| {
        assert s[..n] == a[..n];
      } else {
        assert s[..n] == a + b[..n - |a|];
        DepthAppend(a, b[..n - |a|]);
      }
    }
  }

  lemma BalancedAround(a: string)
    requires Balanced(a)
    ensures Balanced("(" + a + ")")
  {
    var s := "(" + a + ")";
    assert "("[1..] == "" && Depth("(") == -1 && Depth(")") == 1;
    DepthAppend("(" + a, ")");
    DepthAppend("(", a);
    forall n | 0 <= n <= |s| ensures Depth(s[..n]) <= 0 {
      if n == 0 {
      } else if n <= |a| + 1 {
        assert s[..n] == "(" + a[..n - 1];
        DepthAppend("(", a[..n - 1]);
      } else {
        assert s[..n] == s;
      }
    }
  }

  lemma {:induction false} BalancedJoin(ws: seq<string>, c: char)
    requires c != '(' && c != ')' && forall i :: 0 <= i < |ws| ==> Balanced(ws[i])
    ensures Balanced(Join(ws, c))
    decreases |ws|
  {
    if |ws| == 0 {
      BalancedNone("");
    } else if |ws| > 1 {
      BalancedJoin(ws[1..], c);
      BalancedNone([c]);
      BalancedAppend(ws[0], [c]);
      BalancedAppend(ws[0] + [c], Join(ws[1..], c));
    }
  }

  lemma {:induction false} RenderedBalanced(t: Template, st: Style)
    requires Lexical(t) && Slots(t, BareSlots(st))
    ensures Balanced(Render(t, st))
    decreases t, 0
  {
    RenderNodesAt(t.nodes, st);
    forall i | 0 <= i < |t.nodes| ensures Balanced(RenderNodes(t.nodes, st)[i]) {
      assert LexicalNode(t.nodes[i]) && SlotsOf(t.nodes[i], BareSlots(st));
      NodeBalanced(t.nodes[i], st);
    }
    BalancedJoin(RenderNodes(t.nodes, st), ' ');
  }

  lemma {:induction false} NodeBalanced(n: Node, st: Style)
    requires LexicalNode(n) && SlotsOf(n, BareSlots(st))
    ensures Balanced(RenderNode(n, st))
    decreases n, 1
  {
    match n
    case Word(w) => BalancedNone(w);
    case Hole(k) => BalancedNone(st.slot(k));
    case Choice(os) =>
      RenderOptionsAt(os, st);
      forall i | 0 <= i < |os| ensures Balanced(Render(os[i], st)) { RenderedBalanced(os[i], st); }
      if st.choices {
        BalancedJoin(RenderOptions(os, st), '|');
        BalancedAround(Join(RenderOptions(os, st), '|'));
      } else if os == [] {
        BalancedNone("");
      }
    case Optional(b) =>
      RenderedBalanced(b, st);
      if st.brackets {
        BalancedNone("[");
        BalancedNone("]");
        BalancedAppend("[", Render(b, st));
        BalancedAppend("[" + Render(b, st), "]");
      }
  }

  /** Resolving branches never loses a closing bracket without an opening one. */
  lemma {:induction false} DepthGrows(s: string)
    ensures Depth(FirstBranches(s)) >= Depth(s)
    decreases |s|
  {
    if s != "" {
      var i := Until(s[1..], "|)");
      if s[0] == '(' && 0 < i && i + 1 < |s| && s[i + 1] == '|' && i + 2 + Until(s[i + 2..], ")") < |s| {
        var j := Until(s[i + 2..], ")");
        var first, second, rest := s[1..i + 1], s[i + 2..][..j], s[i + 2 + j + 1..];
        OneDepth();
        MatchedDepth("(", first, "|", second, ")", rest);
        SplitMatch(s, i, j);
        DepthGrows(rest);
        DepthAppend(first, FirstBranches(rest));
      } else {
        DepthGrows(s[1..]);
        assert ([s[0]] + FirstBranches(s[1..]))[1..] == FirstBranches(s[1..]);
      }
    }
  }

  lemma SplitMatch(s: string, i: nat, j: nat)
    requires i + 2 + j < |s| && s[0] == '(' && s[i + 1] == '|' && s[i + 2 + j] == ')'
    ensures s == "(" + s[1..i + 1] + "|" + s[i + 2..][..j] + ")" + s[i + 2 + j + 1..]
  {
    assert s[i + 2..][..j] == s[i + 2..i + 2 + j];
  }

  lemma MatchedDepth(open: string, first: string, bar: string, second: string, close: string, rest: string)
    requires Depth(open) == -1 && Depth(bar) == 0 && Depth(close) == 1 && ')' !in second
    ensures Depth(open + first + bar + second + close + rest) == Depth(first) + Depth(second) + Depth(rest)
    ensures Depth(second) <= 0
  {
    DepthOpen(second);
    DepthOfSix(open, first, bar, second, close, rest);
  }

  lemma DepthOfSix(a: string, b: string, c: string, d: string, e: string, f: string)
    ensures Depth(a + b + c + d + e + f) == Depth(a) + Depth(b) + Depth(c) + Depth(d) + Depth(e) + Depth(f)
  {
    DepthOfThree(a, b, c);
    DepthOfThree(a + b + c, d, e);
    DepthAppend(a + b + c + d + e, f);
  }

  lemma DepthOfThree(a: string, b: string, c: string)
    ensures Depth(a + b + c) == Depth(a) + Depth(b) + Depth(c)
  {
    DepthAppend(a, b);
    DepthAppend(a + b, c);
  }

  lemma OneDepth()
    ensures Depth("(") == -1 && Depth(")") == 1
    ensures Depth("|") == 0 && Depth(" ") == 0 && Depth("[") == 0 && Depth("]") == 0
  {}

  /** Rewriting this text, whatever follows, leaves a round bracket. */
  predicate Leaves(f: Rewrite, s: string, rest: string) {
    '(' in f(s + rest) || Depth(f(s + rest)) > Depth(rest)
  }

  lemma LeavesAfter(f: Rewrite, p: string, q: string, s: string, rest: string)
    requires Maps(f, p, q) && Depth(q) >= 0 && Leaves(f, s, rest)
    ensures Leaves(f, p + s, rest)
  {
    assert (p + s) + rest == p + (s + rest);
    DepthAppend(q, f(s + rest));
  }

  lemma LeavesBefore(f: Rewrite, s: string, q: string, rest: string)
    requires Leaves(f, s, q + rest) && Depth(q) == 0
    ensures Leaves(f, s + q, rest)
  {
    assert (s + q) + rest == s + (q + rest);
    DepthAppend(q, rest);
  }

  /** An opening bracket with a closing one before any bar stays. */
  lemma OpensUnmatched(u: string, v: string)
    requires '|' !in u && ')' in u
    ensures '(' in FirstBranches("(" + u + v)
  {
    var s := "(" + u + v;
    assert s[1..] == u + v;
    var i := Until(u + v, "|)");
    var k :| 0 <= k < |u| && u[k] == ')';
    assert (u + v)[k] == ')' && ')' in "|)";
    assert i <= k && (u + v)[i] == u[i] && u[i] in u;
    assert s[i + 1] == u[i] && s[i + 1] != '|';
    assert FirstBranches(s)[0] == '(';
  }

  /** A closing bracket among the other branches cuts the match short. */
  lemma MatchCut(first: string, others: string, rest: string, j: nat)
    requires first != "" && '|' !in first && ')' !in first
    requires j < |others| && others[j] == ')' && ')' !in others[..j]
    ensures FirstBranches("(" + first + "|" + others + ")" + rest) ==
      first + FirstBranches(others[j + 1..] + ")" + rest)
  {
    var second, after := others[..j], others[j + 1..] + ")" + rest;
    FirstOfMany(first, second);
    Regrouped("(" + first + "|", others, ")", rest, j);
    assert others[j..j + 1] == ")";
  }

  lemma Regrouped(a: string, others: string, c: string, rest: string, j: nat)
    requires j < |others|
    ensures a + others + c + rest == (a + others[..j] + others[j..j + 1]) + (others[j + 1..] + c + rest)
  {
    assert others == others[..j] + others[j..j + 1] + others[j + 1..];
  }

  lemma CutShort(first: string, others: string, rest: string)
    requires first != "" && '|' !in first && ')' !in first && Depth(first) == 0
    requires ')' in others && Balanced(others)
    ensures Leaves(FirstBranches, "(" + first + "|" + others + ")", rest)
  {
    var j := Until(others, ")");
    var k :| 0 <= k < |others| && others[k] == ')';
    var after := others[j + 1..] + ")" + rest;
    MatchCut(first, others, rest, j);
    DepthAppend(first, FirstBranches(after));
    DepthGrows(after);
    TailDepth(others, j, rest);
  }

  lemma TailDepth(others: string, j: nat, rest: string)
    requires Balanced(others) && j < |others|
    ensures Depth(others[j + 1..] + ")" + rest) > Depth(rest)
  {
    var tail := others[j + 1..];
    assert others == others[..j + 1] + tail;
    DepthAppend(others[..j + 1], tail);
    DepthAppend(tail + ")", rest);
    DepthAppend(tail, ")");
    assert Depth(")") == 1;
  }

  /** A template with a choice shows its closing bracket. */
  lemma {:induction false} ChoiceShows(t: Template, a: Style)
    requires !Choiceless(t) && a.choices && a.brackets
    ensures ')' in Render(t, a)
    decreases t
  {
    var i :| 0 <= i < |t.nodes| && !ChoicelessNode(t.nodes[i]);
    RenderNodesAt(t.nodes, a);
    var s := RenderNode(t.nodes[i], a);
    match t.nodes[i] {
      case Choice(os) => assert s[|s| - 1] == ')';
      case Optional(b) =>
        ChoiceShows(b, a);
        assert s == "[" + Render(b, a) + "]";
    }
    JoinHas(RenderNodes(t.nodes, a), ' ', ')', i);
  }

  lemma {:induction false} ChoicelessIsBranching(t: Template)
    requires Choiceless(t)
    ensures Branching(t)
    decreases t
  {
    forall i | 0 <= i < |t.nodes| ensures BranchingNode(t.nodes[i]) {
      assert ChoicelessNode(t.nodes[i]);
      match t.nodes[i]
      case Optional(b) => ChoicelessIsBranching(b);
      case _ =>
    }
  }

  lemma ChoiceLeaves(os: seq<Template>, a: Style, rest: string)
    requires LexicalNode(Choice(os)) && ClosesNode(Choice(os)) && !BranchingNode(Choice(os))
    requires SlotsOf(Choice(os), CleanSlots(a)) && a.choices && a.brackets
    ensures Leaves(FirstBranches, RenderNode(Choice(os), a), rest)
  {
    var first := Render(os[0], a);
    CleanIsBare(os[0], a);
    ForklessChars(os[0], a);
    if |os| == 1 {
      assert RenderOptions(os, a) == [first];
      AloneLeaves(first, rest);
    } else {
      SeveralBranches(os, a);
      var others := Join(RenderOptions(os[1..], a), '|');
      if ')' in first {
        ClosedFirstLeaves(first, others, rest);
      } else {
        OthersHide(os, a);
        RenderedSome(os[0], a);
        RenderedBalanced(os[0], a);
        CutShort(first, others, rest);
      }
    }
  }

  lemma AloneLeaves(only: string, rest: string)
    requires '|' !in only
    ensures Leaves(FirstBranches, "(" + only + ")", rest)
  {
    OpensUnmatched(only + ")", rest);
    assert "(" + only + ")" + rest == "(" + (only + ")") + rest;
  }

  lemma ClosedFirstLeaves(first: string, others: string, rest: string)
    requires '|' !in first && ')' in first
    ensures Leaves(FirstBranches, "(" + first + "|" + others + ")", rest)
  {
    OpensUnmatched(first, "|" + others + ")" + rest);
    Reassociated("(" + first, "|", others, ")", rest);
  }

  lemma Reassociated(a: string, b: string, c: string, d: string, e: string)
    ensures a + b + c + d + e == a + (b + c + d + e)
  {}

  /** When the first branch hides no bracket, another branch does. */
  lemma OthersHide(os: seq<Template>, a: Style)
    requires |os| > 1 && LexicalNode(Choice(os)) && !BranchingNode(Choice(os))
    requires SlotsOf(Choice(os), CleanSlots(a)) && a.choices && a.brackets && ')' !in Render(os[0], a)
    ensures ')' in Join(RenderOptions(os[1..], a), '|') && Balanced(Join(RenderOptions(os[1..], a), '|'))
  {
    var k :| 0 <= k < |os| && !Branching(os[k]);
    if Choiceless(os[k]) { ChoicelessIsBranching(os[k]); }
    ChoiceShows(os[k], a);
    OthersHave(os, a, ')');
    RenderOptionsAt(os[1..], a);
    forall i | 0 <= i < |os| - 1 ensures Balanced(RenderOptions(os[1..], a)[i]) {
      CleanIsBare(os[i + 1], a);
      RenderedBalanced(os[i + 1], a);
    }
    BalancedJoin(RenderOptions(os[1..], a), '|');
  }

  lemma {:induction false} LoneText(t: Template, a: Style, b: Style, rest: string)
    requires Lexical(t) && Closes(t) && !Branching(t) && Slots(t, CleanSlots(a))
    requires a.choices && !b.choices && a.slot == b.slot && a.brackets && b.brackets
    ensures Leaves(FirstBranches, Render(t, a), rest)
    decreases t, 2
  {
    assert forall i :: 0 <= i < |t.nodes| ==> LexicalNode(t.nodes[i]) && ClosesNode(t.nodes[i]);
    assert forall i :: 0 <= i < |t.nodes| ==> SlotsOf(t.nodes[i], CleanSlots(a));
    LoneNodes(t.nodes, a, b, rest);
  }

  lemma {:induction false} LoneNodes(ns: seq<Node>, a: Style, b: Style, rest: string)
    requires forall i :: 0 <= i < |ns| ==> LexicalNode(ns[i]) && ClosesNode(ns[i]) && SlotsOf(ns[i], CleanSlots(a))
    requires exists i :: 0 <= i < |ns| && !BranchingNode(ns[i])
    requires a.choices && !b.choices && a.slot == b.slot && a.brackets && b.brackets
    ensures Leaves(FirstBranches, Join(RenderNodes(ns, a), ' '), rest)
    decreases ns, 1
  {
    if |ns| == 1 {
      LoneNode(ns[0], a, b, rest);
      assert RenderNodes(ns, a) == [RenderNode(ns[0], a)];
    } else {
      var tail := Join(RenderNodes(ns[1..], a), ' ');
      HeadAndTail(ns, a);
      if BranchingNode(ns[0]) {
        var i :| 0 <= i < |ns| && !BranchingNode(ns[i]);
        assert ns[1..][i - 1] == ns[i];
        LoneNodes(ns[1..], a, b, rest);
        GoodHead(ns[0], a, b, tail, rest);
      } else {
        NodesDepth(ns[1..], a);
        LoneNode(ns[0], a, b, ([' '] + tail) + rest);
        LeavesBefore(FirstBranches, RenderNode(ns[0], a), [' '] + tail, rest);
      }
    }
  }

  lemma HeadAndTail(ns: seq<Node>, a: Style)
    requires |ns| > 1
    ensures var head, tail := RenderNode(ns[0], a), Join(RenderNodes(ns[1..], a), ' ');
      Join(RenderNodes(ns, a), ' ') == (head + [' ']) + tail == head + ([' '] + tail)
  {
    assert RenderNodes(ns, a)[1..] == RenderNodes(ns[1..], a);
  }

  lemma GoodHead(n: Node, a: Style, b: Style, tail: string, rest: string)
    requires LexicalNode(n) && ClosesNode(n) && BranchingNode(n) && SlotsOf(n, CleanSlots(a))
    requires a.choices && !b.choices && a.slot == b.slot && a.brackets && b.brackets
    requires Leaves(FirstBranches, tail, rest)
    ensures Leaves(FirstBranches, (RenderNode(n, a) + [' ']) + tail, rest)
  {
    BranchesRenderNode(n, a, b);
    BranchesCopies(' ');
    MapsAppend(FirstBranches, RenderNode(n, a), RenderNode(n, b), [' '], [' ']);
    ResolvedDepth(n, a, b);
    LeavesAfter(FirstBranches, RenderNode(n, a) + [' '], RenderNode(n, b) + [' '], tail, rest);
  }

  lemma ResolvedDepth(n: Node, a: Style, b: Style)
    requires LexicalNode(n) && SlotsOf(n, CleanSlots(a)) && a.slot == b.slot
    ensures Depth(RenderNode(n, b) + [' ']) == 0
  {
    NodeIsBare(n, a, b);
    NodeBalanced(n, b);
    DepthAppend(RenderNode(n, b), [' ']);
    assert Depth([' ']) == 0;
  }

  lemma NodeIsBare(n: Node, a: Style, b: Style)
    requires SlotsOf(n, CleanSlots(a)) && a.slot == b.slot
    ensures SlotsOf(n, BareSlots(b))
  {
    var t := Template([n]);
    assert forall i :: 0 <= i < |t.nodes| ==> SlotsOf(t.nodes[i], CleanSlots(a));
    forall k | CleanSlots(a)(k) ensures BareSlots(b)(k) {
      assert CleanSample(a.slot(k));
      assert Bare(a.slot(k));
    }
    SlotsImply(t, CleanSlots(a), BareSlots(b));
    assert SlotsOf(t.nodes[0], BareSlots(b));
  }

  lemma NodesDepth(ns: seq<Node>, a: Style)
    requires forall i :: 0 <= i < |ns| ==> LexicalNode(ns[i]) && SlotsOf(ns[i], CleanSlots(a))
    ensures Depth([' '] + Join(RenderNodes(ns, a), ' ')) == 0
  {
    RenderNodesAt(ns, a);
    forall i | 0 <= i < |ns| ensures Balanced(RenderNodes(ns, a)[i]) {
      NodeIsBare(ns[i], a, a);
      NodeBalanced(ns[i], a);
    }
    BalancedJoin(RenderNodes(ns, a), ' ');
    DepthAppend([' '], Join(RenderNodes(ns, a), ' '));
    assert Depth([' ']) == 0;
  }

  lemma {:induction false} LoneNode(n: Node, a: Style, b: Style, rest: string)
    requires LexicalNode(n) && ClosesNode(n) && !BranchingNode(n) && SlotsOf(n, CleanSlots(a))
    requires a.choices && !b.choices && a.slot == b.slot && a.brackets && b.brackets
    ensures Leaves(FirstBranches, RenderNode(n, a), rest)
    decreases n, 3
  {
    match n
    case Choice(os) => ChoiceLeaves(os, a, rest);
    case Optional(body) =>
      LoneText(body, a, b, "]" + rest);
      OptionalLeaves(Render(body, a), rest);
  }

  lemma OptionalLeaves(body: string, rest: string)
    requires Leaves(FirstBranches, body, "]" + rest)
    ensures Leaves(FirstBranches, "[" + body + "]", rest)
  {
    OneDepth();
    OpenerStays();
    LeavesInside(FirstBranches, "[", body, "]", rest);
    Bracketed("[", body, "]");
  }

  lemma Bracketed(open: string, body: string, close: string)
    ensures open + (body + close) == open + body + close
  {}

  lemma OpenerStays()
    ensures Maps(FirstBranches, "[", "[")
  {
    BranchesCopies('[');
  }

  lemma LeavesInside(f: Rewrite, open: string, body: string, close: string, rest: string)
    requires Maps(f, open, open) && Depth(open) == 0 && Depth(close) == 0 && Leaves(f, body, close + rest)
    ensures Leaves(f, open + (body + close), rest)
  {
    LeavesBefore(f, body, close, rest);
    LeavesAfter(f, open, open, body + close, rest);
  }

  // ---- Optional groups around a slot without samples ----

  /** Every optional group that opens in the text is closed in it, and none holds the slot. */
  predicate GroupsStay(s: string, p: string) {
    forall i :: 0 <= i < |s| && s[i] == '[' ==> GroupStays(s[i + 1..], p)
  }

  predicate GroupStays(rest: string, p: string) {
    Until(rest, "]") < |rest| && !Contains(rest[..Until(rest, "]")], p)
  }

  lemma ClosesBefore(tail: string, rest: string, p: string)
    requires GroupStays(tail, p)
    ensures Until(tail + rest, "]") == Until(tail, "]")
    ensures !Contains((tail + rest)[..Until(tail + rest, "]")], p)
  {
    var n := Until(tail, "]");
    UntilAt(tail[..n], tail[n], tail[n + 1..] + rest, "]");
    assert tail + rest == tail[..n] + [tail[n]] + (tail[n + 1..] + rest);
    assert (tail + rest)[..n] == tail[..n];
  }

  lemma CharStays(s: string, p: string, tail: string, rest: string)
    requires s != "" && s[1..] == tail + rest && (s[0] == '[' ==> GroupStays(tail, p))
    ensures GroupsDropped(s, p) == [s[0]] + GroupsDropped(tail + rest, p)
  {
    if s[0] == '[' { ClosesBefore(tail, rest, p); }
    assert s[1..Until(s[1..], "]") + 1] == (tail + rest)[..Until(tail + rest, "]")];
  }

  lemma TailStays(s: string, p: string)
    requires s != "" && GroupsStay(s, p)
    ensures GroupsStay(s[1..], p)
  {
    var tail := s[1..];
    forall i | 0 <= i < |tail| && tail[i] == '[' ensures GroupStays(tail[i + 1..], p) {
      assert s[i + 1] == '[' && s[i + 2..] == tail[i + 1..];
    }
  }

  lemma {:induction false} BeforeStays(before: string, rest: string, p: string)
    requires GroupsStay(before, p)
    ensures GroupsDropped(before + rest, p) == before + GroupsDropped(rest, p)
    decreases |before|
  {
    if before == "" {
      assert before + rest == rest;
    } else {
      TailStays(before, p);
      BeforeStays(before[1..], rest, p);
      Rejoined(before, rest);
      CharStays(before + rest, p, before[1..], rest);
      Rejoined(before, GroupsDropped(rest, p));
    }
  }

  lemma Rejoined(s: string, t: string)
    requires s != ""
    ensures [s[0]] + (s[1..] + t) == s + t && (s + t)[1..] == s[1..] + t
  {}

  /** Text before an optional group that holds the slot stays, the group goes, and the rest is looked at next. */
  lemma GroupGoes(before: string, a: string, k: string, b: string, after: string)
    requires GroupsStay(before, Placeholder(k)) && ']' !in a && ']' !in b && Plain(k)
    ensures var p := Placeholder(k);
      GroupsDropped(before + ("[" + (a + p + b) + "]" + after), p) == before + GroupsDropped(after, p)
  {
    var p := Placeholder(k);
    HoldsSlot(a, k, b);
    GroupGoesHere("[" + (a + p + b) + "]" + after, a + p + b, after, p);
    BeforeStays(before, "[" + (a + p + b) + "]" + after, p);
  }

  lemma NotContainedIn(s: string, p: string)
    requires s != "" && !Contains(s, p)
    ensures !(p <= s) && !Contains(s[1..], p)
  {
    assert s[0..] == s;
    forall i | 0 <= i <= |s[1..]| ensures !(p <= s[1..][i..]) { assert s[1..][i..] == s[i + 1..]; }
  }

  lemma NotInSlice(s: string, p: string, lo: nat, hi: nat)
    requires !Contains(s, p) && lo <= hi <= |s|
    ensures !Contains(s[lo..hi], p)
  {
    var t := s[lo..hi];
    forall i | 0 <= i <= |t| ensures !(p <= t[i..]) { PrefixStays(s, p, lo, hi, i); }
  }

  lemma PrefixStays(s: string, p: string, lo: nat, hi: nat, i: nat)
    requires lo <= hi <= |s| && i <= hi - lo
    ensures p <= s[lo..hi][i..] ==> p <= s[lo + i..]
  {
    assert s[lo..hi][i..] == s[lo + i..hi] && s[lo + i..hi] <= s[lo + i..];
  }

  lemma {:induction false} NothingDropped(s: string, p: string)
    requires !Contains(s, p)
    ensures GroupsDropped(s, p) == s
    decreases |s|
  {
    if s != "" {
      var i := Until(s[1..], "]");
      NotContainedIn(s, p);
      if i + 1 < |s| { NotInSlice(s, p, 1, i + 1); }
      NothingDropped(s[1..], p);
      assert s == [s[0]] + s[1..];
    }
  }

  lemma {:induction false} NothingReplaced(s: string, p: string, value: string)
    requires p != "" && !Contains(s, p)
    ensures Replace(s, p, value) == s
    decreases |s|
  {
    if s != "" {
      NotContainedIn(s, p);
      NothingReplaced(s[1..], p, value);
      assert s == [s[0]] + s[1..];
    }
  }

  /** A slot without samples takes the optional group around it out of the text, and nothing else. */
  lemma SlotTakenOut(before: string, a: string, k: string, b: string, after: string)
    requires GroupsStay(before, Placeholder(k)) && ']' !in a && ']' !in b && Plain(k)
    requires !Contains(after, Placeholder(k)) && !Contains(before + after, Placeholder(k))
    ensures SlotFilled(before + ("[" + (a + Placeholder(k) + b) + "]" + after), k, None) == Strip(before + after)
  {
    var p := Placeholder(k);
    var s := before + ("[" + (a + p + b) + "]" + after);
    assert Contains(s, p) by { assert s[|before| + 1 + |a|..] == p + (b + "]" + after); }
    GroupGoes(before, a, k, b, after);
    NothingDropped(after, p);
    NothingReplaced(before + after, p, "");
  }

  lemma {:induction false} SlotsAppend(text: string, pre: seq<string>, post: seq<string>,
        samples: string -> Option<string>)
    ensures SlotsFilled(text, pre + post, samples) == SlotsFilled(SlotsFilled(text, pre, samples), post, samples)
    decreases |post|
  {
    if post == [] {
      assert pre + post == pre;
    } else {
      assert (pre + post)[..|pre + post| - 1] == pre + post[..|post| - 1];
      SlotsAppend(text, pre, post[..|post| - 1], samples);
    }
  }

  /**
   * What is generated then: when its turn comes, the slot's group leaves the text, and the slots after it, the
   * branches, the brackets and the white space are done as if it had never been there.
   */
  lemma TextWithoutSlot(text: string, pre: seq<string>, k: string, post: seq<string>,
        samples: string -> Option<string>, before: string, a: string, b: string, after: string)
    requires GroupsStay(before, Placeholder(k)) && ']' !in a && ']' !in b && Plain(k) && samples(k).None?
    requires !Contains(after, Placeholder(k)) && !Contains(before + after, Placeholder(k))
    requires SlotsFilled(text, pre, samples) == before + ("[" + (a + Placeholder(k) + b) + "]" + after)
    ensures SlotsFilled(text, pre + [k] + post, samples) == SlotsFilled(Strip(before + after), post, samples)
  {
    SlotsAppend(text, pre + [k], post, samples);
    assert (pre + [k])[..|pre|] == pre;
    SlotTakenOut(before, a, k, b, after);
  }

  lemma HoldsSlot(a: string, k: string, b: string)
    requires ']' !in a && ']' !in b && Plain(k)
    ensures ']' !in a + Placeholder(k) + b && Contains(a + Placeholder(k) + b, Placeholder(k))
  {
    var s := a + Placeholder(k) + b;
    assert s[|a|..] == Placeholder(k) + b;
  }

  lemma GroupGoesHere(s: string, body: string, after: string, p: string)
    requires s == "[" + body + "]" + after && ']' !in body && Contains(body, p)
    ensures GroupsDropped(s, p) == GroupsDropped(after, p)
  {
    ClosedBody(s, body, after);
  }

  lemma ClosedBody(s: string, body: string, after: string)
    requires s == "[" + body + "]" + after && ']' !in body
    ensures |s| > |body| + 1 && s[0] == '[' && Until(s[1..], "]") == |body|
    ensures s[1..|body| + 1] == body && s[|body| + 2..] == after
  {
    assert s[1..] == body + [']'] + after;
    UntilAt(body, ']', after, "]");
  }

  // ---- Optional groups ----

  lemma UnbracketedCopies(c: char)
    requires c != '['
    ensures Copies(Unbracketed, c)
  {
    forall rest ensures Unbracketed([c] + rest) == [c] + Unbracketed(rest) { assert ([c] + rest)[1..] == rest; }
  }

  lemma UnbracketedCopy(s: string)
    requires '[' !in s
    ensures Maps(Unbracketed, s, s)
  {
    forall i | 0 <= i < |s| ensures Copies(Unbracketed, s[i]) {
      assert s[i] in s;
      UnbracketedCopies(s[i]);
    }
    MapsCopy(Unbracketed, s);
  }

  lemma BodyStays(body: string)
    requires ']' !in body
    ensures Maps(Unbracketed, "[" + body + "]", body)
  {
    forall rest ensures Unbracketed("[" + body + "]" + rest) == body + Unbracketed(rest) {
      BodyStaysHere("[" + body + "]" + rest, body, rest);
    }
  }

  lemma BodyStaysHere(s: string, body: string, rest: string)
    requires s == "[" + body + "]" + rest && ']' !in body
    ensures Unbracketed(s) == body + Unbracketed(rest)
  {
    ClosedBody(s, body, rest);
  }

  /** Inside an optional group of a flat template there is no other along the first branches. */
  lemma {:induction false} FlatChars(t: Template, st: Style, c: char)
    requires Lexical(t) && Flat(t, true) && Slots(t, BareSlots(st)) && !st.choices && c in "[]"
    ensures c !in Render(t, st)
    decreases t, 0
  {
    RenderNodesAt(t.nodes, st);
    forall i | 0 <= i < |t.nodes| ensures c !in RenderNodes(t.nodes, st)[i] {
      assert LexicalNode(t.nodes[i]) && FlatNode(t.nodes[i], true) && SlotsOf(t.nodes[i], BareSlots(st));
      FlatNodeChars(t.nodes[i], st, c);
    }
    if c in Render(t, st) { CharOfJoin(RenderNodes(t.nodes, st), ' ', c); }
  }

  lemma {:induction false} FlatNodeChars(n: Node, st: Style, c: char)
    requires LexicalNode(n) && FlatNode(n, true) && SlotsOf(n, BareSlots(st)) && !st.choices && c in "[]"
    ensures c !in RenderNode(n, st)
    decreases n, 1
  {
    match n
    case Word(w) =>
    case Hole(k) =>
    case Choice(os) => if os != [] { FlatChars(os[0], st, c); }
    case Optional(b) =>
  }

  lemma {:induction false} FlatSame(t: Template, a: Style, b: Style)
    requires Flat(t, true) && a.slot == b.slot && !a.choices && !b.choices
    ensures Render(t, a) == Render(t, b)
    decreases t
  {
    RenderNodesAt(t.nodes, a);
    RenderNodesAt(t.nodes, b);
    forall i | 0 <= i < |t.nodes| ensures RenderNodes(t.nodes, a)[i] == RenderNodes(t.nodes, b)[i] {
      assert FlatNode(t.nodes[i], true);
      match t.nodes[i]
      case Choice(os) => if os != [] { FlatSame(os[0], a, b); }
      case _ =>
    }
    assert RenderNodes(t.nodes, a) == RenderNodes(t.nodes, b);
  }

  lemma {:induction false} UnbracketRenders(t: Template, a: Style, b: Style)
    requires Lexical(t) && Flat(t, false) && Slots(t, CleanSlots(a))
    requires !a.choices && !b.choices && a.slot == b.slot && a.brackets && !b.brackets
    ensures Maps(Unbracketed, Render(t, a), Render(t, b))
    decreases t, 0
  {
    RenderNodesAt(t.nodes, a);
    RenderNodesAt(t.nodes, b);
    UnbracketedCopies(' ');
    forall i | 0 <= i < |t.nodes| ensures Maps(Unbracketed, RenderNodes(t.nodes, a)[i], RenderNodes(t.nodes, b)[i]) {
      assert LexicalNode(t.nodes[i]) && FlatNode(t.nodes[i], false) && SlotsOf(t.nodes[i], CleanSlots(a));
      UnbracketRendersNode(t.nodes[i], a, b);
    }
    MapsJoin(Unbracketed, RenderNodes(t.nodes, a), RenderNodes(t.nodes, b), ' ');
  }

  lemma {:induction false} UnbracketRendersNode(n: Node, a: Style, b: Style)
    requires LexicalNode(n) && FlatNode(n, false) && SlotsOf(n, CleanSlots(a))
    requires !a.choices && !b.choices && a.slot == b.slot && a.brackets && !b.brackets
    ensures Maps(Unbracketed, RenderNode(n, a), RenderNode(n, b))
    decreases n, 1
  {
    match n
    case Word(w) => UnbracketedCopy(w);
    case Hole(k) => UnbracketedCopy(a.slot(k));
    case Choice(os) => if os == [] { MapsNothing(Unbracketed); } else { UnbracketRenders(os[0], a, b); }
    case Optional(body) =>
      CleanIsBare(body, a);
      assert ']' in "[]";
      FlatChars(body, a, ']');
      BodyStays(Render(body, a));
      FlatSame(body, a, b);
  }

  // ---- An optional group inside another leaves a bracket behind ----

  /** An opening square bracket comes before any closing one. */
  predicate OpensFirst(s: string) { exists i :: 0 <= i < |s| && s[i] == '[' && ']' !in s[..i] }

  lemma OpensAfter(p: string, s: string, q: string)
    requires ']' !in p && OpensFirst(s)
    ensures OpensFirst(p + s + q)
  {
    var i :| 0 <= i < |s| && s[i] == '[' && ']' !in s[..i];
    var all := p + s + q;
    assert all[|p| + i] == '[' && all[..|p| + i] == p + s[..i];
  }

  lemma {:induction false} OpensInJoin(ws: seq<string>, i: nat)
    requires i < |ws| && OpensFirst(ws[i]) && forall k :: 0 <= k < i ==> ']' !in ws[k]
    ensures OpensFirst(Join(ws, ' '))
    decreases |ws|
  {
    if |ws| > 1 {
      var tail := Join(ws[1..], ' ');
      if i == 0 {
        OpensAfter("", ws[0], [' '] + tail);
        assert "" + ws[0] + ([' '] + tail) == Join(ws, ' ');
      } else {
        OpensInJoin(ws[1..], i - 1);
        OpensAfter(ws[0] + [' '], tail, "");
        assert ws[0] + [' '] + tail + "" == Join(ws, ' ');
      }
    }
  }

  /** A body with an optional group in it opens a bracket before it closes one. */
  lemma {:induction false} BodyOpens(t: Template, st: Style)
    requires Lexical(t) && !Flat(t, true) && Slots(t, BareSlots(st)) && !st.choices && st.brackets
    ensures OpensFirst(Render(t, st))
    decreases t
  {
    RenderNodesAt(t.nodes, st);
    var i := FirstSteep(t.nodes, true);
    assert LexicalNode(t.nodes[i]) && SlotsOf(t.nodes[i], BareSlots(st));
    forall k | 0 <= k < i ensures ']' !in RenderNodes(t.nodes, st)[k] {
      assert LexicalNode(t.nodes[k]) && SlotsOf(t.nodes[k], BareSlots(st)) && ']' in "[]";
      FlatNodeChars(t.nodes[k], st, ']');
    }
    match t.nodes[i] {
      case Choice(os) => BodyOpens(os[0], st);
      case Optional(b) => assert RenderNode(t.nodes[i], st)[0] == '[' && ']' !in RenderNode(t.nodes[i], st)[..0];
    }
    OpensInJoin(RenderNodes(t.nodes, st), i);
  }

  /** The first node that is not flat. */
  lemma {:induction false} FirstSteep(ns: seq<Node>, inOptional: bool) returns (i: nat)
    requires exists k :: 0 <= k < |ns| && !FlatNode(ns[k], inOptional)
    ensures i < |ns| && !FlatNode(ns[i], inOptional) && forall k :: 0 <= k < i ==> FlatNode(ns[k], inOptional)
    decreases |ns|
  {
    if !FlatNode(ns[0], inOptional) {
      i := 0;
    } else {
      var k :| 0 <= k < |ns| && !FlatNode(ns[k], inOptional);
      assert ns[1..][k - 1] == ns[k];
      i := FirstSteep(ns[1..], inOptional);
      i := i + 1;
    }
  }

  /** Whatever follows, the rewriting keeps an opening bracket of this text. */
  ghost predicate Keeps(f: Rewrite, s: string) { forall rest :: '[' in f(s + rest) }

  lemma KeepsAfter(f: Rewrite, p: string, q: string, s: string)
    requires Maps(f, p, q) && Keeps(f, s)
    ensures Keeps(f, p + s)
  {
    forall rest ensures '[' in f((p + s) + rest) {
      assert (p + s) + rest == p + (s + rest);
      assert '[' in f(s + rest);
    }
  }

  lemma KeepsBefore(f: Rewrite, s: string, q: string)
    requires Keeps(f, s)
    ensures Keeps(f, s + q)
  {
    forall rest ensures '[' in f((s + q) + rest) { assert (s + q) + rest == s + (q + rest); }
  }

  /** The match from an opening bracket to the first closing one takes an inner opening bracket with it. */
  lemma InnerStays(body: string)
    requires OpensFirst(body)
    ensures Keeps(Unbracketed, "[" + body + "]")
  {
    forall rest ensures '[' in Unbracketed("[" + body + "]" + rest) {
      InnerStaysHere("[" + body + "]" + rest, body, "]" + rest);
    }
  }

  lemma InnerStaysHere(s: string, body: string, after: string)
    requires s == "[" + body + after && OpensFirst(body) && after != "" && after[0] == ']'
    ensures '[' in Unbracketed(s)
  {
    var i :| 0 <= i < |body| && body[i] == '[' && ']' !in body[..i];
    var text := body + after;
    var j := Until(text, "]");
    CloserComesLater(body, after, i);
    UnbracketedOpens(s, text);
    assert text[..j][i] == '[';
  }

  lemma CloserComesLater(body: string, after: string, i: nat)
    requires i < |body| && body[i] == '[' && ']' !in body[..i] && after != "" && after[0] == ']'
    ensures i < Until(body + after, "]") <= |body|
  {
    var text := body + after;
    forall k | 0 <= k <= i ensures text[k] != ']' {
      if k < i { assert body[..i][k] == body[k]; }
    }
    assert ']' in "]" && text[|body|] == ']';
  }

  lemma UnbracketedOpens(s: string, text: string)
    requires s == "[" + text && Until(text, "]") < |text|
    ensures var j := Until(text, "]"); Unbracketed(s) == text[..j] + Unbracketed(text[j + 1..])
  {
    var j := Until(text, "]");
    assert text == text[..j] + [text[j]] + text[j + 1..];
    BodyStaysHere(s, text[..j], text[j + 1..]);
  }

  lemma {:induction false} SteepText(t: Template, a: Style, b: Style)
    requires Lexical(t) && Closes(t) && !Flat(t, false) && Slots(t, CleanSlots(a))
    requires !a.choices && !b.choices && a.slot == b.slot && a.brackets && !b.brackets
    ensures Keeps(Unbracketed, Render(t, a))
    decreases t, 2
  {
    assert forall i :: 0 <= i < |t.nodes| ==> LexicalNode(t.nodes[i]) && ClosesNode(t.nodes[i]);
    assert forall i :: 0 <= i < |t.nodes| ==> SlotsOf(t.nodes[i], CleanSlots(a));
    SteepNodes(t.nodes, a, b);
  }

  lemma {:induction false} SteepNodes(ns: seq<Node>, a: Style, b: Style)
    requires forall i :: 0 <= i < |ns| ==> LexicalNode(ns[i]) && ClosesNode(ns[i]) && SlotsOf(ns[i], CleanSlots(a))
    requires exists i :: 0 <= i < |ns| && !FlatNode(ns[i], false)
    requires !a.choices && !b.choices && a.slot == b.slot && a.brackets && !b.brackets
    ensures Keeps(Unbracketed, Join(RenderNodes(ns, a), ' '))
    decreases ns, 1
  {
    if |ns| == 1 {
      SteepNode(ns[0], a, b);
      assert RenderNodes(ns, a) == [RenderNode(ns[0], a)];
    } else {
      var head, tail := RenderNode(ns[0], a), Join(RenderNodes(ns[1..], a), ' ');
      HeadAndTail(ns, a);
      if FlatNode(ns[0], false) {
        var i :| 0 <= i < |ns| && !FlatNode(ns[i], false);
        assert ns[1..][i - 1] == ns[i];
        SteepNodes(ns[1..], a, b);
        UnbracketRendersNode(ns[0], a, b);
        UnbracketedCopies(' ');
        MapsAppend(Unbracketed, head, RenderNode(ns[0], b), [' '], [' ']);
        KeepsAfter(Unbracketed, head + [' '], RenderNode(ns[0], b) + [' '], tail);
      } else {
        SteepNode(ns[0], a, b);
        KeepsBefore(Unbracketed, head, [' '] + tail);
      }
    }
  }

  lemma {:induction false} SteepNode(n: Node, a: Style, b: Style)
    requires LexicalNode(n) && ClosesNode(n) && !FlatNode(n, false) && SlotsOf(n, CleanSlots(a))
    requires !a.choices && !b.choices && a.slot == b.slot && a.brackets && !b.brackets
    ensures Keeps(Unbracketed, RenderNode(n, a))
    decreases n, 3
  {
    match n
    case Choice(os) => SteepText(os[0], a, b);
    case Optional(body) =>
      CleanIsBare(body, a);
      BodyOpens(body, a);
      InnerStays(Render(body, a));
  }

  // ---- From the printed template to the generated text ----

  function SlotText(names: seq<string>, sample: string -> string): string -> string {
    k => if k in names then sample(k) else Placeholder(k)
  }

  /** The slots that can be generated: their names are plain and their samples clean. */
  predicate Generable(names: seq<string>, sample: string -> string) {
    forall i :: 0 <= i < |names| ==> Plain(names[i]) && CleanSample(sample(names[i]))
  }

  function Printed(): Style { Style(k => Placeholder(k), true, true) }

  lemma {:induction false} ShowIsRendered(t: Template)
    ensures Show(t) == Render(t, Printed())
    decreases t, 0
  {
    if t.nodes != [] {
      forall i | 0 <= i < |t.nodes|
        ensures ShowNode(t.nodes[i]) != [] && Join(ShowNode(t.nodes[i]), ' ') == RenderNode(t.nodes[i], Printed())
      {
        ShownNodeIsRendered(t.nodes[i]);
      }
      ShowNodesIsRendered(t.nodes);
    }
  }

  lemma {:induction false} ShowNodesIsRendered(ns: seq<Node>)
    requires ns != []
    requires forall i :: 0 <= i < |ns| ==>
      ShowNode(ns[i]) != [] && Join(ShowNode(ns[i]), ' ') == RenderNode(ns[i], Printed())
    ensures ShowNodes(ns) != [] && Join(ShowNodes(ns), ' ') == Join(RenderNodes(ns, Printed()), ' ')
    decreases |ns|
  {
    if |ns| == 1 {
      assert ShowNodes(ns) == ShowNode(ns[0]) + [] == ShowNode(ns[0]);
      assert RenderNodes(ns, Printed()) == [RenderNode(ns[0], Printed())];
    } else {
      ShowNodesIsRendered(ns[1..]);
      JoinConcat(ShowNode(ns[0]), ShowNodes(ns[1..]), ' ');
      assert RenderNodes(ns, Printed())[1..] == RenderNodes(ns[1..], Printed());
    }
  }

  lemma {:induction false} ShownNodeIsRendered(n: Node)
    ensures ShowNode(n) != [] && Join(ShowNode(n), ' ') == RenderNode(n, Printed())
    decreases n, 1
  {
    match n
    case Word(_) =>
    case Hole(_) =>
    case Choice(os) =>
      ShowOptionsAt(os);
      RenderOptionsAt(os, Printed());
      forall i | 0 <= i < |os| ensures ShowOptions(os)[i] == RenderOptions(os, Printed())[i] { ShowIsRendered(os[i]); }
      assert ShowOptions(os) == RenderOptions(os, Printed());
      JoinSplit("(" + Join(ShowOptions(os), '|') + ")", ' ');
    case Optional(b) =>
      ShowIsRendered(b);
      JoinSplit("[" + Show(b) + "]", ' ');
  }

  lemma {:induction false} SameSlots(t: Template, a: Style, b: Style)
    requires a.choices == b.choices && a.brackets == b.brackets && forall k :: a.slot(k) == b.slot(k)
    ensures Render(t, a) == Render(t, b)
    decreases t
  {
    RenderNodesAt(t.nodes, a);
    RenderNodesAt(t.nodes, b);
    forall i | 0 <= i < |t.nodes| ensures RenderNode(t.nodes[i], a) == RenderNode(t.nodes[i], b) {
      match t.nodes[i]
      case Choice(os) =>
        RenderOptionsAt(os, a);
        RenderOptionsAt(os, b);
        forall j | 0 <= j < |os| ensures Render(os[j], a) == Render(os[j], b) { SameSlots(os[j], a, b); }
        assert RenderOptions(os, a) == RenderOptions(os, b);
      case Optional(body) => SameSlots(body, a, b);
      case _ =>
    }
    assert RenderNodes(t.nodes, a) == RenderNodes(t.nodes, b);
  }

  lemma {:induction false} SlotsAll(t: Template, p: string -> bool)
    requires forall k :: p(k)
    ensures Slots(t, p)
    decreases t
  {
    forall i | 0 <= i < |t.nodes| ensures SlotsOf(t.nodes[i], p) {
      match t.nodes[i]
      case Choice(os) => forall j | 0 <= j < |os| ensures Slots(os[j], p) { SlotsAll(os[j], p); }
      case Optional(b) => SlotsAll(b, p);
      case _ =>
    }
  }

  lemma {:induction false} SubstitutedRenders(t: Template, names: seq<string>, sample: string -> string)
    requires Lexical(t) && Generable(names, sample)
    ensures Substituted(Show(t), names, sample) == Render(t, Style(SlotText(names, sample), true, true))
    decreases |names|
  {
    if names == [] {
      ShowIsRendered(t);
      SameSlots(t, Printed(), Style(SlotText([], sample), true, true));
    } else {
      var init, name := names[..|names| - 1], names[|names| - 1];
      assert names == init + [name];
      SubstitutedRenders(t, init, sample);
      var a, b := Style(SlotText(init, sample), true, true), Style(SlotText(names, sample), true, true);
      forall k ensures SlotStep(name, sample(name), a.slot, b.slot)(k) {
        NextSlot(init, name, sample, k);
      }
      SlotsAll(t, SlotStep(name, sample(name), a.slot, b.slot));
      ReplaceRenders(t, name, sample(name), a, b);
      MapsWhole(Replacer(name, sample(name)), Render(t, a), Render(t, b));
    }
  }

  lemma NextSlot(init: seq<string>, name: string, sample: string -> string, k: string)
    requires Generable(init + [name], sample)
    ensures SlotStep(name, sample(name), SlotText(init, sample), SlotText(init + [name], sample))(k)
  {
    var names := init + [name];
    if k in init {
      var i :| 0 <= i < |init| && init[i] == k;
      assert names[i] == k && Bare(sample(k)) && '{' in Placeholder(k);
      assert sample(k) != Placeholder(k);
    } else {
      assert k in names <==> k == name;
    }
  }

  // ---- The generated text has no stray space ----

  lemma {:induction false} SqueezedClean(s: string)
    requires NoDouble(s)
    ensures Squeezed(s) == s
    decreases |s|
  {
    if s != "" {
      assert |s| > 1 ==> !(s[1 - 1] == ' ' && s[1] == ' ');
      forall i | 0 < i < |s[1..]| ensures !(s[1..][i - 1] == ' ' && s[1..][i] == ' ') {
        assert !(s[(i + 1) - 1] == ' ' && s[i + 1] == ' ');
      }
      SqueezedClean(s[1..]);
    }
  }

  lemma {:induction false} CleanJoin(ws: seq<string>)
    requires ws != [] && forall i :: 0 <= i < |ws| ==> Trim(ws[i]) && NoDouble(ws[i])
    ensures Trim(Join(ws, ' ')) && NoDouble(Join(ws, ' '))
    decreases |ws|
  {
    if |ws| > 1 {
      CleanJoin(ws[1..]);
      CleanPair(ws[0], Join(ws[1..], ' '));
    }
  }

  lemma CleanPair(a: string, b: string)
    requires Trim(a) && NoDouble(a) && Trim(b) && NoDouble(b)
    ensures Trim(a + [' '] + b) && NoDouble(a + [' '] + b)
  {
    var s := a + [' '] + b;
    forall i | 0 < i < |s| ensures !(s[i - 1] == ' ' && s[i] == ' ') {
      if i < |a| { assert s[i - 1] == a[i - 1] && s[i] == a[i]; }
      else if i > |a| + 1 {
        var j := i - |a| - 1;
        assert s[i - 1] == b[j - 1] && s[i] == b[j];
      }
    }
  }

  lemma PlainIsClean(w: string)
    requires Plain(w)
    ensures Trim(w) && NoDouble(w)
  {
    assert w[0] in w && w[|w| - 1] in w;
    forall i | 0 < i < |w| ensures !(w[i - 1] == ' ' && w[i] == ' ') { assert w[i] in w; }
  }

  lemma {:induction false} RenderedClean(t: Template, st: Style)
    requires Lexical(t) && Closes(t) && Slots(t, CleanSlots(st)) && !st.choices && !st.brackets
    ensures Trim(Render(t, st)) && NoDouble(Render(t, st))
    decreases t
  {
    var ws := RenderNodes(t.nodes, st);
    RenderNodesAt(t.nodes, st);
    forall i | 0 <= i < |ws| ensures Trim(ws[i]) && NoDouble(ws[i]) {
      assert LexicalNode(t.nodes[i]) && ClosesNode(t.nodes[i]) && SlotsOf(t.nodes[i], CleanSlots(st));
      match t.nodes[i]
      case Word(w) => PlainIsClean(w);
      case Hole(k) => assert CleanSample(st.slot(k));
      case Choice(os) => RenderedClean(os[0], st);
      case Optional(b) => RenderedClean(b, st);
    }
    CleanJoin(ws);
  }

  /** The last rewriting steps lose no bracket that is still there. */
  lemma {:induction false} SqueezedKeeps(s: string, c: char)
    requires c in s && c != ' '
    ensures c in Squeezed(s)
    decreases |s|
  {
    assert s == [s[0]] + s[1..];
    if c in s[1..] { SqueezedKeeps(s[1..], c); }
  }

  lemma {:induction false} StripKeeps(s: string, c: char)
    requires c in s && c != ' '
    ensures c in Strip(s)
    decreases |s|
  {
    if StartsWith(s, ' ') {
      assert s == [s[0]] + s[1..];
      StripKeeps(s[1..], c);
    } else if EndsWith(s, ' ') {
      assert s == s[..|s| - 1] + [s[|s| - 1]];
      StripKeeps(s[..|s| - 1], c);
    }
  }

  lemma InOneOf(s: string, i: nat, c: char)
    requires c in s && 0 < i < |s| && c != s[0] && c != s[i]
    ensures c in s[1..i] || c in s[i + 1..]
  {
    var k :| 0 <= k < |s| && s[k] == c;
    if k < i { assert s[1..i][k - 1] == c; } else { assert s[i + 1..][k - i - 1] == c; }
  }

  lemma {:induction false} UnbracketedKeeps(s: string, c: char)
    requires c in s && c != '[' && c != ']'
    ensures c in Unbracketed(s)
    decreases |s|
  {
    var i := Until(s[1..], "]");
    if s[0] == '[' && i + 1 < |s| {
      assert s[i + 1] == ']' by { assert s[1..][i] == s[i + 1]; }
      InOneOf(s, i + 1, c);
      if c in s[i + 2..] { UnbracketedKeeps(s[i + 2..], c); }
    } else {
      assert s == [s[0]] + s[1..];
      if c in s[1..] { UnbracketedKeeps(s[1..], c); }
    }
  }

  // ---- Exactly when the generator is the inverse of the compiler ----

  /** On templates of real choices with no optional group inside another, every step does its part. */
  lemma FilledText(t: Template, names: seq<string>, sample: string -> string)
    requires Lexical(t) && Closes(t) && Generable(names, sample) && Slots(t, k => k in names)
    requires Branching(t) && Flat(t, false)
    ensures FillText(Show(t), names, sample) == Render(t, Style(SlotText(names, sample), false, false))
  {
    var slot := SlotText(names, sample);
    var a, b, c := Style(slot, true, true), Style(slot, false, true), Style(slot, false, false);
    NamedSlotsAreClean(t, names, sample, a);
    NamedSlotsAreClean(t, names, sample, b);
    NamedSlotsAreClean(t, names, sample, c);
    SubstitutedRenders(t, names, sample);
    BranchesRender(t, a, b);
    MapsWhole(FirstBranches, Render(t, a), Render(t, b));
    UnbracketRenders(t, b, c);
    MapsWhole(Unbracketed, Render(t, b), Render(t, c));
    RenderedClean(t, c);
    SqueezedClean(Render(t, c));
  }

  lemma NamedSlotsAreClean(t: Template, names: seq<string>, sample: string -> string, st: Style)
    requires Generable(names, sample) && Slots(t, k => k in names) && st.slot == SlotText(names, sample)
    ensures Slots(t, CleanSlots(st))
  {
    forall k | k in names ensures CleanSample(st.slot(k)) {}
    SlotsImply(t, k => k in names, CleanSlots(st));
  }

  lemma {:induction false} RenderedIsFill(t: Template, st: Style, sample: string -> string)
    requires !st.choices && !st.brackets && Slots(t, k => st.slot(k) == sample(k))
    ensures Render(t, st) == Fill(t, sample)
    decreases t
  {
    RenderNodesAt(t.nodes, st);
    FillNodesAt(t.nodes, sample);
    forall i | 0 <= i < |t.nodes| ensures RenderNodes(t.nodes, st)[i] == FillNodes(t.nodes, sample)[i] {
      assert SlotsOf(t.nodes[i], k => st.slot(k) == sample(k));
      match t.nodes[i]
      case Choice(os) => if os != [] { RenderedIsFill(os[0], st, sample); }
      case Optional(b) => RenderedIsFill(b, st, sample);
      case Hole(k) => assert (k => st.slot(k) == sample(k))(k);
      case Word(_) =>
    }
    assert RenderNodes(t.nodes, st) == FillNodes(t.nodes, sample);
  }

  lemma {:induction false} FilledIsBare(t: Template, sample: string -> string, c: char)
    requires Lexical(t) && Slots(t, k => CleanSample(sample(k))) && c in "()[]"
    ensures c !in Fill(t, sample)
    decreases t, 0
  {
    FillNodesAt(t.nodes, sample);
    forall i | 0 <= i < |t.nodes| ensures c !in FillNodes(t.nodes, sample)[i] {
      assert LexicalNode(t.nodes[i]) && SlotsOf(t.nodes[i], k => CleanSample(sample(k)));
      FilledNodeIsBare(t.nodes[i], sample, c);
    }
    if c in Fill(t, sample) { CharOfJoin(FillNodes(t.nodes, sample), ' ', c); }
  }

  lemma {:induction false} FilledNodeIsBare(n: Node, sample: string -> string, c: char)
    requires LexicalNode(n) && SlotsOf(n, k => CleanSample(sample(k))) && c in "()[]"
    ensures c !in FillNode(n, sample)
    decreases n, 1
  {
    match n
    case Word(w) =>
    case Hole(k) => assert Bare(sample(k));
    case Choice(os) => if os != [] { FilledIsBare(os[0], sample, c); }
    case Optional(b) => FilledIsBare(b, sample, c);
  }

  /** On any other template that is read back the generated text keeps a bracket. */
  lemma BracketStays(t: Template, names: seq<string>, sample: string -> string) returns (c: char)
    requires Lexical(t) && Closes(t) && Generable(names, sample) && Slots(t, k => k in names)
    requires !Branching(t) || !Flat(t, false)
    ensures c in "()[]" && c in FillText(Show(t), names, sample)
  {
    var slot := SlotText(names, sample);
    var a, b, d := Style(slot, true, true), Style(slot, false, true), Style(slot, false, false);
    NamedSlotsAreClean(t, names, sample, a);
    NamedSlotsAreClean(t, names, sample, b);
    SubstitutedRenders(t, names, sample);
    var resolved := FirstBranches(Render(t, a));
    if !Branching(t) {
      LoneText(t, a, b, "");
      assert Render(t, a) + "" == Render(t, a);
      c := if '(' in resolved then '(' else ')';
      if '(' !in resolved { DepthClosed(resolved); }
      UnbracketedKeeps(resolved, c);
    } else {
      BranchesRender(t, a, b);
      MapsWhole(FirstBranches, Render(t, a), Render(t, b));
      SteepText(t, b, d);
      assert Render(t, b) + "" == Render(t, b);
      c := '[';
    }
    SqueezedKeeps(Unbracketed(resolved), c);
    StripKeeps(Squeezed(Unbracketed(resolved)), c);
  }

  /** The rewriting is right for the template: real choices, and no optional group inside another. */
  predicate Generates(t: Template) { Branching(t) && Flat(t, false) }

  /** On templates that are read back, the text rewriting fills in the template exactly when it is right for it. */
  lemma FillTextIsFillIff(t: Template, names: seq<string>, sample: string -> string)
    requires Lexical(t) && Closes(t) && Generable(names, sample) && Slots(t, k => k in names)
    ensures FillText(Show(t), names, sample) == Fill(t, sample) <==> Generates(t)
  {
    var st := Style(SlotText(names, sample), false, false);
    SlotsImply(t, k => k in names, k => st.slot(k) == sample(k));
    forall k | k in names ensures CleanSample(sample(k)) {}
    SlotsImply(t, k => k in names, k => CleanSample(sample(k)));
    if Generates(t) {
      FilledText(t, names, sample);
      RenderedIsFill(t, st, sample);
    } else {
      var c := BracketStays(t, names, sample);
      FilledIsBare(t, sample, c);
    }
  }

  // ---- The round trip on text ----

  lemma {:induction false} ClosesIsWellFormed(t: Template)
    requires Lexical(t) && Closes(t)
    ensures WellFormed(t)
    decreases t
  {
    forall i | 0 <= i < |t.nodes| ensures WellFormedNode(t.nodes[i]) {
      assert LexicalNode(t.nodes[i]) && ClosesNode(t.nodes[i]);
      match t.nodes[i]
      case Word(w) => PlainIsClean(w);
      case Hole(_) =>
      case Choice(os) => forall j | 0 <= j < |os| ensures WellFormed(os[j]) { ClosesIsWellFormed(os[j]); }
      case Optional(b) => ClosesIsWellFormed(b);
    }
  }

  lemma {:induction false} SpacedChars(ws: seq<string>, s: string, c: char)
    requires Spaced(ws, s) && c != ' ' && forall i :: 0 <= i < |ws| ==> c !in ws[i]
    ensures c !in s
    decreases |ws|
  {
    if |ws| > 1 {
      var i, j :| SpacedAt(ws, s, i, j);
      SpacedChars(ws[..|ws| - 1], s[..i], c);
      assert s == s[..i] + s[i..j] + s[j..];
      assert forall k :: 0 <= k < j - i ==> s[i..j][k] == ' ';
      assert s[j..] == ws[|ws| - 1];
    }
  }

  /** No slot language has a bracket in it. */
  ghost predicate Bracketless(lang: Vocabulary) {
    forall k, w, c :: lang(k, w) && c in "()[]" ==> c !in w
  }

  lemma {:induction false} SaidChars(t: Template, s: string, lang: Vocabulary, c: char)
    requires Lexical(t) && TemplateSays(t, s, lang) && Bracketless(lang) && c in "()[]"
    ensures c !in s
    decreases t, 0
  {
    var picks :| Reading(t, picks, lang) && Spaced(Kept(picks), s);
    var ws := Kept(picks);
    forall k | 0 <= k < |ws| ensures c !in ws[k] {
      var i := KeptFrom(picks, k);
      assert LexicalNode(t.nodes[i]) && NodeSays(t.nodes[i], ws[k], lang);
      SaidNodeChars(t.nodes[i], ws[k], lang, c);
    }
    SpacedChars(ws, s, c);
  }

  lemma {:induction false} SaidNodeChars(n: Node, s: string, lang: Vocabulary, c: char)
    requires LexicalNode(n) && NodeSays(n, s, lang) && Bracketless(lang) && c in "()[]"
    ensures c !in s
    decreases n, 1
  {
    match n
    case Word(w) => WordChars(w, s, lang, c);
    case Hole(_) =>
    case Choice(os) =>
      var j :| 0 <= j < |os| && TemplateSays(os[j], s, lang);
      SaidChars(os[j], s, lang, c);
    case Optional(b) => SaidChars(b, s, lang, c);
  }

  lemma WordChars(w: string, s: string, lang: Vocabulary, c: char)
    requires Plain(w) && NodeSays(Word(w), s, lang) && c in "()[]"
    ensures c !in s
  {
    assert c in " ()[]{}|";
    if IsFiller(w) { FillersHaveNoBracket(s, c); } else if s != w { ConfusionsHaveNoBracket(w, s, c); }
  }

  lemma FillersHaveNoBracket(s: string, c: char)
    requires IsFiller(s) && c in "()[]"
    ensures c !in s
  {}

  lemma ConfusionsHaveNoBracket(w: string, s: string, c: char)
    requires s in Confusions(w) && c in "()[]"
    ensures c !in s
  {}

  /**
   * Suite and grammar: what `_fill` makes of the text of a template that is read back is in the compiled
   * language exactly when every choice has two branches and, along the first ones, no optional group is
   * inside another.
   */
  lemma TextRoundTripIff(t: Template, names: seq<string>, sample: string -> string, lang: Vocabulary)
    requires Lexical(t) && ParseText(Show(t)) == Some(t) && Generable(names, sample) && Slots(t, k => k in names)
    requires Sampled(t, sample, lang) && Bracketless(lang)
    ensures Matches(Compile(t), FillText(Show(t), names, sample), lang) <==> Generates(t)
  {
    ParseShow(t);
    if Generates(t) {
      FillTextIsFillIff(t, names, sample);
      ClosesIsWellFormed(t);
      FillRoundTrip(t, sample, lang);
    } else {
      BracketIsNotSaid(t, names, sample, lang);
    }
  }

  lemma BracketIsNotSaid(t: Template, names: seq<string>, sample: string -> string, lang: Vocabulary)
    requires Lexical(t) && Closes(t) && Generable(names, sample) && Slots(t, k => k in names)
    requires !Generates(t) && Bracketless(lang)
    ensures !Matches(Compile(t), FillText(Show(t), names, sample), lang)
  {
    var c := BracketStays(t, names, sample);
    var s := FillText(Show(t), names, sample);
    CompileMeaning(t, s, lang);
    if TemplateSays(t, s, lang) { SaidChars(t, s, lang, c); }
  }
}
