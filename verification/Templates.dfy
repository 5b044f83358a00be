/** Function words and the substitutions a noisy transcript is known to make. */
module NoiseTables {
  import opened Options
  import opened Text

  const FILLER_BY_LENGTH: seq<string> :=
    ["please", "the", "its", "are", "an", "is", "me", "do", "of", "we", "to", "a", "i"]

  predicate IsFiller(token: string) {
    token in FILLER_BY_LENGTH
  }

  /** ASR_CONFUSIONS, with no entry reading as no confusion. */
  function Confusions(token: string): seq<string> {
    match token
    case "two" => ["to", "too"]
    case "to" => ["two", "too"]
    case "four" => ["for"]
    case "for" => ["four"]
    case "one" => ["on", "won"]
    case "on" => ["one"]
    case "what" => ["watt"]
    case "how" => ["now"]
    case "show" => ["so"]
    case "line" => ["lane"]
    case "is" => ["its"]
    case "kya" => ["kia"]
    case "hai" => ["he"]
    case "batao" => ["bata"]
    case "ka" => ["ke"]
    case _ => []
  }

  function TokenAlternatives(token: string): seq<string> {
    [token] + Confusions(token)
  }

  /** The substitution `corrupt` makes, which is not the table the matcher knows. */
  function Corruption(token: string): Option<string> {
    match token
    case "two" => Some("to")
    case "to" => Some("two")
    case "four" => Some("for")
    case "for" => Some("four")
    case "one" => Some("on")
    case "on" => Some("one")
    case "is" => Some("its")
    case "the" => Some("a")
    case "show" => Some("so")
    case "what" => Some("watt")
    case "how" => Some("now")
    case "line" => Some("lane")
    case "karo" => Some("karo")
    case "kya" => Some("kia")
    case "hai" => Some("he")
    case "batao" => Some("bata")
    case "ka" => Some("ke")
    case _ => None
  }

  const DROPPABLE: seq<string> := ["the", "a", "an", "is", "are", "me", "do", "please", "what", "of"]

  lemma FillersAreWords()
    ensures forall w :: w in FILLER_BY_LENGTH ==> Trim(w)
  {
  }

  lemma AlternativesAreWords(token: string)
    requires Trim(token)
    ensures forall i :: 0 <= i < |TokenAlternatives(token)| ==> Trim(TokenAlternatives(token)[i])
  {
  }
}

/** Templates, their compilation by `_parse` and `_join`, and what they mean without regexes. */
module Templates {
  import opened Options
  import opened Text
  import opened Regexes
  import opened NoiseTables

  datatype Node =
    | Word(token: string)
    | Hole(kind: string)
    | Choice(options: seq<Template>)
    | Optional(body: Template)

  datatype Template = Template(nodes: seq<Node>)

  /** `_literal`: a function word is any function word and may be missing. */
  function Literal(token: string): Part {
    if IsFiller(token) then
      Part(Alt(seq(|FILLER_BY_LENGTH|, i requires 0 <= i < |FILLER_BY_LENGTH| => Lit(FILLER_BY_LENGTH[i]))), true)
    else
      var alts := TokenAlternatives(token);
      Part(if |alts| == 1 then Lit(token) else Alt(seq(|alts|, i requires 0 <= i < |alts| => Lit(alts[i]))), false)
  }

  function CompileNode(n: Node): Part
    decreases n
  {
    match n
    case Word(t) => Literal(t)
    case Hole(k) => Part(Capture(k), false)
    case Choice(os) => Part(Alt(CompileOptions(os)), false)
    case Optional(b) => Part(Compile(b), true)
  }

  function CompileOptions(os: seq<Template>): (rs: seq<Regex>)
    decreases os
  {
    if os == [] then [] else [Compile(os[0])] + CompileOptions(os[1..])
  }

  function CompileNodes(ns: seq<Node>): (ps: seq<Part>)
    decreases ns
  {
    if ns == [] then [] else [CompileNode(ns[0])] + CompileNodes(ns[1..])
  }

  function Parts(t: Template): seq<Part>
    decreases t, 0
  {
    KeepAnAnchor(CompileNodes(t.nodes))
  }

  /** `_join(_parse(template))`. */
  function Compile(t: Template): Regex
    decreases t, 1
  {
    JoinParts(Parts(t))
  }

  lemma {:induction false} CompileNodesAt(ns: seq<Node>)
    ensures |CompileNodes(ns)| == |ns|
    ensures forall i :: 0 <= i < |ns| ==> CompileNodes(ns)[i] == CompileNode(ns[i])
  {
    if ns != [] { CompileNodesAt(ns[1..]); }
  }

  lemma {:induction false} CompileOptionsAt(os: seq<Template>)
    ensures |CompileOptions(os)| == |os|
    ensures forall i :: 0 <= i < |os| ==> CompileOptions(os)[i] == Compile(os[i])
  {
    if os != [] { CompileOptionsAt(os[1..]); }
  }

  // ---- Meaning, defined on the template alone ----

  predicate MayDrop(n: Node) {
    n.Optional? || (n.Word? && IsFiller(n.token))
  }

  predicate Droppable(t: Template, i: nat)
    requires i < |t.nodes|
  {
    MayDrop(t.nodes[i]) && (i != 0 || exists k :: 0 <= k < |t.nodes| && !MayDrop(t.nodes[k]))
  }

  ghost predicate NodeSays(n: Node, s: string, lang: Vocabulary)
    decreases n
  {
    match n
    case Word(t) => if IsFiller(t) then IsFiller(s) else s in TokenAlternatives(t)
    case Hole(k) => lang(k, s)
    case Choice(os) => exists i :: 0 <= i < |os| && TemplateSays(os[i], s, lang)
    case Optional(b) => TemplateSays(b, s, lang)
  }

  ghost predicate Reading(t: Template, picks: Picks, lang: Vocabulary)
    decreases t, 0
  {
    |picks| == |t.nodes| &&
    forall i :: 0 <= i < |picks| ==>
      if picks[i].None? then Droppable(t, i) else NodeSays(t.nodes[i], picks[i].value, lang)
  }

  /** Every undroppable part said, any subset of the droppable ones, runs of spaces between. */
  ghost predicate TemplateSays(t: Template, s: string, lang: Vocabulary)
    decreases t, 1
  {
    exists picks :: Reading(t, picks, lang) && Spaced(Kept(picks), s)
  }

  lemma LiteralMeaning(token: string, s: string, lang: Vocabulary)
    ensures Matches(Literal(token).frag, s, lang) <==> NodeSays(Word(token), s, lang)
    ensures Literal(token).optional == MayDrop(Word(token))
  {
    var r := Literal(token).frag;
    if IsFiller(token) {
      forall w | w in FILLER_BY_LENGTH ensures exists i :: 0 <= i < |r.options| && r.options[i] == Lit(w) {
        var i :| 0 <= i < |FILLER_BY_LENGTH| && FILLER_BY_LENGTH[i] == w;
        assert r.options[i] == Lit(w);
      }
      if IsFiller(s) { assert exists i :: 0 <= i < |r.options| && r.options[i] == Lit(s); }
    } else {
      var alts := TokenAlternatives(token);
      assert alts[0] == token;
      if |alts| > 1 && s in alts {
        var i :| 0 <= i < |alts| && alts[i] == s;
        assert r.options[i] == Lit(s);
      }
    }
  }

  lemma OptionalIsMayDrop(n: Node)
    ensures CompileNode(n).optional == MayDrop(n)
  {
    if n.Word? { LiteralMeaning(n.token, "", (_, _) => false); }
  }

  lemma DroppableIsOptional(t: Template)
    ensures |Parts(t)| == |t.nodes|
    ensures forall i :: 0 <= i < |t.nodes| ==> Parts(t)[i].frag == CompileNode(t.nodes[i]).frag
    ensures forall i :: 0 <= i < |t.nodes| ==> Parts(t)[i].optional == Droppable(t, i)
  {
    var ps := CompileNodes(t.nodes);
    CompileNodesAt(t.nodes);
    forall k | 0 <= k < |ps| ensures ps[k].optional == MayDrop(t.nodes[k]) { OptionalIsMayDrop(t.nodes[k]); }
    if Anchored(ps) {
      var k :| 0 <= k < |ps| && !ps[k].optional;
      assert !MayDrop(t.nodes[k]);
    }
  }

  lemma {:induction false} NodeMeaning(n: Node, s: string, lang: Vocabulary)
    ensures Matches(CompileNode(n).frag, s, lang) <==> NodeSays(n, s, lang)
    decreases n
  {
    match n
    case Word(t) => LiteralMeaning(t, s, lang);
    case Hole(_) =>
    case Choice(os) =>
      CompileOptionsAt(os);
      forall i | 0 <= i < |os| ensures Matches(CompileOptions(os)[i], s, lang) <==> TemplateSays(os[i], s, lang) {
        CompileMeaning(os[i], s, lang);
      }
    case Optional(b) => CompileMeaning(b, s, lang);
  }

  /** The compiled regex accepts exactly what the template means, at any nesting depth. */
  lemma {:induction false} CompileMeaning(t: Template, s: string, lang: Vocabulary)
    ensures Matches(Compile(t), s, lang) <==> TemplateSays(t, s, lang)
    decreases t, 1
  {
    JoinLanguage(Parts(t), s, lang);
    if Says(Parts(t), s, lang) {
      var picks :| Saying(Parts(t), picks, s, lang);
      ChosenIsReading(t, picks, lang);
      assert Reading(t, picks, lang) && Spaced(Kept(picks), s);
    }
    if TemplateSays(t, s, lang) {
      var picks :| Reading(t, picks, lang) && Spaced(Kept(picks), s);
      ChosenIsReading(t, picks, lang);
      assert Saying(Parts(t), picks, s, lang);
    }
  }

  lemma {:induction false} ChosenIsReading(t: Template, picks: Picks, lang: Vocabulary)
    ensures Chosen(Parts(t), picks, lang) <==> Reading(t, picks, lang)
    decreases t, 0
  {
    DroppableIsOptional(t);
    if |picks| == |t.nodes| {
      forall i | 0 <= i < |picks| && picks[i].Some?
        ensures Matches(Parts(t)[i].frag, picks[i].value, lang) <==> NodeSays(t.nodes[i], picks[i].value, lang)
      {
        NodeMeaning(t.nodes[i], picks[i].value, lang);
      }
    }
  }

  /** Every slot of the template, at any depth, has the property. */
  predicate Slots(t: Template, p: string -> bool)
    decreases t, 0
  {
    forall i :: 0 <= i < |t.nodes| ==> SlotsOf(t.nodes[i], p)
  }

  predicate SlotsOf(n: Node, p: string -> bool)
    decreases n
  {
    match n
    case Word(_) => true
    case Hole(k) => p(k)
    case Choice(os) => forall i :: 0 <= i < |os| ==> Slots(os[i], p)
    case Optional(b) => Slots(b, p)
  }
}
