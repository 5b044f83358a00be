/** Transcription damage to what the generator makes of any template. */
module Noise {
  import opened Options
  import opened Text
  import opened Regexes
  import opened NoiseTables
  import opened Templates
  import opened Utterances

  // ---- The words of an utterance, node by node ----

  function NodeWords(n: Node, sample: string -> string): seq<string>
    decreases n
  {
    match n
    case Word(w) => [w]
    case Hole(k) => Split(sample(k), ' ')
    case Choice(os) => if os == [] then [] else Words(os[0].nodes, sample)
    case Optional(b) => Words(b.nodes, sample)
  }

  function Words(ns: seq<Node>, sample: string -> string): seq<string>
    decreases ns
  {
    if ns == [] then [] else NodeWords(ns[0], sample) + Words(ns[1..], sample)
  }

  /** No word of the template has a space in it. */
  predicate OneWordEach(t: Template)
    decreases t, 0
  {
    forall i :: 0 <= i < |t.nodes| ==> OneWordNode(t.nodes[i])
  }

  predicate OneWordNode(n: Node)
    decreases n
  {
    match n
    case Word(w) => ' ' !in w
    case Hole(_) => true
    case Choice(os) => forall i :: 0 <= i < |os| ==> OneWordEach(os[i])
    case Optional(b) => OneWordEach(b)
  }

  predicate Clean(ws: seq<string>) { forall i :: 0 <= i < |ws| ==> ' ' !in ws[i] }

  lemma {:induction false} NodeFill(n: Node, sample: string -> string)
    requires WellFormedNode(n) && OneWordNode(n)
    ensures NodeWords(n, sample) != [] && Clean(NodeWords(n, sample))
    ensures FillNode(n, sample) == Join(NodeWords(n, sample), ' ')
    decreases n
  {
    match n
    case Word(w) =>
    case Hole(k) =>
      JoinSplit(sample(k), ' ');
      FieldsAreClean(sample(k), ' ');
    case Choice(os) => NodesFill(os[0].nodes, sample);
    case Optional(b) => NodesFill(b.nodes, sample);
  }

  lemma {:induction false} NodesFill(ns: seq<Node>, sample: string -> string)
    requires ns != [] && forall i :: 0 <= i < |ns| ==> WellFormedNode(ns[i]) && OneWordNode(ns[i])
    ensures Words(ns, sample) != [] && Clean(Words(ns, sample))
    ensures Join(FillNodes(ns, sample), ' ') == Join(Words(ns, sample), ' ')
    decreases ns
  {
    var head, rest := NodeWords(ns[0], sample), ns[1..];
    NodeFill(ns[0], sample);
    if rest == [] {
      assert head + [] == head;
    } else {
      NodesFill(rest, sample);
      JoinConcat(head, Words(rest, sample), ' ');
    }
  }

  /** `text.split()` gives the words back. */
  lemma UtteranceWords(t: Template, sample: string -> string)
    requires WellFormed(t) && OneWordEach(t)
    ensures Split(Fill(t, sample), ' ') == Words(t.nodes, sample)
  {
    NodesFill(t.nodes, sample);
    SplitJoin(Words(t.nodes, sample), ' ');
  }

  // ---- What noise leaves, node by node ----

  function Left(ws: seq<string>, hits: seq<bool>, many: bool): seq<string>
    requires |hits| == |ws|
  {
    Kept(NoisePicks(ws, hits, many))
  }

  lemma {:induction false} KeptAppend(a: Picks, b: Picks)
    ensures Kept(a + b) == Kept(a) + Kept(b)
    decreases |b|
  {
    if b == [] {
      assert a + b == a;
    } else {
      var n := |b| - 1;
      assert (a + b)[..|a| + n] == a + b[..n];
      KeptAppend(a, b[..n]);
    }
  }

  lemma KeptOne(p: Option<string>)
    ensures Kept([p]) == if p.Some? then [p.value] else []
  {
    assert [p][..0] == [];
  }

  lemma LeftAppend(a: seq<string>, b: seq<string>, hits: seq<bool>, many: bool)
    requires |hits| == |a| + |b|
    ensures Left(a + b, hits, many) == Left(a, hits[..|a|], many) + Left(b, hits[|a|..], many)
  {
    var p, q := NoisePicks(a, hits[..|a|], many), NoisePicks(b, hits[|a|..], many);
    assert NoisePicks(a + b, hits, many) == p + q;
    KeptAppend(p, q);
  }

  /**
   * The noise is mild from node i on: it turns no "to" of the template into "two", leaves the words of a slot
   * alone, and swallows all the words of a node only where the grammar can do without it.
   */
  ghost predicate MildFrom(t: Template, i: nat, hits: seq<bool>, sample: string -> string, many: bool)
    requires i <= |t.nodes| && |hits| == |Words(t.nodes[i..], sample)|
    decreases t, |t.nodes| - i
  {
    i == |t.nodes| ||
    var ws := NodeWords(t.nodes[i], sample);
    Cut(t, i, sample);
    && (if Left(ws, hits[..|ws|], many) == [] then Droppable(t, i)
        else MildNode(t.nodes[i], hits[..|ws|], sample, many))
    && MildFrom(t, i + 1, hits[|ws|..], sample, many)
  }

  ghost predicate MildNode(n: Node, hits: seq<bool>, sample: string -> string, many: bool)
    requires |hits| == |NodeWords(n, sample)|
    decreases n
  {
    match n
    case Word(w) => !(hits[0] && w == "to")
    case Hole(_) => Left(NodeWords(n, sample), hits, many) == NodeWords(n, sample)
    case Choice(os) => os != [] && MildHits(os[0], hits, sample, many)
    case Optional(b) => MildHits(b, hits, sample, many)
  }

  ghost predicate MildHits(t: Template, hits: seq<bool>, sample: string -> string, many: bool)
    requires |hits| == |Words(t.nodes, sample)|
    decreases t, |t.nodes| + 1
  {
    assert t.nodes[0..] == t.nodes;
    MildFrom(t, 0, hits, sample, many)
  }

  lemma Cut(t: Template, i: nat, sample: string -> string)
    requires i < |t.nodes|
    ensures Words(t.nodes[i..], sample) == NodeWords(t.nodes[i], sample) + Words(t.nodes[i + 1..], sample)
  {
    assert t.nodes[i..][0] == t.nodes[i] && t.nodes[i..][1..] == t.nodes[i + 1..];
  }

  // ---- Mild noise is damage the grammar absorbs ----

  lemma WordDamaged(w: string, hit: bool, many: bool, sample: string -> string)
    requires CorruptToken(w, hit, many).Some? && !(hit && w == "to")
    ensures DamagedNode(Word(w), CorruptToken(w, hit, many).value, sample)
  {
    if hit && Corruption(w).Some? {
      if IsFiller(w) { CorruptedFiller(w); } else { CorruptionIsListed(w); }
    }
  }

  lemma {:induction false} NodeDamaged(n: Node, hits: seq<bool>, sample: string -> string, many: bool)
    requires |hits| == |NodeWords(n, sample)|
    requires MildNode(n, hits, sample, many) && Left(NodeWords(n, sample), hits, many) != []
    ensures DamagedNode(n, Join(Left(NodeWords(n, sample), hits, many), ' '), sample)
    decreases n
  {
    match n
    case Word(w) =>
      assert NoisePicks([w], hits, many) == [CorruptToken(w, hits[0], many)];
      KeptOne(CorruptToken(w, hits[0], many));
      WordDamaged(w, hits[0], many, sample);
    case Hole(k) => JoinSplit(sample(k), ' ');
    case Choice(os) => MildIsDamaged(os[0], hits, sample, many);
    case Optional(b) => MildIsDamaged(b, hits, sample, many);
  }

  lemma {:induction false} MildIsDamaged(t: Template, hits: seq<bool>, sample: string -> string, many: bool)
    requires |hits| == |Words(t.nodes, sample)| && MildHits(t, hits, sample, many)
    ensures Damaged(t, Join(Left(Words(t.nodes, sample), hits, many), ' '), sample)
    decreases t, |t.nodes| + 1
  {
    assert t.nodes[0..] == t.nodes;
    var picks := PicksFrom(t, 0, hits, sample, many);
    forall j | 0 <= j < |picks|
      ensures if picks[j].None? then Droppable(t, j) else DamagedNode(t.nodes[j], picks[j].value, sample)
    {
      assert PickOk(t, 0 + j, picks[j], sample);
    }
    assert DamagedPicks(t, picks, sample);
  }

  ghost predicate PickOk(t: Template, i: nat, p: Option<string>, sample: string -> string)
    requires i < |t.nodes|
  {
    if p.None? then Droppable(t, i) else DamagedNode(t.nodes[i], p.value, sample)
  }

  ghost predicate PicksOk(t: Template, i: nat, picks: Picks, sample: string -> string) {
    i + |picks| == |t.nodes| && forall j :: 0 <= j < |picks| ==> PickOk(t, i + j, picks[j], sample)
  }

  lemma PicksCons(t: Template, i: nat, p: Option<string>, rest: Picks, sample: string -> string)
    requires i < |t.nodes| && PickOk(t, i, p, sample) && PicksOk(t, i + 1, rest, sample)
    ensures PicksOk(t, i, [p] + rest, sample)
  {
    var picks := [p] + rest;
    forall j | 0 <= j < |picks| ensures PickOk(t, i + j, picks[j], sample) {
      if j > 0 { assert picks[j] == rest[j - 1] && PickOk(t, i + 1 + (j - 1), rest[j - 1], sample); }
    }
  }

  /** What is left of each node from i on. */
  lemma {:induction false} PicksFrom(t: Template, i: nat, hits: seq<bool>, sample: string -> string, many: bool)
    returns (picks: Picks)
    requires i <= |t.nodes| && |hits| == |Words(t.nodes[i..], sample)| && MildFrom(t, i, hits, sample, many)
    ensures PicksOk(t, i, picks, sample)
    ensures Kept(picks) == [] <==> Left(Words(t.nodes[i..], sample), hits, many) == []
    ensures Join(Kept(picks), ' ') == Join(Left(Words(t.nodes[i..], sample), hits, many), ' ')
    decreases t, |t.nodes| - i
  {
    picks := [];
    if i < |t.nodes| {
      var ws := NodeWords(t.nodes[i], sample);
      Cut(t, i, sample);
      var left := Left(ws, hits[..|ws|], many);
      if left != [] { NodeDamaged(t.nodes[i], hits[..|ws|], sample, many); }
      var p := if left == [] then None else Some(Join(left, ' '));
      var rest := PicksFrom(t, i + 1, hits[|ws|..], sample, many);
      picks := [p] + rest;
      PicksCons(t, i, p, rest, sample);
      LeftAppend(ws, Words(t.nodes[i + 1..], sample), hits, many);
      Flattened(p, rest, left, Left(Words(t.nodes[i + 1..], sample), hits[|ws|..], many));
    }
  }

  /** Joining the joins of two lists is joining the two lists. */
  lemma Flattened(p: Option<string>, rest: Picks, a: seq<string>, b: seq<string>)
    requires p == if a == [] then None else Some(Join(a, ' '))
    requires (Kept(rest) == [] <==> b == []) && Join(Kept(rest), ' ') == Join(b, ' ')
    ensures (Kept([p] + rest) == [] <==> a + b == []) && Join(Kept([p] + rest), ' ') == Join(a + b, ' ')
  {
    KeptAppend([p], rest);
    KeptOne(p);
    if a == [] {
      assert a + b == b && [] + Kept(rest) == Kept(rest);
    } else if b == [] {
      assert a + b == a && [p.value] + [] == [p.value];
    } else {
      JoinConcat(a, b, ' ');
      JoinConcat([p.value], Kept(rest), ' ');
    }
  }

  /**
   * The suite's noise against the grammar, for templates with choices, optional groups and slots at any depth:
   * mild noise on a generated utterance leaves it in its template's language.
   */
  lemma NoiseAbsorbed(t: Template, hits: seq<bool>, sample: string -> string, lang: Vocabulary)
    requires WellFormed(t) && OneWordEach(t) && Sampled(t, sample, lang)
    requires |hits| == |Words(t.nodes, sample)| && MildHits(t, hits, sample, |hits| > 3)
    ensures Split(Fill(t, sample), ' ') == Words(t.nodes, sample)
    ensures Matches(Compile(t), Noisy(Split(Fill(t, sample), ' '), hits), lang)
  {
    var ws := Words(t.nodes, sample);
    UtteranceWords(t, sample);
    assert CorruptPicks(ws, hits) == NoisePicks(ws, hits, |hits| > 3);
    var out := Join(Left(ws, hits, |hits| > 3), ' ');
    if out == "" {
      JoinSplit(Fill(t, sample), ' ');
      FillRoundTrip(t, sample, lang);
    } else {
      MildIsDamaged(t, hits, sample, |hits| > 3);
      DamageIsAbsorbed(t, out, sample, lang);
    }
  }

  // ---- Noise the grammar cannot absorb ----

  /** The nodes among the first n that must be said. */
  function Required(t: Template, n: nat): nat
    requires n <= |t.nodes|
  {
    if n == 0 then 0 else Required(t, n - 1) + if Droppable(t, n - 1) then 0 else 1
  }

  lemma {:induction false} RequiredAreKept(t: Template, picks: Picks, n: nat)
    requires n <= |t.nodes| == |picks| && forall i :: 0 <= i < n && picks[i].None? ==> Droppable(t, i)
    ensures |Kept(picks[..n])| >= Required(t, n)
    decreases n
  {
    if n > 0 {
      RequiredAreKept(t, picks, n - 1);
      assert picks[..n][..n - 1] == picks[..n - 1];
    }
  }

  /** Text that is spaced words has at least a space between each two. */
  lemma {:induction false} SpacedCount(ws: seq<string>, s: string)
    requires Spaced(ws, s)
    ensures Occurrences(s, ' ') >= |ws| - 1
    decreases |ws|
  {
    if |ws| > 1 {
      var i, j :| SpacedAt(ws, s, i, j);
      SpacedCount(ws[..|ws| - 1], s[..i]);
      assert s == s[..i] + s[i..j] + s[j..];
      OccurrencesAppend(s[..i], s[i..j], ' ');
      OccurrencesAppend(s[..i] + s[i..j], s[j..], ' ');
      assert s[i..j][0] == ' ';
    }
  }

  /** Noise that leaves fewer words than the template has nodes to be said takes the utterance out of its language. */
  lemma TooFewLeft(t: Template, hits: seq<bool>, sample: string -> string, lang: Vocabulary)
    requires WellFormed(t) && OneWordEach(t) && |hits| == |Words(t.nodes, sample)|
    requires var left := Left(Words(t.nodes, sample), hits, |hits| > 3);
      Join(left, ' ') != "" && Clean(left) && |left| < Required(t, |t.nodes|)
    ensures Split(Fill(t, sample), ' ') == Words(t.nodes, sample)
    ensures !Matches(Compile(t), Noisy(Split(Fill(t, sample), ' '), hits), lang)
  {
    var ws := Words(t.nodes, sample);
    var left := Left(ws, hits, |hits| > 3);
    var s := Join(left, ' ');
    UtteranceWords(t, sample);
    assert CorruptPicks(ws, hits) == NoisePicks(ws, hits, |hits| > 3);
    JoinCount(left, ' ');
    CompileMeaning(t, s, lang);
    if TemplateSays(t, s, lang) {
      var picks :| Reading(t, picks, lang) && Spaced(Kept(picks), s);
      RequiredAreKept(t, picks, |t.nodes|);
      assert picks[..|t.nodes|] == picks;
      SpacedCount(Kept(picks), s);
      assert false;
    }
  }
}
