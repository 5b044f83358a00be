/** Utterances against templates: separators, the generator's round trip and transcription damage. */
module Utterances {
  import opened Options
  import opened Text
  import opened Regexes
  import opened NoiseTables
  import opened Templates

  // ---- Normalised text has single spaces ----

  lemma {:induction false} JoinSnoc(ws: seq<string>, w: string)
    requires ws != []
    ensures Join(ws + [w], ' ') == Join(ws, ' ') + [' '] + w
    decreases |ws|
  {
    var ww := ws + [w];
    if |ws| == 1 {
      assert ww[1..] == [w];
    } else {
      assert ww[1..] == ws[1..] + [w];
      JoinSnoc(ws[1..], w);
    }
  }

  lemma {:induction false} JoinIsSpaced(ws: seq<string>)
    ensures Spaced(ws, Join(ws, ' '))
    decreases |ws|
  {
    if |ws| > 1 {
      var n := |ws| - 1;
      var init, s := Join(ws[..n], ' '), Join(ws, ' ');
      JoinIsSpaced(ws[..n]);
      assert ws == ws[..n] + [ws[n]];
      JoinSnoc(ws[..n], ws[n]);
      var i := |init|;
      assert s[..i] == init && s[i..i + 1] == " " && s[i + 1..] == ws[n];
      assert SpacedAt(ws, s, i, i + 1);
    }
  }

  lemma NoTwoSpaces(s: string, i: nat)
    requires NoDouble(s) && i + 1 < |s|
    ensures s[i] != ' ' || s[i + 1] != ' '
  {
    assert !(s[i + 1 - 1] == ' ' && s[i + 1] == ' ');
  }

  lemma RunIsOneSpace(s: string, i: nat, j: nat)
    requires i <= j <= |s| && IsSpaces(s[i..j]) && NoDouble(s)
    ensures s[i..j] == " "
  {
    assert forall k :: 0 <= k < j - i ==> s[i..j][k] == s[i + k];
    if i + 1 < j {
      NoTwoSpaces(s, i);
      assert false;
    }
  }

  lemma {:induction false} SpacedIsJoin(ws: seq<string>, s: string)
    requires Spaced(ws, s) && NoDouble(s)
    ensures s == Join(ws, ' ')
    decreases |ws|
  {
    if |ws| > 1 {
      var n := |ws| - 1;
      var i, j :| SpacedAt(ws, s, i, j);
      RunIsOneSpace(s, i, j);
      SpacedIsJoin(ws[..n], s[..i]);
      assert ws == ws[..n] + [ws[n]];
      JoinSnoc(ws[..n], ws[n]);
      assert s == s[..i] + s[i..j] + s[j..];
    }
  }

  ghost predicate Reads(t: Template, s: string, lang: Vocabulary) {
    exists picks :: Reading(t, picks, lang) && s == Join(Kept(picks), ' ')
  }

  lemma SaysIsReads(t: Template, s: string, lang: Vocabulary)
    requires NoDouble(s)
    ensures TemplateSays(t, s, lang) <==> Reads(t, s, lang)
  {
    if TemplateSays(t, s, lang) {
      var picks :| Reading(t, picks, lang) && Spaced(Kept(picks), s);
      SpacedIsJoin(Kept(picks), s);
    }
    if Reads(t, s, lang) {
      var picks :| Reading(t, picks, lang) && s == Join(Kept(picks), ' ');
      JoinIsSpaced(Kept(picks));
    }
  }

  /**
   * On a normalised utterance the compiled template is exactly the set of single-space joins of its
   * readings: every required part, any subset of the droppable ones.
   */
  lemma UtteranceLanguage(t: Template, s: string, lang: Vocabulary)
    requires NoDouble(s)
    ensures Matches(Compile(t), s, lang) <==> Reads(t, s, lang)
  {
    CompileMeaning(t, s, lang);
    SaysIsReads(t, s, lang);
  }

  // ---- Separators at the ends ----

  ghost predicate TrimFragments(parts: seq<Part>, lang: Vocabulary) {
    forall i, s :: 0 <= i < |parts| && Matches(parts[i].frag, s, lang) ==> Trim(s)
  }

  lemma {:induction false} SpacedTrim(ws: seq<string>, s: string)
    requires ws != [] && Spaced(ws, s) && forall i :: 0 <= i < |ws| ==> Trim(ws[i])
    ensures Trim(s)
    decreases |ws|
  {
    var n := |ws| - 1;
    if n > 0 {
      var i, j :| SpacedAt(ws, s, i, j);
      SpacedTrim(ws[..n], s[..i]);
      assert s[..i][0] == s[0] && s[j..][|s| - j - 1] == s[|s| - 1];
    }
  }

  lemma {:induction false} KeptAreSaid(parts: seq<Part>, picks: Picks, lang: Vocabulary)
    requires Chosen(parts, picks, lang) && TrimFragments(parts, lang)
    ensures forall i :: 0 <= i < |Kept(picks)| ==> Trim(Kept(picks)[i])
    decreases |picks|
  {
    if parts != [] {
      ChosenInit(parts, picks, lang);
      KeptAreSaid(parts[..|parts| - 1], picks[..|parts| - 1], lang);
    }
  }

  lemma LedEndsInSpace(ws: seq<string>, s: string)
    requires Led(ws, s) && s != ""
    ensures s[|s| - 1] == ' '
  {
    var i, j :| LedAt(ws, s, i, j);
    assert s[j..][|s| - j - 1] == s[|s| - 1];
  }

  /**
   * Why one part must be required: a non-empty match has clean ends exactly when the list is anchored;
   * without an anchor every such match ends in a separator.
   */
  lemma CleanEndsNeedAnAnchor(parts: seq<Part>, s: string, lang: Vocabulary)
    requires TrimFragments(parts, lang) && Matches(JoinParts(parts), s, lang) && s != ""
    ensures Trim(s) <==> Anchored(parts)
  {
    JoinLanguage(parts, s, lang);
    var picks :| Saying(parts, picks, s, lang);
    if Anchored(parts) {
      KeptAreSaid(parts, picks, lang);
      KeptNonEmpty(parts, picks, lang);
      SpacedTrim(Kept(picks), s);
    } else {
      LedEndsInSpace(Kept(picks), s);
    }
  }

  predicate WellFormed(t: Template)
    decreases t, 0
  {
    t.nodes != [] && forall i :: 0 <= i < |t.nodes| ==> WellFormedNode(t.nodes[i])
  }

  predicate WellFormedNode(n: Node)
    decreases n, 1
  {
    match n
    case Word(w) => Trim(w)
    case Hole(_) => true
    case Choice(os) => os != [] && forall i :: 0 <= i < |os| ==> WellFormed(os[i])
    case Optional(b) => WellFormed(b)
  }

  lemma {:induction false} NodeEndsAreClean(n: Node, s: string, lang: Vocabulary)
    requires WellFormedNode(n) && NodeSays(n, s, lang)
    requires forall k, w :: lang(k, w) ==> Trim(w)
    ensures Trim(s)
    decreases n, 1
  {
    match n
    case Word(w) =>
      FillersAreWords();
      AlternativesAreWords(w);
    case Hole(_) =>
    case Choice(os) =>
      var i :| 0 <= i < |os| && TemplateSays(os[i], s, lang);
      CompileMeaning(os[i], s, lang);
      EndsAreClean(os[i], s, lang);
    case Optional(b) =>
      CompileMeaning(b, s, lang);
      EndsAreClean(b, s, lang);
  }

  /** No template ever matches text with a leading or trailing separator, nor empty text. */
  lemma {:induction false} EndsAreClean(t: Template, s: string, lang: Vocabulary)
    requires WellFormed(t) && Matches(Compile(t), s, lang)
    requires forall k, w :: lang(k, w) ==> Trim(w)
    ensures Trim(s)
    decreases t, 0
  {
    var picks := JoinSound(Parts(t), s, lang);
    DroppableIsOptional(t);
    ChosenIsReading(t, picks, lang);
    var ws := Kept(picks);
    KeptNonEmpty(Parts(t), picks, lang);
    forall k | 0 <= k < |ws| ensures Trim(ws[k]) {
      var i := KeptFrom(picks, k);
      NodeEndsAreClean(t.nodes[i], ws[k], lang);
    }
    SpacedTrim(ws, s);
  }

  lemma {:induction false} KeptFrom(picks: Picks, k: nat) returns (i: nat)
    requires k < |Kept(picks)|
    ensures i < |picks| && picks[i] == Some(Kept(picks)[k])
    decreases |picks|
  {
    var n := |picks| - 1;
    if k < |Kept(picks[..n])| {
      i := KeptFrom(picks[..n], k);
    } else {
      i := n;
    }
  }

  // ---- The generator ----

  /** `_fill` on a template: the sample of each slot, the first branch, every optional part kept. */
  function Fill(t: Template, sample: string -> string): string
    decreases t, 0
  {
    Join(FillNodes(t.nodes, sample), ' ')
  }

  function FillNodes(ns: seq<Node>, sample: string -> string): (ws: seq<string>)
    ensures |ws| == |ns|
    decreases ns
  {
    if ns == [] then [] else [FillNode(ns[0], sample)] + FillNodes(ns[1..], sample)
  }

  function FillNode(n: Node, sample: string -> string): string
    decreases n
  {
    match n
    case Word(w) => w
    case Hole(k) => sample(k)
    case Choice(os) => if os == [] then "" else Fill(os[0], sample)
    case Optional(b) => Fill(b, sample)
  }

  lemma {:induction false} FillNodesAt(ns: seq<Node>, sample: string -> string)
    ensures forall i :: 0 <= i < |ns| ==> FillNodes(ns, sample)[i] == FillNode(ns[i], sample)
  {
    if ns != [] { FillNodesAt(ns[1..], sample); }
  }

  /** The damage the grammar absorbs, at any depth: function words lost or swapped, words misheard. */
  ghost predicate DamagedNode(n: Node, s: string, sample: string -> string)
    decreases n
  {
    match n
    case Word(w) => if IsFiller(w) then IsFiller(s) else s == w || s in Confusions(w)
    case Hole(k) => s == sample(k)
    case Choice(os) => os != [] && Damaged(os[0], s, sample)
    case Optional(b) => Damaged(b, s, sample)
  }

  ghost predicate DamagedPicks(t: Template, picks: Picks, sample: string -> string)
    decreases t, 0
  {
    |picks| == |t.nodes| &&
    forall i :: 0 <= i < |picks| ==>
      if picks[i].None? then Droppable(t, i) else DamagedNode(t.nodes[i], picks[i].value, sample)
  }

  ghost predicate Damaged(t: Template, s: string, sample: string -> string)
    decreases t, 1
  {
    exists picks :: DamagedPicks(t, picks, sample) && s == Join(Kept(picks), ' ')
  }

  function InVocabulary(sample: string -> string, lang: Vocabulary): string -> bool { k => lang(k, sample(k)) }

  /** Every slot of the template has a sample its type accepts. */
  predicate Sampled(t: Template, sample: string -> string, lang: Vocabulary) {
    Slots(t, InVocabulary(sample, lang))
  }

  lemma {:induction false} DamagedNodeIsSaid(n: Node, s: string, sample: string -> string, lang: Vocabulary)
    requires SlotsOf(n, InVocabulary(sample, lang)) && DamagedNode(n, s, sample)
    ensures NodeSays(n, s, lang)
    decreases n
  {
    match n
    case Word(_) =>
    case Hole(_) =>
    case Choice(os) => DamageIsAbsorbed(os[0], s, sample, lang); CompileMeaning(os[0], s, lang);
    case Optional(b) => DamageIsAbsorbed(b, s, sample, lang); CompileMeaning(b, s, lang);
  }

  /** A damaged utterance is still in the template's exact language. */
  lemma {:induction false} DamageIsAbsorbed(t: Template, s: string, sample: string -> string, lang: Vocabulary)
    requires Sampled(t, sample, lang) && Damaged(t, s, sample)
    ensures Matches(Compile(t), s, lang)
    decreases t
  {
    var picks: Picks :| DamagedPicks(t, picks, sample) && s == Join(Kept(picks), ' ');
    forall i | 0 <= i < |picks| && picks[i].Some? ensures NodeSays(t.nodes[i], picks[i].value, lang) {
      DamagedNodeIsSaid(t.nodes[i], picks[i].value, sample, lang);
    }
    assert Reading(t, picks, lang);
    JoinIsSpaced(Kept(picks));
    CompileMeaning(t, s, lang);
  }

  function AllSome(ws: seq<string>): Picks {
    seq(|ws|, i requires 0 <= i < |ws| => Some(ws[i]))
  }

  lemma {:induction false} KeptAllSome(ws: seq<string>)
    ensures Kept(AllSome(ws)) == ws
    decreases |ws|
  {
    if ws != [] {
      var n := |ws| - 1;
      KeptAllSome(ws[..n]);
      assert AllSome(ws)[..n] == AllSome(ws[..n]);
    }
  }

  lemma {:induction false} FillIsUndamaged(t: Template, sample: string -> string)
    requires WellFormed(t)
    ensures Damaged(t, Fill(t, sample), sample)
    decreases t
  {
    var ws := FillNodes(t.nodes, sample);
    FillNodesAt(t.nodes, sample);
    forall i | 0 <= i < |ws| ensures DamagedNode(t.nodes[i], ws[i], sample) {
      assert WellFormedNode(t.nodes[i]);
      match t.nodes[i]
      case Choice(os) => FillIsUndamaged(os[0], sample);
      case Optional(b) => FillIsUndamaged(b, sample);
      case _ =>
    }
    KeptAllSome(ws);
    assert DamagedPicks(t, AllSome(ws), sample);
  }

  /** The suite and the grammar cannot drift: every generated utterance is in its template's language. */
  lemma FillRoundTrip(t: Template, sample: string -> string, lang: Vocabulary)
    requires WellFormed(t) && Sampled(t, sample, lang)
    ensures Matches(Compile(t), Fill(t, sample), lang)
  {
    FillIsUndamaged(t, sample);
    DamageIsAbsorbed(t, Fill(t, sample), sample, lang);
  }

  // ---- `corrupt` on a template of plain words ----

  function CorruptToken(token: string, hit: bool, many: bool): Option<string> {
    if !hit then Some(token)
    else if Corruption(token).Some? then Corruption(token)
    else if token in DROPPABLE && many then None
    else Some(token)
  }

  function CorruptPicks(tokens: seq<string>, hits: seq<bool>): Picks
    requires |hits| == |tokens|
  {
    seq(|tokens|, i requires 0 <= i < |tokens| => CorruptToken(tokens[i], hits[i], |tokens| > 3))
  }

  /** `hits[i]` says whether the random draw damages token i. */
  method Corrupt(text: string, hits: seq<bool>) returns (noisy: string)
    requires |hits| == |Split(text, ' ')|
    ensures var out := Join(Kept(CorruptPicks(Split(text, ' '), hits)), ' ');
            noisy == if out == "" then text else out
  {
    var tokens := Split(text, ' ');
    ghost var picks := CorruptPicks(tokens, hits);
    var out: seq<string> := [];
    for i := 0 to |tokens|
      invariant out == Kept(picks[..i])
    {
      var token := tokens[i];
      assert picks[..i + 1][..i] == picks[..i];
      if !hits[i] {
        out := out + [token];
      } else {
        match Corruption(token)
        case Some(c) => out := out + [c];
        case None =>
          if !(token in DROPPABLE && |tokens| > 3) { out := out + [token]; }
      }
    }
    assert picks[..|tokens|] == picks;
    noisy := Join(out, ' ');
    if noisy == "" { noisy := text; }
  }

  /** The words `corrupt` can swallow: those listed that are not misheard instead. */
  predicate Swallowed(token: string) {
    token in ["a", "an", "are", "me", "do", "please", "of"]
  }

  /**
   * What noise does to each token: nothing unless it is hit; a word that can be misheard is, and is never
   * swallowed; of the others seven are swallowed, from the fourth token of an utterance on.
   */
  lemma NoiseIs(tokens: seq<string>, hits: seq<bool>, i: nat)
    requires |hits| == |tokens| && i < |tokens|
    ensures var picks := CorruptPicks(tokens, hits);
      && |picks| == |tokens|
      && (picks[i].None? <==> hits[i] && |tokens| >= 4 && Swallowed(tokens[i]))
      && (picks[i].Some? ==>
            picks[i].value == if hits[i] && Corruption(tokens[i]).Some? then Corruption(tokens[i]).value else tokens[i])
  {
    assert forall w :: w in DROPPABLE && Corruption(w).None? <==> Swallowed(w);
  }

  /** The grammar accepts each substitution `corrupt` makes except "two" for "to". */
  lemma SubstitutionTolerated(token: string, lang: Vocabulary)
    requires Corruption(token).Some?
    ensures NodeSays(Word(token), Corruption(token).value, lang) <==> token != "to"
  {
    assert "its" in FILLER_BY_LENGTH && "a" in FILLER_BY_LENGTH && "to" in FILLER_BY_LENGTH;
    assert "two" !in FILLER_BY_LENGTH;
    if !IsFiller(token) { CorruptionIsListed(token); }
  }

  lemma CorruptionIsListed(token: string)
    requires Corruption(token).Some? && !IsFiller(token)
    ensures Corruption(token).value in TokenAlternatives(token)
  {
    if token != "karo" { assert TokenAlternatives(token)[1] == Corruption(token).value; }
  }

  /** Every word `corrupt` swallows is one the grammar can do without: "what" is misheard, never lost. */
  lemma DropTolerated(token: string, hit: bool, many: bool)
    requires CorruptToken(token, hit, many).None?
    ensures MayDrop(Word(token))
  {
    assert token in DROPPABLE && token != "what";
    assert forall w :: w in DROPPABLE && w != "what" ==> w in FILLER_BY_LENGTH;
  }

  function WordsOnly(tokens: seq<string>): Template {
    Template(seq(|tokens|, i requires 0 <= i < |tokens| => Word(tokens[i])))
  }

  /** The words that are not function words. */
  function Content(ws: seq<string>): nat {
    if ws == [] then 0 else Content(ws[..|ws| - 1]) + if IsFiller(ws[|ws| - 1]) then 0 else 1
  }

  predicate NoneHit(tokens: seq<string>, hits: seq<bool>, token: string)
    requires |hits| == |tokens|
  {
    forall i :: 0 <= i < |tokens| && tokens[i] == token ==> !hits[i]
  }

  /** What one hit token turns into, for the grammar: content stays content except "two", filler filler except "to". */
  lemma HitKeepsKind(token: string, hit: bool, many: bool)
    requires hit ==> token != "two" && token != "to"
    ensures var c := CorruptToken(token, hit, many);
      && (c.None? ==> IsFiller(token))
      && (c.Some? ==> IsFiller(c.value) == IsFiller(token))
      && (c.Some? && !IsFiller(token) ==> c.value in TokenAlternatives(token))
  {
    assert "its" in FILLER_BY_LENGTH && "a" in FILLER_BY_LENGTH;
    if hit && Corruption(token).Some? {
      KindOfCorruption(token);
      if !IsFiller(token) { CorruptionIsListed(token); }
    } else if CorruptToken(token, hit, many).None? {
      DropTolerated(token, hit, many);
    } else {
      assert TokenAlternatives(token)[0] == token;
    }
  }

  lemma KindOfCorruption(token: string)
    requires Corruption(token).Some? && token != "two" && token != "to"
    ensures IsFiller(Corruption(token).value) == IsFiller(token)
  {
    if IsFiller(token) { CorruptedFiller(token); } else { CorruptedContent(token); }
  }

  lemma CorruptedFiller(token: string)
    requires IsFiller(token) && Corruption(token).Some? && token != "to"
    ensures IsFiller(Corruption(token).value)
  {
    assert "its" in FILLER_BY_LENGTH && "a" in FILLER_BY_LENGTH;
    assert token == "is" || token == "the";
  }

  lemma CorruptedContent(token: string)
    requires !IsFiller(token) && Corruption(token).Some? && token != "two"
    ensures !IsFiller(Corruption(token).value)
  {
    assert Corruption("is") == Some("its") && "is" in FILLER_BY_LENGTH && "the" in FILLER_BY_LENGTH;
    var c := Corruption(token).value;
    assert c in ["for", "four", "on", "one", "so", "watt", "now", "lane", "karo", "kia", "he", "bata", "ke"];
    assert forall w ::
      w in ["for", "four", "on", "one", "so", "watt", "now", "lane", "karo", "kia", "he", "bata", "ke"] ==>
      w !in FILLER_BY_LENGTH;
  }

  lemma {:induction false} ContentOfPicks(nodes: seq<string>, picks: Picks)
    requires |picks| == |nodes|
    requires forall i :: 0 <= i < |nodes| && picks[i].Some? && IsFiller(nodes[i]) ==> IsFiller(picks[i].value)
    ensures Content(Kept(picks)) <= Content(nodes)
    decreases |nodes|
  {
    if nodes != [] {
      var n := |nodes| - 1;
      ContentOfPicks(nodes[..n], picks[..n]);
      KeptIsExtended(picks);
      ContentExtend(Kept(picks[..n]), picks[n]);
    }
  }

  lemma KeptIsExtended(picks: Picks)
    requires picks != []
    ensures Kept(picks) == Extend(Kept(picks[..|picks| - 1]), picks[|picks| - 1])
  {}

  lemma ContentExtend(ws: seq<string>, pick: Option<string>)
    ensures Content(Extend(ws, pick)) == Content(ws) + if pick.Some? && !IsFiller(pick.value) then 1 else 0
  {
    if pick.Some? { assert (ws + [pick.value])[..|ws|] == ws; } else { assert ws + [] == ws; }
  }

  /** How many function words the noise has turned into content: the "to"s it hit. */
  function HitCount(tokens: seq<string>, hits: seq<bool>, token: string): nat
    requires |hits| == |tokens|
  {
    if tokens == [] then 0
    else
      var n := |tokens| - 1;
      HitCount(tokens[..n], hits[..n], token) + if hits[n] && tokens[n] == token then 1 else 0
  }

  lemma {:induction false} HitCountZero(tokens: seq<string>, hits: seq<bool>, token: string)
    requires |hits| == |tokens|
    ensures HitCount(tokens, hits, token) == 0 <==> NoneHit(tokens, hits, token)
    decreases |tokens|
  {
    if tokens != [] {
      var n := |tokens| - 1;
      HitCountZero(tokens[..n], hits[..n], token);
      assert forall i :: 0 <= i < n ==> tokens[..n][i] == tokens[i] && hits[..n][i] == hits[i];
    }
  }

  function NoisePicks(tokens: seq<string>, hits: seq<bool>, many: bool): Picks
    requires |hits| == |tokens|
  {
    seq(|tokens|, i requires 0 <= i < |tokens| => CorruptToken(tokens[i], hits[i], many))
  }

  lemma {:induction false} NoiseContent(tokens: seq<string>, hits: seq<bool>, many: bool)
    requires |hits| == |tokens| && NoneHit(tokens, hits, "two")
    ensures Content(Kept(NoisePicks(tokens, hits, many))) == Content(tokens) + HitCount(tokens, hits, "to")
    decreases |tokens|
  {
    if tokens != [] {
      var n := |tokens| - 1;
      NoneHitInit(tokens, hits, "two");
      NoiseContent(tokens[..n], hits[..n], many);
      NoiseSnoc(tokens, hits, many);
      OneTokenContent(tokens[n], hits[n], many);
    }
  }

  lemma NoneHitInit(tokens: seq<string>, hits: seq<bool>, token: string)
    requires tokens != [] && |hits| == |tokens| && NoneHit(tokens, hits, token)
    ensures NoneHit(tokens[..|tokens| - 1], hits[..|tokens| - 1], token)
    ensures hits[|tokens| - 1] ==> tokens[|tokens| - 1] != token
  {}

  lemma NoiseSnoc(tokens: seq<string>, hits: seq<bool>, many: bool)
    requires tokens != [] && |hits| == |tokens|
    ensures var n := |tokens| - 1; var c := CorruptToken(tokens[n], hits[n], many);
      Content(Kept(NoisePicks(tokens, hits, many))) ==
        Content(Kept(NoisePicks(tokens[..n], hits[..n], many))) + if c.Some? && !IsFiller(c.value) then 1 else 0
  {
    var n, picks := |tokens| - 1, NoisePicks(tokens, hits, many);
    assert picks[..n] == NoisePicks(tokens[..n], hits[..n], many);
    KeptIsExtended(picks);
    ContentExtend(Kept(picks[..n]), picks[n]);
  }

  lemma OneTokenContent(token: string, hit: bool, many: bool)
    requires hit ==> token != "two"
    ensures var c := CorruptToken(token, hit, many);
      (if c.Some? && !IsFiller(c.value) then 1 else 0) ==
        (if IsFiller(token) then 0 else 1) + (if hit && token == "to" then 1 else 0)
  {
    if hit && token == "to" {
      assert "to" in FILLER_BY_LENGTH && "two" !in FILLER_BY_LENGTH;
    } else {
      HitKeepsKind(token, hit, many);
    }
  }

  // ---- Words can be read off an utterance ----

  predicate Spaceless(ws: seq<string>) { forall i :: 0 <= i < |ws| ==> ws[i] != "" && ' ' !in ws[i] }

  lemma SaidIsSpaceless(token: string, s: string, lang: Vocabulary)
    requires token != "" && ' ' !in token && NodeSays(Word(token), s, lang)
    ensures s != "" && ' ' !in s
  {}

  lemma {:induction false} SpacelessJoin(ws: seq<string>)
    requires ws != [] && Spaceless(ws)
    ensures Join(ws, ' ') != "" && NoDouble(Join(ws, ' ')) && Split(Join(ws, ' '), ' ') == ws
  {
    SplitJoin(ws, ' ');
    SpacelessNoDouble(ws);
  }

  lemma {:induction false} SpacelessNoDouble(ws: seq<string>)
    requires ws != [] && Spaceless(ws)
    ensures var s := Join(ws, ' '); s != "" && s[0] != ' ' && NoDouble(s)
    decreases |ws|
  {
    assert ws[0][0] in ws[0];
    if |ws| == 1 {
      forall i | 0 < i < |ws[0]| ensures ws[0][i] != ' ' { assert ws[0][i] in ws[0]; }
    } else {
      SpacelessNoDouble(ws[1..]);
      var a, b := ws[0], Join(ws[1..], ' ');
      var s := a + [' '] + b;
      forall i | 0 < i < |s| ensures !(s[i - 1] == ' ' && s[i] == ' ') {
        if i <= |a| {
          assert s[i - 1] == a[i - 1] && a[i - 1] in a;
        } else if i > |a| + 1 {
          var j := i - |a| - 1;
          assert s[i - 1] == b[j - 1] && s[i] == b[j];
        }
      }
    }
  }

  lemma {:induction false} KeptSpaceless(picks: Picks)
    requires forall i :: 0 <= i < |picks| && picks[i].Some? ==> picks[i].value != "" && ' ' !in picks[i].value
    ensures Spaceless(Kept(picks))
    decreases |picks|
  {
    if picks != [] { KeptSpaceless(picks[..|picks| - 1]); }
  }

  /** A matched utterance of plain words has a reading with those very words. */
  lemma ReadingOfWords(tokens: seq<string>, ws: seq<string>, lang: Vocabulary) returns (picks: Picks)
    requires Spaceless(tokens) && ws != [] && Spaceless(ws)
    requires Matches(Compile(WordsOnly(tokens)), Join(ws, ' '), lang)
    ensures Reading(WordsOnly(tokens), picks, lang) && Kept(picks) == ws
  {
    var t, s := WordsOnly(tokens), Join(ws, ' ');
    SpacelessJoin(ws);
    CompileMeaning(t, s, lang);
    picks :| Reading(t, picks, lang) && Spaced(Kept(picks), s);
    SpacedIsJoin(Kept(picks), s);
    forall i | 0 <= i < |picks| && picks[i].Some? ensures picks[i].value != "" && ' ' !in picks[i].value {
      SaidIsSpaceless(tokens[i], picks[i].value, lang);
    }
    KeptSpaceless(picks);
    SpacelessJoin(Kept(picks));
  }

  // ---- Exactly when noise takes an utterance out of its language ----

  /** What `corrupt` makes of an utterance of these words. */
  function Noisy(tokens: seq<string>, hits: seq<bool>): string
    requires |hits| == |tokens|
  {
    var out := Join(Kept(CorruptPicks(tokens, hits)), ' ');
    if out == "" then Join(tokens, ' ') else out
  }

  lemma NoiseIsSpaceless(tokens: seq<string>, hits: seq<bool>)
    requires |hits| == |tokens| && Spaceless(tokens)
    ensures Spaceless(Kept(CorruptPicks(tokens, hits)))
  {
    var picks := CorruptPicks(tokens, hits);
    forall i | 0 <= i < |picks| && picks[i].Some? ensures picks[i].value != "" && ' ' !in picks[i].value {
      CorruptedSpaceless(tokens[i], hits[i], |tokens| > 3);
    }
    KeptSpaceless(picks);
  }

  lemma CorruptedSpaceless(token: string, hit: bool, many: bool)
    requires token != "" && ' ' !in token && CorruptToken(token, hit, many).Some?
    ensures CorruptToken(token, hit, many).value != "" && ' ' !in CorruptToken(token, hit, many).value
  {}

  lemma ToIsLost(tokens: seq<string>, hits: seq<bool>, lang: Vocabulary)
    requires tokens != [] && |hits| == |tokens| && Spaceless(tokens)
    requires NoneHit(tokens, hits, "two") && !NoneHit(tokens, hits, "to")
    ensures !Matches(Compile(WordsOnly(tokens)), Noisy(tokens, hits), lang)
  {
    var t, picks := WordsOnly(tokens), CorruptPicks(tokens, hits);
    var ws := Kept(picks);
    assert picks == NoisePicks(tokens, hits, |tokens| > 3);
    NoiseContent(tokens, hits, |tokens| > 3);
    HitCountZero(tokens, hits, "to");
    NoiseIsSpaceless(tokens, hits);
    assert ws != [];
    SpacelessJoin(ws);
    TooMuchContent(tokens, ws, lang);
  }

  lemma TooMuchContent(tokens: seq<string>, ws: seq<string>, lang: Vocabulary)
    requires Spaceless(tokens) && ws != [] && Spaceless(ws) && Content(ws) > Content(tokens)
    ensures !Matches(Compile(WordsOnly(tokens)), Join(ws, ' '), lang)
  {
    if Matches(Compile(WordsOnly(tokens)), Join(ws, ' '), lang) {
      var said := ReadingOfWords(tokens, ws, lang);
      ContentOfPicks(tokens, said);
    }
  }

  /** A template of function words says any number of them from one to all. */
  function FirstOnes(ws: seq<string>, n: nat): Picks {
    seq(n, i => if 0 <= i < |ws| then Some(ws[i]) else None)
  }

  lemma {:induction false} KeptFirstOnes(ws: seq<string>, n: nat)
    requires |ws| <= n
    ensures Kept(FirstOnes(ws, n)) == ws
    decreases n
  {
    var picks := FirstOnes(ws, n);
    if n > 0 {
      if |ws| == n {
        assert picks[..n - 1] == FirstOnes(ws[..n - 1], n - 1);
        KeptFirstOnes(ws[..n - 1], n - 1);
      } else {
        assert picks[..n - 1] == FirstOnes(ws, n - 1);
        KeptFirstOnes(ws, n - 1);
      }
    }
  }

  lemma ReadingMatches(t: Template, picks: Picks, lang: Vocabulary)
    requires Reading(t, picks, lang)
    ensures Matches(Compile(t), Join(Kept(picks), ' '), lang)
  {
    JoinIsSpaced(Kept(picks));
    CompileMeaning(t, Join(Kept(picks), ' '), lang);
  }

  lemma {:induction false} KeptAtMost(picks: Picks)
    ensures |Kept(picks)| <= |picks|
    ensures forall w :: w in Kept(picks) ==> exists i :: 0 <= i < |picks| && picks[i] == Some(w)
    decreases |picks|
  {
    if picks != [] {
      var n := |picks| - 1;
      KeptAtMost(picks[..n]);
      forall w | w in Kept(picks) ensures exists i :: 0 <= i < |picks| && picks[i] == Some(w) {
        if w in Kept(picks[..n]) {
          var i :| 0 <= i < n && picks[..n][i] == Some(w);
          assert picks[i] == Some(w);
        } else {
          assert picks[n] == Some(w);
        }
      }
    }
  }

  /** Noise that leaves "to" alone never takes a plain phrasing out of its language. */
  lemma CorruptionAbsorbed(tokens: seq<string>, hits: seq<bool>, lang: Vocabulary)
    requires tokens != [] && |hits| == |tokens| && NoneHit(tokens, hits, "to")
    ensures Matches(Compile(WordsOnly(tokens)), Noisy(tokens, hits), lang)
  {
    var t, picks := WordsOnly(tokens), CorruptPicks(tokens, hits);
    forall i | 0 <= i < |tokens|
      ensures picks[i].None? ==> IsFiller(tokens[i])
      ensures picks[i].Some? ==> NodeSays(Word(tokens[i]), picks[i].value, lang)
    {
      HitIsSaid(tokens[i], hits[i], |tokens| > 3, lang);
    }
    if Join(Kept(picks), ' ') == "" {
      WordsSayThemselves(tokens, lang);
    } else if k :| 0 <= k < |tokens| && !IsFiller(tokens[k]) {
      assert !MayDrop(t.nodes[k]);
      forall i | 0 <= i < |picks| && picks[i].None? ensures Droppable(t, i) { assert MayDrop(t.nodes[i]); }
      assert Reading(t, picks, lang);
      ReadingMatches(t, picks, lang);
    } else {
      AllFillers(tokens, picks, lang);
    }
  }

  lemma HitIsSaid(token: string, hit: bool, many: bool, lang: Vocabulary)
    requires hit ==> token != "to"
    ensures var c := CorruptToken(token, hit, many);
      (c.None? ==> IsFiller(token)) && (c.Some? ==> NodeSays(Word(token), c.value, lang))
  {
    if hit && Corruption(token).Some? {
      SubstitutionTolerated(token, lang);
    } else if CorruptToken(token, hit, many).None? {
      DropTolerated(token, hit, many);
    } else {
      assert TokenAlternatives(token)[0] == token;
    }
  }

  lemma WordsSayThemselves(tokens: seq<string>, lang: Vocabulary)
    requires tokens != []
    ensures Matches(Compile(WordsOnly(tokens)), Join(tokens, ' '), lang)
  {
    var t, picks := WordsOnly(tokens), AllSome(tokens);
    forall i | 0 <= i < |tokens| ensures NodeSays(t.nodes[i], picks[i].value, lang) {
      assert TokenAlternatives(tokens[i])[0] == tokens[i];
    }
    KeptAllSome(tokens);
    assert Reading(t, picks, lang);
    ReadingMatches(t, picks, lang);
  }

  lemma AllFillers(tokens: seq<string>, picks: Picks, lang: Vocabulary)
    requires |picks| == |tokens| && Kept(picks) != [] && forall i :: 0 <= i < |tokens| ==> IsFiller(tokens[i])
    requires forall i :: 0 <= i < |tokens| && picks[i].Some? ==> NodeSays(Word(tokens[i]), picks[i].value, lang)
    ensures Matches(Compile(WordsOnly(tokens)), Join(Kept(picks), ' '), lang)
  {
    var t, ws := WordsOnly(tokens), Kept(picks);
    KeptAtMost(picks);
    forall k | 0 <= k < |ws| ensures IsFiller(ws[k]) {
      assert ws[k] in ws;
      var i :| 0 <= i < |picks| && picks[i] == Some(ws[k]);
      assert IsFiller(tokens[i]);
    }
    var first := FirstOnes(ws, |tokens|);
    KeptFirstOnes(ws, |tokens|);
    forall i | 0 <= i < |first|
      ensures if first[i].None? then Droppable(t, i) else NodeSays(t.nodes[i], first[i].value, lang)
    {
      if first[i].None? { DroppableElsewhere(t, i); }
    }
    assert Reading(t, first, lang);
    ReadingMatches(t, first, lang);
  }

  /** Noise that leaves "two" alone takes a plain phrasing out of its language exactly when it hits a "to". */
  lemma NoiseStaysIff(tokens: seq<string>, hits: seq<bool>, lang: Vocabulary)
    requires tokens != [] && |hits| == |tokens| && Spaceless(tokens) && NoneHit(tokens, hits, "two")
    ensures Matches(Compile(WordsOnly(tokens)), Noisy(tokens, hits), lang) <==> NoneHit(tokens, hits, "to")
  {
    if NoneHit(tokens, hits, "to") { CorruptionAbsorbed(tokens, hits, lang); } else { ToIsLost(tokens, hits, lang); }
  }

  lemma DroppableElsewhere(t: Template, i: nat)
    requires 0 < i < |t.nodes| && MayDrop(t.nodes[i])
    ensures Droppable(t, i)
  {}

  /** With "two" hit as well, a hit "to" may still be read: a "two" turned "to" can stand for a filler. */
  lemma HitsMayCancel(tokens: seq<string>, hits: seq<bool>, lang: Vocabulary)
    requires tokens == ["to", "two", "a", "press"] && hits == [true, true, true, false]
    ensures !NoneHit(tokens, hits, "to") && Matches(Compile(WordsOnly(tokens)), Noisy(tokens, hits), lang)
  {
    assert tokens[0] == "to" && hits[0];
    NoisyFour(tokens, hits);
    KeptOfFour(None, Some("two"), Some("to"), Some("press"));
    SaidByFour(WordsOnly(tokens), [None, Some("two"), Some("to"), Some("press")], lang);
    SaidThree(WordsOnly(tokens), [None, Some("two"), Some("to"), Some("press")], "two to press", lang);
  }

  lemma NoisyFour(tokens: seq<string>, hits: seq<bool>)
    requires tokens == ["to", "two", "a", "press"] && hits == [true, true, true, false]
    ensures Noisy(tokens, hits) == "two to press"
  {
    NoiseOfFour(tokens, hits);
    KeptOfFour(Some("two"), Some("to"), None, Some("press"));
    var ws := ["two", "to", "press"];
    assert Kept(CorruptPicks(tokens, hits)) == ws;
    JoinOfThree("two", "to", "press");
  }

  lemma SaidThree(t: Template, said: Picks, s: string, lang: Vocabulary)
    requires Reading(t, said, lang) && Kept(said) == ["two", "to", "press"] && s == "two to press"
    ensures Matches(Compile(t), s, lang)
  {
    JoinOfThree("two", "to", "press");
    assert Join(Kept(said), ' ') == "two" + [' '] + ("to" + [' '] + "press") == s;
    ReadingMatches(t, said, lang);
  }

  lemma NoiseOfFour(tokens: seq<string>, hits: seq<bool>)
    requires tokens == ["to", "two", "a", "press"] && hits == [true, true, true, false]
    ensures CorruptPicks(tokens, hits) == [Some("two"), Some("to"), None, Some("press")]
  {
    assert CorruptToken("to", true, true) == Some("two") && CorruptToken("two", true, true) == Some("to");
    assert "a" in DROPPABLE && CorruptToken("a", true, true) == None;
  }

  lemma JoinOfThree(a: string, b: string, c: string)
    ensures Join([a, b, c], ' ') == a + [' '] + (b + [' '] + c)
  {
    assert [a, b, c][1..] == [b, c] && [b, c][1..] == [c];
    assert Join([b, c], ' ') == b + [' '] + c;
  }

  lemma SaidByFour(t: Template, said: Picks, lang: Vocabulary)
    requires t == WordsOnly(["to", "two", "a", "press"]) && said == [None, Some("two"), Some("to"), Some("press")]
    ensures Reading(t, said, lang)
  {
    assert "to" in FILLER_BY_LENGTH && "a" in FILLER_BY_LENGTH;
    assert "two" !in FILLER_BY_LENGTH && "press" !in FILLER_BY_LENGTH;
    assert MayDrop(t.nodes[0]) && !MayDrop(t.nodes[1]) && Droppable(t, 0);
    assert TokenAlternatives("two")[0] == "two" && TokenAlternatives("press")[0] == "press";
    assert NodeSays(t.nodes[1], "two", lang) && NodeSays(t.nodes[2], "to", lang) && NodeSays(t.nodes[3], "press", lang);
  }

  lemma KeptOfFour(a: Option<string>, b: Option<string>, c: Option<string>, d: Option<string>)
    ensures Kept([a, b, c, d]) == Extend(Extend(Extend(Extend([], a), b), c), d)
  {
    assert [a][..0] == [] && [a, b][..1] == [a] && [a, b, c][..2] == [a, b] && [a, b, c, d][..3] == [a, b, c];
    KeptIsExtended([a]);
    KeptIsExtended([a, b]);
    KeptIsExtended([a, b, c]);
    KeptIsExtended([a, b, c, d]);
  }
}
