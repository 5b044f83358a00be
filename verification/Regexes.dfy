/** The regular expressions a template compiles to, and `_join`, which decides where separators go. */
module Regexes {
  import opened Options
  import opened Text

  datatype Regex =
    | Lit(text: string)
    | Spaces
    | Capture(kind: string)
    | Cat(first: Regex, second: Regex)
    | Alt(options: seq<Regex>)
    | Maybe(body: Regex)

  /** The words a slot type accepts; slot fragments are left abstract. */
  type Vocabulary = (string, string) -> bool

  /** `fullmatch`: the whole of `s` is in the language of `r`. */
  ghost predicate Matches(r: Regex, s: string, lang: Vocabulary) {
    match r
    case Lit(t) => s == t
    case Spaces => IsSpaces(s)
    case Capture(k) => lang(k, s)
    case Cat(a, b) => exists i :: 0 <= i <= |s| && Matches(a, s[..i], lang) && Matches(b, s[i..], lang)
    case Alt(rs) => exists i :: 0 <= i < |rs| && Matches(rs[i], s, lang)
    case Maybe(b) => s == "" || Matches(b, s, lang)
  }

  datatype Part = Part(frag: Regex, optional: bool)

  /** One turn of the loop in `_join`: the separator goes to whichever side is present. */
  function Append(out: Regex, anchored: bool, p: Part): Regex {
    if p.optional then
      Cat(out, Maybe(if anchored then Cat(Spaces, p.frag) else Cat(p.frag, Spaces)))
    else if anchored then Cat(Cat(out, Spaces), p.frag)
    else Cat(out, p.frag)
  }

  predicate Anchored(parts: seq<Part>) {
    exists i :: 0 <= i < |parts| && !parts[i].optional
  }

  function JoinParts(parts: seq<Part>): Regex {
    if parts == [] then Lit("")
    else
      var n := |parts| - 1;
      Append(JoinParts(parts[..n]), Anchored(parts[..n]), parts[n])
  }

  method JoinLoop(parts: seq<Part>) returns (out: Regex)
    ensures out == JoinParts(parts)
  {
    out := Lit("");
    var anchored := false;
    for i := 0 to |parts|
      invariant out == JoinParts(parts[..i])
      invariant anchored == Anchored(parts[..i])
    {
      assert parts[..i + 1][..i] == parts[..i];
      out := Append(out, anchored, parts[i]);
      if !parts[i].optional {
        assert !parts[..i + 1][i].optional;
        anchored := true;
      } else if anchored {
        var j :| 0 <= j < i && !parts[..i][j].optional;
        assert !parts[..i + 1][j].optional;
      }
    }
    assert parts[..|parts|] == parts;
  }

  /** A template whose every part is optional keeps its first one. */
  function KeepAnAnchor(parts: seq<Part>): (r: seq<Part>)
    ensures |r| == |parts|
    ensures r == [] || Anchored(r)
    ensures Anchored(parts) ==> r == parts
    ensures forall i :: 0 <= i < |parts| ==> r[i].frag == parts[i].frag && (i > 0 ==> r[i] == parts[i])
  {
    if parts == [] || Anchored(parts) then parts
    else
      var r := [parts[0].(optional := false)] + parts[1..];
      assert !r[0].optional;
      r
  }

  // ---- What a list of parts says, without any regular expression ----

  type Picks = seq<Option<string>>

  /** Every required part is said, every optional one is said or left out. */
  ghost predicate Chosen(parts: seq<Part>, picks: Picks, lang: Vocabulary) {
    |picks| == |parts| &&
    forall i :: 0 <= i < |parts| ==>
      if picks[i].None? then parts[i].optional else Matches(parts[i].frag, picks[i].value, lang)
  }

  function Kept(picks: Picks): seq<string> {
    if picks == [] then []
    else
      var n := |picks| - 1;
      Kept(picks[..n]) + (if picks[n].Some? then [picks[n].value] else [])
  }

  /** `s` is the words with one run of spaces between neighbours and none at either end. */
  ghost predicate Spaced(ws: seq<string>, s: string)
    decreases |ws|, 1
  {
    if |ws| == 0 then s == ""
    else if |ws| == 1 then s == ws[0]
    else exists i, j :: SpacedAt(ws, s, i, j)
  }

  ghost predicate SpacedAt(ws: seq<string>, s: string, i: int, j: int)
    requires |ws| > 1
    decreases |ws|, 0
  {
    0 <= i <= j <= |s| && Spaced(ws[..|ws| - 1], s[..i]) && IsSpaces(s[i..j]) && s[j..] == ws[|ws| - 1]
  }

  /** `s` is the words with one run of spaces after each: what the leading optional parts match. */
  ghost predicate Led(ws: seq<string>, s: string)
    decreases |ws|, 1
  {
    if |ws| == 0 then s == "" else exists i, j :: LedAt(ws, s, i, j)
  }

  ghost predicate LedAt(ws: seq<string>, s: string, i: int, j: int)
    requires |ws| > 0
    decreases |ws|, 0
  {
    0 <= i <= j <= |s| && Led(ws[..|ws| - 1], s[..i]) && s[i..j] == ws[|ws| - 1] && IsSpaces(s[j..])
  }

  /** Words each followed by a run, then a last word: the same as words with runs between. */
  lemma {:induction false} LedThenWord(ws: seq<string>, s: string, w: string)
    requires Led(ws, s)
    ensures Spaced(ws + [w], s + w)
    decreases |ws|
  {
    if ws == [] {
      assert s + w == w;
    } else {
      var i, j :| LedAt(ws, s, i, j);
      var n := |ws| - 1;
      LedThenWord(ws[..n], s[..i], ws[n]);
      assert ws[..n] + [ws[n]] == ws;
      assert s[..i] + ws[n] == s[..j];
      var ww, t := ws + [w], s + w;
      assert ww[..|ww| - 1] == ws && t[..j] == s[..j] && t[j..|s|] == s[j..] && t[|s|..] == w;
      assert SpacedAt(ww, t, j, |s|);
    }
  }

  lemma {:induction false} WordAfterLed(ws: seq<string>, s: string) returns (i: nat)
    requires ws != [] && Spaced(ws, s)
    ensures i <= |s| && Led(ws[..|ws| - 1], s[..i]) && s[i..] == ws[|ws| - 1]
    decreases |ws|
  {
    var n := |ws| - 1;
    if n == 0 {
      i := 0;
    } else {
      var a, b :| SpacedAt(ws, s, a, b);
      var k := WordAfterLed(ws[..n], s[..a]);
      assert s[..a][..k] == s[..k] == s[..b][..k];
      assert s[..a][k..] == s[k..a] == s[..b][k..a];
      assert s[a..b] == s[..b][a..];
      assert LedAt(ws[..n], s[..b], k, a);
      i := b;
    }
  }

  lemma {:induction false} LedSnoc(ws: seq<string>, w: string, s: string, i: int, j: int)
    requires 0 <= i <= j <= |s| && Led(ws, s[..i]) && s[i..j] == w && IsSpaces(s[j..])
    ensures Led(ws + [w], s)
  {
    assert (ws + [w])[..|ws|] == ws;
    assert LedAt(ws + [w], s, i, j);
  }

  lemma {:induction false} SpacedSnoc(ws: seq<string>, w: string, s: string, i: int, j: int)
    requires ws != [] && 0 <= i <= j <= |s| && Spaced(ws, s[..i]) && IsSpaces(s[i..j]) && s[j..] == w
    ensures Spaced(ws + [w], s)
  {
    assert (ws + [w])[..|ws|] == ws;
    assert SpacedAt(ws + [w], s, i, j);
  }

  lemma SpacedSplit(ws: seq<string>, w: string, s: string) returns (i: nat, j: nat)
    requires ws != [] && Spaced(ws + [w], s)
    ensures i <= j <= |s| && Spaced(ws, s[..i]) && IsSpaces(s[i..j]) && s[j..] == w
  {
    var ww := ws + [w];
    assert ww[..|ww| - 1] == ws;
    i, j :| SpacedAt(ww, s, i, j);
  }

  lemma LedSplit(ws: seq<string>, w: string, s: string) returns (i: nat, j: nat)
    requires Led(ws + [w], s)
    ensures i <= j <= |s| && Led(ws, s[..i]) && s[i..j] == w && IsSpaces(s[j..])
  {
    var ww := ws + [w];
    assert ww[..|ww| - 1] == ws;
    i, j :| LedAt(ww, s, i, j);
  }

  function Extend(ws: seq<string>, pick: Option<string>): seq<string> {
    if pick.Some? then ws + [pick.value] else ws
  }

  lemma ChosenSnoc(parts: seq<Part>, before: Picks, pick: Option<string>, lang: Vocabulary)
    requires parts != [] && Chosen(parts[..|parts| - 1], before, lang)
    requires Chosen([parts[|parts| - 1]], [pick], lang)
    ensures Chosen(parts, before + [pick], lang) && Kept(before + [pick]) == Extend(Kept(before), pick)
  {
    var picks, last := before + [pick], [parts[|parts| - 1]];
    assert picks[..|picks| - 1] == before;
    assert if [pick][0].None? then last[0].optional else Matches(last[0].frag, pick.value, lang);
    forall i | 0 <= i < |parts|
      ensures if picks[i].None? then parts[i].optional else Matches(parts[i].frag, picks[i].value, lang)
    {
      if i < |before| { assert parts[..|parts| - 1][i] == parts[i]; }
    }
  }

  lemma ChosenInit(parts: seq<Part>, picks: Picks, lang: Vocabulary)
    requires parts != [] && Chosen(parts, picks, lang)
    ensures Chosen(parts[..|parts| - 1], picks[..|parts| - 1], lang)
    ensures Kept(picks) == Extend(Kept(picks[..|parts| - 1]), picks[|parts| - 1])
  {
  }

  /** What the parts say: the reference meaning of `_join`, by choice and spacing alone. */
  ghost predicate Says(parts: seq<Part>, s: string, lang: Vocabulary) {
    exists picks :: Saying(parts, picks, s, lang)
  }

  ghost predicate Saying(parts: seq<Part>, picks: Picks, s: string, lang: Vocabulary) {
    Chosen(parts, picks, lang) && if Anchored(parts) then Spaced(Kept(picks), s) else Led(Kept(picks), s)
  }

  lemma {:induction false} KeptNonEmpty(parts: seq<Part>, picks: Picks, lang: Vocabulary)
    requires Chosen(parts, picks, lang) && Anchored(parts)
    ensures Kept(picks) != []
    decreases |picks|
  {
    var n := |parts| - 1;
    if picks[n].None? {
      var i :| 0 <= i < |parts| && !parts[i].optional;
      assert !parts[..n][i].optional;
      KeptNonEmpty(parts[..n], picks[..n], lang);
    }
  }

  lemma AnchoredSnoc(parts: seq<Part>)
    requires parts != []
    ensures Anchored(parts) == (Anchored(parts[..|parts| - 1]) || !parts[|parts| - 1].optional)
  {
    var n := |parts| - 1;
    if Anchored(parts) && parts[n].optional {
      var i :| 0 <= i < |parts| && !parts[i].optional;
      assert !parts[..n][i].optional;
    }
  }

  lemma CatSplit(a: Regex, b: Regex, s: string, lang: Vocabulary) returns (i: nat)
    requires Matches(Cat(a, b), s, lang)
    ensures i <= |s| && Matches(a, s[..i], lang) && Matches(b, s[i..], lang)
  {
    i :| 0 <= i <= |s| && Matches(a, s[..i], lang) && Matches(b, s[i..], lang);
  }

  lemma CatJoin(a: Regex, b: Regex, s: string, i: nat, lang: Vocabulary)
    requires i <= |s| && Matches(a, s[..i], lang) && Matches(b, s[i..], lang)
    ensures Matches(Cat(a, b), s, lang)
  {
  }

  /** Everything the joined regex matches is some choice of the parts, correctly spaced. */
  lemma {:induction false} JoinSound(parts: seq<Part>, s: string, lang: Vocabulary) returns (picks: Picks)
    requires Matches(JoinParts(parts), s, lang)
    ensures Saying(parts, picks, s, lang)
    decreases |parts|, 1
  {
    if parts == [] {
      picks := [];
    } else if parts[|parts| - 1].optional {
      picks := JoinSoundOptional(parts, s, lang);
    } else {
      picks := JoinSoundRequired(parts, s, lang);
    }
  }

  lemma {:induction false} JoinSoundRequired(parts: seq<Part>, s: string, lang: Vocabulary) returns (picks: Picks)
    requires parts != [] && !parts[|parts| - 1].optional && Matches(JoinParts(parts), s, lang)
    ensures Saying(parts, picks, s, lang)
    decreases |parts|, 0
  {
    var n := |parts| - 1;
    var init, p := parts[..n], parts[n];
    if Anchored(init) {
      var j := CatSplit(Cat(JoinParts(init), Spaces), p.frag, s, lang);
      var i := CatSplit(JoinParts(init), Spaces, s[..j], lang);
      assert s[..j][..i] == s[..i] && s[..j][i..] == s[i..j];
      var before := JoinSound(init, s[..i], lang);
      picks := SpacedWord(parts, before, s, i, j, lang);
    } else {
      var i := CatSplit(JoinParts(init), p.frag, s, lang);
      var before := JoinSound(init, s[..i], lang);
      picks := FirstWord(parts, before, s, i, lang);
    }
  }

  /** A required word after an anchor has spaces between. */
  lemma SpacedWord(parts: seq<Part>, before: Picks, s: string, i: nat, j: nat, lang: Vocabulary)
    returns (picks: Picks)
    requires parts != [] && Anchored(parts[..|parts| - 1]) && !parts[|parts| - 1].optional && i <= j <= |s|
    requires Saying(parts[..|parts| - 1], before, s[..i], lang)
    requires Matches(Spaces, s[i..j], lang) && Matches(parts[|parts| - 1].frag, s[j..], lang)
    ensures Saying(parts, picks, s, lang)
  {
    AnchoredSnoc(parts);
    KeptNonEmpty(parts[..|parts| - 1], before, lang);
    ChosenSnoc(parts, before, Some(s[j..]), lang);
    picks := before + [Some(s[j..])];
    SpacedSnoc(Kept(before), s[j..], s, i, j);
  }

  /** The first required word is the anchor. */
  lemma FirstWord(parts: seq<Part>, before: Picks, s: string, i: nat, lang: Vocabulary) returns (picks: Picks)
    requires parts != [] && !Anchored(parts[..|parts| - 1]) && !parts[|parts| - 1].optional && i <= |s|
    requires Saying(parts[..|parts| - 1], before, s[..i], lang)
    requires Matches(parts[|parts| - 1].frag, s[i..], lang)
    ensures Saying(parts, picks, s, lang)
  {
    AnchoredSnoc(parts);
    ChosenSnoc(parts, before, Some(s[i..]), lang);
    picks := before + [Some(s[i..])];
    LedThenWord(Kept(before), s[..i], s[i..]);
    assert s[..i] + s[i..] == s;
  }

  lemma {:induction false} JoinSoundOptional(parts: seq<Part>, s: string, lang: Vocabulary) returns (picks: Picks)
    requires parts != [] && parts[|parts| - 1].optional && Matches(JoinParts(parts), s, lang)
    ensures Saying(parts, picks, s, lang)
    decreases |parts|, 0
  {
    var n := |parts| - 1;
    var init, p := parts[..n], parts[n];
    AnchoredSnoc(parts);
    var word := if Anchored(init) then Cat(Spaces, p.frag) else Cat(p.frag, Spaces);
    var i := CatSplit(JoinParts(init), Maybe(word), s, lang);
    var before := JoinSound(init, s[..i], lang);
    if s[i..] == "" {
      assert s[..i] == s;
      ChosenSnoc(parts, before, None, lang);
      picks := before + [None];
    } else if Anchored(init) {
      picks := SpacedChoice(parts, before, s, i, lang);
    } else {
      picks := LedChoice(parts, before, s, i, lang);
    }
  }

  /** An optional word after an anchor has its spaces before it. */
  lemma SpacedChoice(parts: seq<Part>, before: Picks, s: string, i: nat, lang: Vocabulary) returns (picks: Picks)
    requires parts != [] && Anchored(parts[..|parts| - 1]) && parts[|parts| - 1].optional && i <= |s|
    requires Saying(parts[..|parts| - 1], before, s[..i], lang)
    requires Matches(Cat(Spaces, parts[|parts| - 1].frag), s[i..], lang)
    ensures Saying(parts, picks, s, lang)
  {
    AnchoredSnoc(parts);
    var j := CatSplit(Spaces, parts[|parts| - 1].frag, s[i..], lang);
    assert s[i..][..j] == s[i..i + j] && s[i..][j..] == s[i + j..];
    KeptNonEmpty(parts[..|parts| - 1], before, lang);
    ChosenSnoc(parts, before, Some(s[i + j..]), lang);
    picks := before + [Some(s[i + j..])];
    SpacedSnoc(Kept(before), s[i + j..], s, i, i + j);
  }

  /** Before any anchor it has them after it. */
  lemma LedChoice(parts: seq<Part>, before: Picks, s: string, i: nat, lang: Vocabulary) returns (picks: Picks)
    requires parts != [] && !Anchored(parts[..|parts| - 1]) && parts[|parts| - 1].optional && i <= |s|
    requires Saying(parts[..|parts| - 1], before, s[..i], lang)
    requires Matches(Cat(parts[|parts| - 1].frag, Spaces), s[i..], lang)
    ensures Saying(parts, picks, s, lang)
  {
    AnchoredSnoc(parts);
    var j := CatSplit(parts[|parts| - 1].frag, Spaces, s[i..], lang);
    assert s[i..][..j] == s[i..i + j] && s[i..][j..] == s[i + j..];
    ChosenSnoc(parts, before, Some(s[i..i + j]), lang);
    picks := before + [Some(s[i..i + j])];
    LedSnoc(Kept(before), s[i..i + j], s, i, i + j);
  }

  /** Every choice of the parts, correctly spaced, is matched. */
  lemma {:induction false} JoinComplete(parts: seq<Part>, picks: Picks, s: string, lang: Vocabulary)
    requires Saying(parts, picks, s, lang)
    ensures Matches(JoinParts(parts), s, lang)
    decreases |parts|, 1
  {
    if parts != [] {
      var n := |parts| - 1;
      var init, p := parts[..n], parts[n];
      AnchoredSnoc(parts);
      ChosenInit(parts, picks, lang);
      if picks[n].None? {
        JoinComplete(init, picks[..n], s, lang);
        assert s[..|s|] == s && s[|s|..] == "";
        var last := if Anchored(init) then Cat(Spaces, p.frag) else Cat(p.frag, Spaces);
        CatJoin(JoinParts(init), Maybe(last), s, |s|, lang);
      } else {
        JoinCompleteWord(parts, picks, s, lang);
      }
    }
  }

  lemma {:induction false} JoinCompleteWord(parts: seq<Part>, picks: Picks, s: string, lang: Vocabulary)
    requires parts != [] && Saying(parts, picks, s, lang) && picks[|parts| - 1].Some?
    ensures Matches(JoinParts(parts), s, lang)
    decreases |parts|, 0
  {
    var n := |parts| - 1;
    var init, p, before, w := parts[..n], parts[n], picks[..n], picks[n].value;
    AnchoredSnoc(parts);
    ChosenInit(parts, picks, lang);
    var ws := Kept(before);
    if Anchored(init) {
      KeptNonEmpty(init, before, lang);
      var i, j := SpacedSplit(ws, w, s);
      JoinComplete(init, before, s[..i], lang);
      if p.optional {
        assert s[i..][..j - i] == s[i..j] && s[i..][j - i..] == w;
        CatJoin(Spaces, p.frag, s[i..], j - i, lang);
        CatJoin(JoinParts(init), Maybe(Cat(Spaces, p.frag)), s, i, lang);
      } else {
        assert s[..j][..i] == s[..i] && s[..j][i..] == s[i..j];
        CatJoin(JoinParts(init), Spaces, s[..j], i, lang);
        CatJoin(Cat(JoinParts(init), Spaces), p.frag, s, j, lang);
      }
    } else if p.optional {
      var i, j := LedSplit(ws, w, s);
      JoinComplete(init, before, s[..i], lang);
      assert s[i..][..j - i] == w && s[i..][j - i..] == s[j..];
      CatJoin(p.frag, Spaces, s[i..], j - i, lang);
      CatJoin(JoinParts(init), Maybe(Cat(p.frag, Spaces)), s, i, lang);
    } else {
      var i := WordAfterLed(ws + [w], s);
      assert (ws + [w])[..|ws|] == ws;
      JoinComplete(init, before, s[..i], lang);
      CatJoin(JoinParts(init), p.frag, s, i, lang);
    }
  }

  /** The regex `_join` builds has exactly the meaning of its parts. */
  lemma JoinLanguage(parts: seq<Part>, s: string, lang: Vocabulary)
    ensures Matches(JoinParts(parts), s, lang) <==> Says(parts, s, lang)
  {
    if Matches(JoinParts(parts), s, lang) {
      var picks := JoinSound(parts, s, lang);
    }
    if Says(parts, s, lang) {
      var picks :| Saying(parts, picks, s, lang);
      JoinComplete(parts, picks, s, lang);
    }
  }
}
