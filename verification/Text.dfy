/** Strings as the grammar compiler handles them: splitting, joining and runs of spaces. */
module Text {

  /** `c.join(ws)`: the words with one copy of `c` between neighbours. */
  function Join(ws: seq<string>, c: char): string {
    if |ws| == 0 then ""
    else if |ws| == 1 then ws[0]
    else ws[0] + [c] + Join(ws[1..], c)
  }

  /** `s.split(c)`: never empty, because splitting the empty string gives one empty field. */
  function Split(s: string, c: char): (ws: seq<string>)
    ensures |ws| >= 1
    decreases |s|
  {
    if s == "" then [""]
    else if s[0] == c then [""] + Split(s[1..], c)
    else
      var rest := Split(s[1..], c);
      [[s[0]] + rest[0]] + rest[1..]
  }

  lemma {:induction false} JoinSplit(s: string, c: char)
    ensures Join(Split(s, c), c) == s
    decreases |s|
  {
    if s != "" {
      JoinSplit(s[1..], c);
      var rest := Split(s[1..], c);
      if s[0] == c {
        assert ([""] + rest)[1..] == rest;
      } else {
        var head := [s[0]] + rest[0];
        assert ([head] + rest[1..])[1..] == rest[1..];
        assert [s[0]] + s[1..] == s;
        if |rest| > 1 {
          assert head + [c] + Join(rest[1..], c) == [s[0]] + (rest[0] + [c] + Join(rest[1..], c));
        }
      }
    }
  }

  lemma {:induction false} SplitWord(w: string, c: char)
    requires c !in w
    ensures Split(w, c) == [w]
    decreases |w|
  {
    if w != "" {
      SplitWord(w[1..], c);
      assert [w[0]] + w[1..] == w;
    }
  }

  lemma {:induction false} SplitFirst(w: string, c: char, s: string)
    requires c !in w
    ensures Split(w + [c] + s, c) == [w] + Split(s, c)
    decreases |w|
  {
    var t := w + [c] + s;
    if w == "" {
      assert t[1..] == s;
    } else {
      assert t[1..] == w[1..] + [c] + s;
      SplitFirst(w[1..], c, s);
      assert [w[0]] + w[1..] == w;
    }
  }

  /** Splitting undoes joining when no field contains the separator. */
  lemma {:induction false} SplitJoin(ws: seq<string>, c: char)
    requires ws != [] && forall i :: 0 <= i < |ws| ==> c !in ws[i]
    ensures Split(Join(ws, c), c) == ws
    decreases |ws|
  {
    if |ws| == 1 {
      SplitWord(ws[0], c);
    } else {
      SplitJoin(ws[1..], c);
      SplitFirst(ws[0], c, Join(ws[1..], c));
    }
  }

  lemma {:induction false} JoinConcat(a: seq<string>, b: seq<string>, c: char)
    requires a != [] && b != []
    ensures Join(a + b, c) == Join(a, c) + [c] + Join(b, c)
    decreases |a|
  {
    if |a| == 1 {
      assert (a + b)[1..] == b;
    } else {
      JoinConcat(a[1..], b, c);
      assert (a + b)[1..] == a[1..] + b;
    }
  }

  function Occurrences(s: string, c: char): nat {
    if s == "" then 0 else (if s[0] == c then 1 else 0) + Occurrences(s[1..], c)
  }

  lemma {:induction false} OccurrencesAppend(a: string, b: string, c: char)
    ensures Occurrences(a + b, c) == Occurrences(a, c) + Occurrences(b, c)
    decreases |a|
  {
    if a == "" {
      assert a + b == b;
    } else {
      OccurrencesAppend(a[1..], b, c);
      assert (a + b)[1..] == a[1..] + b;
    }
  }

  lemma {:induction false} OccurrencesNone(s: string, c: char)
    ensures Occurrences(s, c) == 0 <==> c !in s
    decreases |s|
  {
    if s != "" {
      OccurrencesNone(s[1..], c);
      assert s == [s[0]] + s[1..];
    }
  }

  lemma {:induction false} SplitCount(s: string, c: char)
    ensures |Split(s, c)| == Occurrences(s, c) + 1
    decreases |s|
  {
    if s != "" { SplitCount(s[1..], c); }
  }

  /** Joined fields split into as many as they were only when none holds the separator. */
  lemma {:induction false} JoinCount(ws: seq<string>, c: char)
    requires ws != []
    ensures Occurrences(Join(ws, c), c) >= |ws| - 1
    ensures Occurrences(Join(ws, c), c) == |ws| - 1 <==> forall i :: 0 <= i < |ws| ==> c !in ws[i]
    decreases |ws|
  {
    OccurrencesNone(ws[0], c);
    if |ws| > 1 {
      JoinCount(ws[1..], c);
      OccurrencesAppend(ws[0] + [c], Join(ws[1..], c), c);
      OccurrencesAppend(ws[0], [c], c);
      assert [c][1..] == "";
      assert forall i :: 0 < i < |ws| ==> ws[i] == ws[1..][i - 1];
    }
  }

  lemma {:induction false} FieldsAreClean(s: string, c: char)
    ensures forall i :: 0 <= i < |Split(s, c)| ==> c !in Split(s, c)[i]
    decreases |s|
  {
    if s != "" { FieldsAreClean(s[1..], c); }
  }

  /** A non-empty run of separators, what `\s+` matches once `normalise` has left only spaces. */
  predicate IsSpaces(s: string) {
    s != "" && forall i :: 0 <= i < |s| ==> s[i] == ' '
  }

  /** No separator at either end, and not empty. */
  predicate Trim(s: string) {
    s != "" && s[0] != ' ' && s[|s| - 1] != ' '
  }

  /** No doubled separator: what `normalise` guarantees of every utterance. */
  predicate NoDouble(s: string) {
    forall i :: 0 < i < |s| ==> !(s[i - 1] == ' ' && s[i] == ' ')
  }
}
