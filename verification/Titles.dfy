/** Title normalisation: whitespace collapsed, ends trimmed, at most one hundred characters. */
module Titles {
  import opened Outcomes

  const MaxTitle := 100

  /** The host language's whitespace; the plain space belongs to it. */
  type Whitespace = (char) -> bool

  function Skip(s: string, space: Whitespace): string {
    if s == "" || !space(s[0]) then s else Skip(s[1..], space)
  }

  /** Runs of whitespace become one space; trailing whitespace goes. */
  function Squeeze(s: string, space: Whitespace): string
    decreases |s|
  {
    if s == "" then ""
    else if !space(s[0]) then [s[0]] + Squeeze(s[1..], space)
    else
      var rest := Skip(s, space);
      SkipShrinks(s, space);
      if rest == "" then "" else " " + Squeeze(rest, space)
  }

  lemma {:induction false} SkipShrinks(s: string, space: Whitespace)
    ensures |Skip(s, space)| <= |s|
    ensures Skip(s, space) != "" ==> !space(Skip(s, space)[0])
    ensures s != "" && space(s[0]) ==> |Skip(s, space)| < |s|
  {
    if s != "" && space(s[0]) { SkipShrinks(s[1..], space); }
  }

  function Collapse(s: string, space: Whitespace): string {
    Squeeze(Skip(s, space), space)
  }

  function Prefix(s: string, n: nat): string { if |s| <= n then s else s[..n] }

  /** `_normalized_title` on a string */
  function Title(s: string, space: Whitespace): Option<string> {
    var c := Collapse(s, space);
    if c == "" then None else Some(Prefix(c, MaxTitle))
  }

  /** Nothing left to collapse: each whitespace is a single space between two other characters. */
  predicate Tidy(s: string, space: Whitespace) {
    && (s != "" ==> !space(s[0]) && !space(s[|s| - 1]))
    && (forall i | 0 <= i < |s| && space(s[i]) :: s[i] == ' ')
    && (forall i | 0 <= i < |s| - 1 && space(s[i]) :: !space(s[i + 1]))
  }

  lemma {:induction false} SqueezeIsTidy(s: string, space: Whitespace)
    requires space(' ') && (s == "" || !space(s[0]))
    ensures Tidy(Squeeze(s, space), space)
    ensures s != "" ==> Squeeze(s, space) != "" && Squeeze(s, space)[0] == s[0]
    decreases |s|
  {
    if s != "" {
      var tail := s[1..];
      if tail != "" && space(tail[0]) {
        var rest := Skip(tail, space);
        SkipShrinks(tail, space);
        SqueezeIsTidy(rest, space);
        if rest != "" { TidyCons(s[0], " " + Squeeze(rest, space), Squeeze(rest, space), space); }
      } else {
        SqueezeIsTidy(tail, space);
        if tail != "" { TidyNext(s[0], Squeeze(tail, space), space); }
      }
    }
  }

  lemma TidyNext(c: char, t: string, space: Whitespace)
    requires !space(c) && t != "" && Tidy(t, space)
    ensures Tidy([c] + t, space)
  {
    var whole := [c] + t;
    assert forall i | 1 <= i < |whole| :: whole[i] == t[i - 1];
  }

  lemma TidyCons(c: char, spaced: string, t: string, space: Whitespace)
    requires !space(c) && space(' ') && t != "" && Tidy(t, space) && spaced == " " + t
    ensures Tidy([c] + spaced, space)
  {
    var whole := [c] + spaced;
    assert forall i | 2 <= i < |whole| :: whole[i] == t[i - 2];
  }

  lemma {:induction false} SqueezeTidy(s: string, space: Whitespace)
    requires space(' ') && Tidy(s, space)
    ensures Squeeze(s, space) == s
    decreases |s|
  {
    if s != "" {
      var tail := s[1..];
      if tail == "" {
        assert [s[0]] + "" == s;
      } else if space(tail[0]) {
        var rest := tail[1..];
        assert tail[0] == s[1] && rest != "" && !space(rest[0]) by { assert s[1] == ' ' && |s| > 2; assert rest[0] == s[2]; }
        TidyTail(s, 2, space);
        assert s[2..] == rest;
        SqueezeTidy(rest, space);
        assert Skip(tail, space) == rest;
        assert [s[0]] + (" " + rest) == s;
      } else {
        TidyTail(s, 1, space);
        SqueezeTidy(tail, space);
        assert [s[0]] + tail == s;
      }
    }
  }

  lemma TidyTail(s: string, k: nat, space: Whitespace)
    requires Tidy(s, space) && k < |s| && !space(s[k])
    ensures Tidy(s[k..], space)
  {
    var t := s[k..];
    assert forall i | 0 <= i < |t| :: t[i] == s[i + k];
  }

  /** A title that normalises to itself. */
  predicate Stable(t: string, space: Whitespace) {
    Title(t, space) == Some(t)
  }

  lemma CollapseTidy(t: string, space: Whitespace)
    requires space(' ') && Tidy(t, space)
    ensures Collapse(t, space) == t
  {
    SqueezeTidy(t, space);
    assert Skip(t, space) == t;
  }

  lemma StableIsTidy(t: string, space: Whitespace)
    requires space(' ')
    ensures Stable(t, space) <==> Tidy(t, space) && 1 <= |t| <= MaxTitle
  {
    if Tidy(t, space) { CollapseTidy(t, space); }
    if Stable(t, space) {
      var c := Collapse(t, space);
      SkipShrinks(t, space);
      SqueezeIsTidy(Skip(t, space), space);
      SqueezeShrinks(Skip(t, space), space);
      assert |c| <= |t|;
      assert |t| <= |c|;
      assert c[..|t|] == c;
    }
  }

  lemma {:induction false} SqueezeShrinks(s: string, space: Whitespace)
    ensures |Squeeze(s, space)| <= |s|
    decreases |s|
  {
    if s != "" {
      if !space(s[0]) {
        SqueezeShrinks(s[1..], space);
      } else {
        SkipShrinks(s, space);
        SqueezeShrinks(Skip(s, space), space);
      }
    }
  }

  /** The cut at one hundred characters falls just behind a space. */
  predicate CutBehindSpace(s: string, space: Whitespace) {
    var c := Collapse(s, space);
    |c| > MaxTitle && c[MaxTitle - 1] == ' '
  }

  /** Normalising twice is normalising once exactly when the cut does not fall behind a space. */
  lemma TitleStableIff(s: string, space: Whitespace)
    requires space(' ') && Title(s, space).Some?
    ensures Stable(Title(s, space).value, space) <==> !CutBehindSpace(s, space)
  {
    hide Skip, Squeeze;
    var c, t := Collapse(s, space), Title(s, space).value;
    SkipShrinks(s, space);
    SqueezeIsTidy(Skip(s, space), space);
    StableIsTidy(t, space);
    assert forall i | 0 <= i < |t| :: t[i] == c[i];
  }

  /** The cut does fall behind a space for some titles, so normalising twice can differ from once. */
  lemma TitleNotIdempotent(space: Whitespace)
    requires space(' ') && !space('a')
    ensures var s := seq(99, _ => 'a') + " a";
            Title(s, space).Some? && !Stable(Title(s, space).value, space)
  {
    var s := seq(99, _ => 'a') + " a";
    assert Tidy(s, space);
    CollapseTidy(s, space);
    TitleStableIff(s, space);
    assert Prefix(s, MaxTitle)[99] == ' ';
  }
}
