/** The host language's equality and the patterns of the schemas, told by a normal form and by regular expressions. */
module EqualityLaws {
  import opened Outcomes
  import opened Json
  import opened Schema

  // ---------------------------------------------------------------- equality

  /** The value with a number in the place of every boolean. */
  function Numbers(v: Value): Value {
    match v
    case Bool(b) => Int(if b then 1 else 0)
    case Arr(items) => Arr(seq(|items|, i requires 0 <= i < |items| => Numbers(items[i])))
    case Obj(fields) => Obj(map k | k in fields :: Numbers(fields[k]))
    case _ => v
  }

  /** Two values are equal exactly when they are the same with numbers for booleans, at any depth. */
  lemma {:induction false} EqualIff(v: Value, w: Value)
    ensures PyEqual(v, w) <==> Numbers(v) == Numbers(w)
    decreases v
  {
    if v.Arr? && w.Arr? {
      var a, b := v.items, w.items;
      forall i | 0 <= i < |a| && i < |b| ensures PyEqual(a[i], b[i]) <==> Numbers(a[i]) == Numbers(b[i]) { EqualIff(a[i], b[i]); }
      ItemsAre(v);
      ItemsAre(w);
      if Numbers(v) == Numbers(w) {
        assert forall i | 0 <= i < |a| :: Numbers(v).items[i] == Numbers(w).items[i];
      }
    } else if v.Obj? && w.Obj? {
      forall k | k in v.fields && k in w.fields ensures PyEqual(v.fields[k], w.fields[k]) <==> Numbers(v.fields[k]) == Numbers(w.fields[k]) {
        EqualIff(v.fields[k], w.fields[k]);
      }
      FieldsAre(v);
      FieldsAre(w);
      if Numbers(v) == Numbers(w) {
        assert forall k | k in v.fields :: Numbers(v).fields[k] == Numbers(w).fields[k];
      }
      if PyEqual(v, w) { assert Numbers(v).fields == Numbers(w).fields; }
    }
  }

  lemma ItemsAre(v: Value)
    requires v.Arr?
    ensures Numbers(v).Arr? && |Numbers(v).items| == |v.items|
    ensures forall i | 0 <= i < |v.items| :: Numbers(v).items[i] == Numbers(v.items[i])
  {
  }

  lemma FieldsAre(v: Value)
    requires v.Obj?
    ensures Numbers(v).Obj? && Numbers(v).fields.Keys == v.fields.Keys
    ensures forall k | k in v.fields :: Numbers(v).fields[k] == Numbers(v.fields[k])
  {
  }

  // ---------------------------------------------------------------- patterns

  /** Regular expressions as the schemas use them; a class is a list of character ranges, repeated between two bounds. */
  datatype Regex =
    | Literal(text: string)
    | Class(ranges: seq<(char, char)>, least: nat, most: nat)
    | Then(first: Regex, second: Regex)
    | Either(left: Regex, right: Regex)

  predicate InClass(c: char, ranges: seq<(char, char)>) {
    exists k :: 0 <= k < |ranges| && ranges[k].0 <= c <= ranges[k].1
  }

  predicate FullMatch(r: Regex, s: string) {
    match r
    case Literal(text) => s == text
    case Class(ranges, least, most) => least <= |s| <= most && forall i | 0 <= i < |s| :: InClass(s[i], ranges)
    case Then(first, second) => exists i | 0 <= i <= |s| :: FullMatch(first, s[..i]) && FullMatch(second, s[i..])
    case Either(left, right) => FullMatch(left, s) || FullMatch(right, s)
  }

  const Digit := ('0', '9')
  const Small := ('a', 'z')
  const Capital := ('A', 'Z')
  const Hexadecimal: seq<(char, char)> := [Digit, ('a', 'f')]
  const SlugStart: seq<(char, char)> := [Small, Digit]
  const SlugRest: seq<(char, char)> := [Small, Digit, ('.', '.'), ('_', '_'), ('-', '-')]
  const InPath: seq<(char, char)> := [Capital, Small, Digit, ('.', '.'), ('_', '_'), ('/', '/'), ('-', '-')]

  const UnderTarget := Then(Literal("target-src/"), Class(InPath, 1, 900))

  /** The expression that a listed pattern stands for, between its anchors. */
  function ExpressionOf(p: Pattern): Regex
    requires !p.Unlisted?
  {
    match p
    case Sha256Tag => Then(Literal("sha256:"), Class(Hexadecimal, 64, 64))
    case Hex64 => Class(Hexadecimal, 64, 64)
    case Hex7To64 => Class(Hexadecimal, 7, 64)
    case Hex40To64 => Class(Hexadecimal, 40, 64)
    case Slug => Then(Class(SlugStart, 1, 1), Class(SlugRest, 0, 63))
    case TargetPath => Either(Literal("target.txt"), UnderTarget)
    case EvidencePath => Either(Literal("target.txt"), Either(Literal("vision.md"), UnderTarget))
  }

  lemma ClassesAre(c: char)
    ensures InClass(c, Hexadecimal) <==> IsHex(c)
    ensures InClass(c, SlugRest) <==> IsSlugChar(c)
    ensures InClass(c, SlugStart) <==> IsSlugChar(c) && c !in {'.', '_', '-'}
    ensures InClass(c, InPath) <==> IsPathChar(c)
  {
    TwoRanges(c, Hexadecimal);
    TwoRanges(c, SlugStart);
    MoreRanges(c, SlugStart, SlugRest);
    TwoRanges(c, [Capital, Small]);
    MoreRanges(c, [Capital, Small], InPath);
  }

  predicate InRange(c: char, range: (char, char)) { range.0 <= c <= range.1 }

  lemma TwoRanges(c: char, ranges: seq<(char, char)>)
    requires |ranges| == 2
    ensures InClass(c, ranges) <==> InRange(c, ranges[0]) || InRange(c, ranges[1])
  {
  }

  /** A class with up to five more ranges. */
  lemma MoreRanges(c: char, some: seq<(char, char)>, all: seq<(char, char)>)
    requires some <= all && |some| + 1 < |all| <= |some| + 5
    ensures var n := |some|;
            InClass(c, all) <==>
            || InClass(c, some) || InRange(c, all[n]) || InRange(c, all[n + 1])
            || (n + 2 < |all| && InRange(c, all[n + 2])) || (n + 3 < |all| && InRange(c, all[n + 3]))
            || (n + 4 < |all| && InRange(c, all[n + 4]))
  {
    var n := |some|;
    if k :| 0 <= k < |all| && all[k].0 <= c <= all[k].1 {
      assert k < n ==> some[k] == all[k];
      assert k < n || k == n || k == n + 1 || k == n + 2 || k == n + 3 || k == n + 4;
    }
    if k :| 0 <= k < n && some[k].0 <= c <= some[k].1 { assert all[k] == some[k]; }
  }

  lemma ThenLiteral(text: string, r: Regex, s: string)
    ensures FullMatch(Then(Literal(text), r), s) <==> text <= s && FullMatch(r, s[|text|..])
  {
    if text <= s { assert s[..|text|] == text; }
    if i: nat :| i <= |s| && FullMatch(Literal(text), s[..i]) && FullMatch(r, s[i..]) { assert i == |text|; }
  }

  lemma HexTextIff(s: string, least: nat, most: nat)
    ensures FullMatch(Class(Hexadecimal, least, most), s) <==> IsHexText(s, least, most)
  {
    hide InClass, IsHex;
    forall i | 0 <= i < |s| ensures InClass(s[i], Hexadecimal) <==> IsHex(s[i]) { ClassesAre(s[i]); }
  }

  lemma SlugIff(s: string)
    ensures FullMatch(Then(Class(SlugStart, 1, 1), Class(SlugRest, 0, 63)), s) <==>
            1 <= |s| <= 64 && s[0] !in {'.', '_', '-'} && forall i | 0 <= i < |s| :: IsSlugChar(s[i])
  {
    hide InClass, IsSlugChar;
    var first, rest := Class(SlugStart, 1, 1), Class(SlugRest, 0, 63);
    forall i | 0 <= i < |s|
      ensures InClass(s[i], SlugRest) <==> IsSlugChar(s[i])
      ensures InClass(s[i], SlugStart) <==> IsSlugChar(s[i]) && s[i] !in {'.', '_', '-'}
    {
      ClassesAre(s[i]);
    }
    if |s| >= 1 {
      assert s[..1] == [s[0]];
      assert forall i | 1 <= i < |s| :: s[1..][i - 1] == s[i];
      assert FullMatch(first, s[..1]) <==> InClass(s[0], SlugStart);
      assert FullMatch(rest, s[1..]) <==> |s| <= 64 && forall i | 1 <= i < |s| :: InClass(s[i], SlugRest);
    }
    if i: nat :| i <= |s| && FullMatch(first, s[..i]) && FullMatch(rest, s[i..]) { assert i == 1; }
  }

  lemma TargetIff(s: string)
    ensures FullMatch(UnderTarget, s) <==>
            "target-src/" <= s && 12 <= |s| <= 911 && forall i | 11 <= i < |s| :: IsPathChar(s[i])
  {
    hide InClass, IsPathChar;
    ThenLiteral("target-src/", Class(InPath, 1, 900), s);
    if "target-src/" <= s {
      var rest := s[11..];
      forall i | 0 <= i < |rest| ensures InClass(rest[i], InPath) <==> IsPathChar(s[i + 11]) { ClassesAre(rest[i]); }
      assert forall i | 11 <= i < |s| :: rest[i - 11] == s[i];
    }
  }

  /** A listed pattern matches exactly the texts that its expression matches from end to end. */
  lemma MatchesIff(p: Pattern, s: string, engine: (string, string) -> bool)
    requires !p.Unlisted?
    ensures Matches(p, s, engine) <==> FullMatch(ExpressionOf(p), s)
  {
    hide InClass, IsHexText, IsSlugChar, IsPathChar;
    match p
    case Sha256Tag =>
      ThenLiteral("sha256:", Class(Hexadecimal, 64, 64), s);
      if "sha256:" <= s { HexTextIff(s[7..], 64, 64); }
    case Hex64 => HexTextIff(s, 64, 64);
    case Hex7To64 => HexTextIff(s, 7, 64);
    case Hex40To64 => HexTextIff(s, 40, 64);
    case Slug => SlugIff(s);
    case TargetPath => TargetIff(s);
    case EvidencePath =>
      TargetIff(s);
      assert FullMatch(Either(Literal("vision.md"), UnderTarget), s) <==> s == "vision.md" || FullMatch(UnderTarget, s);
  }
}
