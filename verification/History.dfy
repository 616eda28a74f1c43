/** The trusted conversation history of a card, bounded by turns, bytes a turn and bytes in all. */
module History {
  import opened Outcomes
  import opened Truncation
  import JsonSize
  import Decimal
  import Utf8

  const MaxTurns := 20
  const TurnMaxBytes := 4096
  const MaxTotalBytes := 32768

  datatype Comment = Comment(isTrigger: bool, login: string, body: string)

  datatype Turn = Turn(speaker: string, body: string)

  /** Who is listened to: the trusted logins and the workflow's own bot. */
  datatype Audience = Audience(trusted: set<string>, bot: string, strip: string -> string)
  {
    /** The comment is a turn of the conversation. */
    predicate Hears(c: Comment) {
      !c.isTrigger && (c.login in trusted || c.login == bot) && strip(c.body) != ""
    }

    function TurnOf(c: Comment): Turn {
      Turn(if c.login == bot then "Assistant" else "Maintainer", strip(c.body))
    }

    function Turns(comments: seq<Comment>): seq<Turn> {
      if comments == [] then []
      else
        var c := comments[|comments| - 1];
        Turns(comments[..|comments| - 1]) + if Hears(c) then [TurnOf(c)] else []
    }

    function OnlyHeard(comments: seq<Comment>): seq<Comment> {
      if comments == [] then []
      else
        var c := comments[|comments| - 1];
        OnlyHeard(comments[..|comments| - 1]) + if Hears(c) then [c] else []
    }

    /** Comments by anybody else, and the triggering one, leave no trace in the conversation. */
    lemma {:induction false} OthersLeaveNoTrace(comments: seq<Comment>)
      ensures Turns(OnlyHeard(comments)) == Turns(comments)
    {
      hide Hears, TurnOf;
      if comments != [] {
        var rest, c := comments[..|comments| - 1], comments[|comments| - 1];
        OthersLeaveNoTrace(rest);
        if Hears(c) {
          assert (OnlyHeard(rest) + [c])[..|OnlyHeard(rest)|] == OnlyHeard(rest);
        } else {
          assert OnlyHeard(rest) + [] == OnlyHeard(rest) && Turns(rest) + [] == Turns(rest);
        }
      }
    }

    lemma {:induction false} InsertUnheard(before: seq<Comment>, c: Comment, after: seq<Comment>)
      requires !Hears(c)
      ensures Turns(before + [c] + after) == Turns(before + after)
    {
      hide Hears, TurnOf;
      if after == [] {
        assert before + [c] + after == before + [c] && before + after == before;
        assert Turns(before) + [] == Turns(before);
      } else {
        var rest, last := after[..|after| - 1], after[|after| - 1];
        InsertUnheard(before, c, rest);
        assert before + [c] + after == (before + [c] + rest) + [last];
        assert before + after == (before + rest) + [last];
      }
    }
  }

  // ---------------------------------------------------------------- one turn

  function TurnMarker(retained: nat, total: nat): string {
    "[truncated: retained " + Decimal.Text(retained) + " of " + Decimal.Text(total) + " bytes]"
  }

  function RetainedBudget(prefix: string, total: nat): nat {
    var reserve := Utf8.Length("\n" + TurnMarker(TurnMaxBytes, total));
    if Utf8.Length(prefix) + reserve >= TurnMaxBytes then 0 else TurnMaxBytes - Utf8.Length(prefix) - reserve
  }

  /** `_bounded_history_turn`, before its own check */
  function RenderTurn(t: Turn): string {
    var prefix := t.speaker + ": ";
    if Utf8.Length(prefix + t.body) <= TurnMaxBytes then prefix + t.body
    else
      var retained := Utf8.Cut(t.body, RetainedBudget(prefix, Utf8.Length(t.body)));
      prefix + retained + "\n" + TurnMarker(Utf8.Length(retained), Utf8.Length(t.body))
  }

  lemma MarkerSize(retained: nat, total: nat)
    ensures Utf8.Length(TurnMarker(retained, total)) == 32 + |Decimal.Digits(retained)| + |Decimal.Digits(total)|
  {
    hide Utf8.Length, Decimal.Digits;
    var a, b := Decimal.Digits(retained), Decimal.Digits(total);
    DigitsSize(retained);
    DigitsSize(total);
    JsonSize.AsciiLength("[truncated: retained ");
    JsonSize.AsciiLength(" of ");
    JsonSize.AsciiLength(" bytes]");
    Utf8.LengthAppend("[truncated: retained " + a + " of " + b, " bytes]");
    Utf8.LengthAppend("[truncated: retained " + a + " of ", b);
    Utf8.LengthAppend("[truncated: retained " + a, " of ");
    Utf8.LengthAppend("[truncated: retained ", a);
  }

  lemma DigitsSize(n: nat)
    ensures Utf8.Length(Decimal.Digits(n)) == |Decimal.Digits(n)|
  {
    var s := Decimal.Digits(n);
    assert forall i | 0 <= i < |s| :: Decimal.IsDigit(s[i]);
    JsonSize.AsciiLength(s);
  }

  const LargestSize := Decimal.Power10(19)

  predicate SaneTurn(t: Turn) {
    (t.speaker == "Assistant" || t.speaker == "Maintainer") && Utf8.Length(t.body) < LargestSize
  }

  lemma PrefixSize(t: Turn)
    requires SaneTurn(t)
    ensures Utf8.Length(t.speaker + ": ") <= 12
  {
    JsonSize.AsciiLength(t.speaker + ": ");
  }

  /** A rendered turn is within its bound, so the program's own check never fails. */
  lemma TurnFits(t: Turn)
    requires SaneTurn(t)
    ensures Utf8.Length(RenderTurn(t)) <= TurnMaxBytes
  {
    hide Utf8.Length, TurnMarker, Utf8.Cut, Decimal.Digits, Decimal.Power10;
    var prefix, total := t.speaker + ": ", Utf8.Length(t.body);
    PrefixSize(t);
    if Utf8.Length(prefix + t.body) > TurnMaxBytes {
      var budget := RetainedBudget(prefix, total);
      var retained := Utf8.Cut(t.body, budget);
      Utf8.CutIsPrefix(t.body, budget);
      MarkerSize(TurnMaxBytes, total);
      MarkerSize(Utf8.Length(retained), total);
      Decimal.DigitsBelow(total, 19);
      Decimal.DigitsMonotone(Utf8.Length(retained), TurnMaxBytes);
      DigitsOfBound();
      JsonSize.AsciiLength("\n");
      Utf8.LengthAppend("\n", TurnMarker(TurnMaxBytes, total));
      Utf8.LengthAppend(prefix + retained + "\n", TurnMarker(Utf8.Length(retained), total));
      Utf8.LengthAppend(prefix + retained, "\n");
      Utf8.LengthAppend(prefix, retained);
    }
  }

  lemma DigitsOfBound()
    ensures |Decimal.Digits(TurnMaxBytes)| == 4
  {
  }

  // ---------------------------------------------------------------- the whole history

  function BodyBytes(turns: seq<Turn>): nat {
    if turns == [] then 0 else BodyBytes(turns[..|turns| - 1]) + Utf8.Length(turns[|turns| - 1].body)
  }

  function Elision(elided: seq<Turn>): string {
    "[earlier conversation elided: " + Decimal.Digits(|elided|) + " turn" + (if |elided| == 1 then "" else "s") + ", "
    + Decimal.Digits(BodyBytes(elided)) + " bytes]"
  }

  function Rendered(turns: seq<Turn>): (rows: seq<string>)
    ensures |rows| == |turns| && forall i | 0 <= i < |rows| :: rows[i] == RenderTurn(turns[i])
  {
    seq(|turns|, i requires 0 <= i < |turns| => RenderTurn(turns[i]))
  }

  function Join(rows: seq<string>): string {
    if rows == [] then "" else if |rows| == 1 then rows[0] else rows[0] + "\n\n" + Join(rows[1..])
  }

  /** The history that keeps the last `k` turns and says how many it leaves out. */
  function Joined(turns: seq<Turn>, k: nat): string
    requires k <= |turns|
  {
    var elided := turns[..|turns| - k];
    Join((if elided == [] then [] else [Elision(elided)]) + Rendered(turns[|turns| - k..]))
  }

  predicate HistoryFits(turns: seq<Turn>, k: nat)
    requires k <= |turns|
  {
    Utf8.Length(Joined(turns, k)) <= MaxTotalBytes
  }

  /** The largest number of turns, from `k` down, whose history fits. */
  function KeptCount(turns: seq<Turn>, k: nat): (kept: nat)
    requires k <= |turns|
    ensures kept <= k && (kept > 0 ==> HistoryFits(turns, kept))
    ensures forall j | kept < j <= k :: !HistoryFits(turns, j)
  {
    if k == 0 || HistoryFits(turns, k) then k else KeptCount(turns, k - 1)
  }

  function Recent(turns: seq<Turn>): nat { if |turns| > MaxTurns then MaxTurns else |turns| }

  function HistoryOf(turns: seq<Turn>): string {
    if turns == [] then "" else Joined(turns, KeptCount(turns, Recent(turns)))
  }

  predicate SaneTurns(turns: seq<Turn>) {
    (forall i | 0 <= i < |turns| :: SaneTurn(turns[i])) && |turns| < LargestSize && BodyBytes(turns) < LargestSize
  }

  lemma SevenLengths(a: string, b: string, c: string, d: string, e: string, f: string, g: string)
    ensures Utf8.Length(a + b + c + d + e + f + g)
            == Utf8.Length(a) + Utf8.Length(b) + Utf8.Length(c) + Utf8.Length(d) + Utf8.Length(e) + Utf8.Length(f) + Utf8.Length(g)
  {
    hide Utf8.Length;
    Utf8.LengthAppend(a + b + c + d + e + f, g);
    Utf8.LengthAppend(a + b + c + d + e, f);
    Utf8.LengthAppend(a + b + c + d, e);
    Utf8.LengthAppend(a + b + c, d);
    Utf8.LengthAppend(a + b, c);
    Utf8.LengthAppend(a, b);
  }

  lemma ElisionWords()
    ensures Utf8.Length("[earlier conversation elided: ") == 30 && Utf8.Length(" turn") == 5 && Utf8.Length(", ") == 2
    ensures Utf8.Length("") == 0 && Utf8.Length("s") == 1 && Utf8.Length(" bytes]") == 7
  {
    hide Utf8.Length;
    JsonSize.AsciiLength("[earlier conversation elided: ");
    JsonSize.AsciiLength(" turn");
    JsonSize.AsciiLength("");
    JsonSize.AsciiLength("s");
    JsonSize.AsciiLength(", ");
    JsonSize.AsciiLength(" bytes]");
  }

  lemma ElisionSize(elided: seq<Turn>)
    requires |elided| < LargestSize && BodyBytes(elided) < LargestSize
    ensures Utf8.Length(Elision(elided)) <= 100
  {
    hide Utf8.Length, Decimal.Digits, Decimal.Power10, BodyBytes;
    var plural := if |elided| == 1 then "" else "s";
    ElisionWords();
    DigitsSize(|elided|);
    DigitsSize(BodyBytes(elided));
    Decimal.DigitsBelow(|elided|, 19);
    Decimal.DigitsBelow(BodyBytes(elided), 19);
    SevenLengths("[earlier conversation elided: ", Decimal.Digits(|elided|), " turn", plural, ", ",
                 Decimal.Digits(BodyBytes(elided)), " bytes]");
  }

  /** Leaving everything out fits, so some history always does. */
  lemma NothingKeptFits(turns: seq<Turn>)
    requires turns != [] && |turns| < LargestSize && BodyBytes(turns) < LargestSize
    ensures HistoryFits(turns, 0)
  {
    hide Elision, Utf8.Length, Decimal.Power10, BodyBytes;
    assert turns[..|turns|] == turns && turns[|turns|..] == [];
    ElisionSize(turns);
    assert [Elision(turns)] + Rendered([]) == [Elision(turns)];
  }

  /** The history fits its bound, every turn in it fits its own, and it keeps the longest run of last
      turns, up to twenty, that fits. */
  lemma HistoryIsBounded(turns: seq<Turn>)
    requires SaneTurns(turns)
    ensures Utf8.Length(HistoryOf(turns)) <= MaxTotalBytes
    ensures forall i | 0 <= i < |turns| :: Utf8.Length(RenderTurn(turns[i])) <= TurnMaxBytes
    ensures turns != [] ==>
              var kept := KeptCount(turns, Recent(turns));
              HistoryFits(turns, kept) && forall j | kept < j <= Recent(turns) :: !HistoryFits(turns, j)
  {
    hide RenderTurn, Joined, SaneTurn, BodyBytes, Decimal.Power10;
    forall i | 0 <= i < |turns| ensures Utf8.Length(RenderTurn(turns[i])) <= TurnMaxBytes { TurnFits(turns[i]); }
    if turns != [] { NothingKeptFits(turns); }
  }

  /** The assembled history depends on the heard comments alone: two discussions that agree on them, whatever
      else is posted in between, give the same text. */
  lemma OnlyHeardCount(a: Audience, comments: seq<Comment>, others: seq<Comment>)
    requires a.OnlyHeard(comments) == a.OnlyHeard(others)
    ensures HistoryOf(a.Turns(comments)) == HistoryOf(a.Turns(others))
  {
    a.OthersLeaveNoTrace(comments);
    a.OthersLeaveNoTrace(others);
  }

  /** So a comment by somebody else, posted anywhere in the discussion, leaves the history as it was. */
  lemma UnheardCommentIsIrrelevant(a: Audience, before: seq<Comment>, c: Comment, after: seq<Comment>)
    requires c.isTrigger || (c.login !in a.trusted && c.login != a.bot)
    ensures HistoryOf(a.Turns(before + [c] + after)) == HistoryOf(a.Turns(before + after))
  {
    a.InsertUnheard(before, c, after);
  }

  // ---------------------------------------------------------------- the loops

  method CollectTurns(comments: seq<Comment>, a: Audience) returns (turns: seq<Turn>)
    ensures turns == a.Turns(comments)
  {
    hide a.Hears, a.TurnOf;
    turns := [];
    for i := 0 to |comments|
      invariant turns == a.Turns(comments[..i])
    {
      assert comments[..i + 1][..i] == comments[..i];
      if a.Hears(comments[i]) { turns := turns + [a.TurnOf(comments[i])]; }
    }
    assert comments[..|comments|] == comments;
  }

  method RenderTurns(turns: seq<Turn>) returns (rows: Option<seq<string>>)
    ensures rows.Some? ==> rows.value == Rendered(turns)
    ensures rows == None ==> exists i :: 0 <= i < |turns| && !SaneTurn(turns[i])
  {
    hide RenderTurn, SaneTurn, Utf8.Length;
    var rendered: seq<string> := [];
    for i := 0 to |turns|
      invariant rendered == Rendered(turns)[..i]
    {
      if SaneTurn(turns[i]) { TurnFits(turns[i]); }
      if Utf8.Length(RenderTurn(turns[i])) > TurnMaxBytes {
        return None;
      }
      rendered := rendered + [RenderTurn(turns[i])];
    }
    rows := Some(rendered);
  }

  /** Elide the oldest kept turn until the whole fits or nothing is kept. */
  method ElideToFit(turns: seq<Turn>, first: nat, rows: seq<string>) returns (joined: string, ghost kept: nat)
    requires first <= |turns| && rows == Rendered(turns[first..])
    ensures kept == KeptCount(turns, |turns| - first) && joined == Joined(turns, kept)
  {
    hide RenderTurn, Elision, Join, Utf8.Length, Rendered, Joined;
    var elided, rendered := turns[..first], rows;
    ghost var left := turns[first..];
    kept := |left|;
    joined := Join((if elided == [] then [] else [Elision(elided)]) + rendered);
    RenderedLength(left);
    JoinedIs(turns, elided, left);
    while rendered != [] && Utf8.Length(joined) > MaxTotalBytes
      invariant elided + left == turns && kept == |left| == |rendered| && rendered == Rendered(left)
      invariant joined == Joined(turns, kept)
      invariant KeptCount(turns, |turns| - first) == KeptCount(turns, kept)
      decreases |rendered|
    {
      elided := elided + [turns[|elided|]];
      RenderedTail(left);
      rendered := rendered[1..];
      left := left[1..];
      kept := kept - 1;
      JoinedIs(turns, elided, left);
      joined := Join([Elision(elided)] + rendered);
    }
  }

  lemma RenderedLength(turns: seq<Turn>)
    ensures |Rendered(turns)| == |turns|
  {
  }

  lemma RenderedTail(turns: seq<Turn>)
    requires turns != []
    ensures Rendered(turns) != [] && Rendered(turns)[1..] == Rendered(turns[1..])
  {
    hide RenderTurn;
  }

  /** `assemble_history`; for inputs of sane size neither internal error is reached. */
  method AssembleHistory(comments: seq<Comment>, a: Audience) returns (history: Result<string, string>)
    ensures SaneTurns(a.Turns(comments)) ==> history == Ok(HistoryOf(a.Turns(comments)))
    ensures history.Ok? ==> Utf8.Length(history.value) <= MaxTotalBytes
  {
    hide RenderTurn, SaneTurn, Decimal.Power10, BodyBytes, Joined, Utf8.Length;
    var turns := CollectTurns(comments, a);
    if turns == [] {
      EmptyLength();
      return Ok("");
    }
    var first := |turns| - Recent(turns);
    var rows := RenderTurns(turns[first..]);
    if rows == None {
      assert exists i :: 0 <= i < |turns| && !SaneTurn(turns[i]);
      return Err("bounded history turn exceeds its byte contract");
    }
    ghost var kept;
    var joined;
    joined, kept := ElideToFit(turns, first, rows.value);
    if SaneTurns(turns) { HistoryIsBounded(turns); }
    if Utf8.Length(joined) > MaxTotalBytes {
      return Err("bounded history exceeds its total byte contract");
    }
    history := Ok(joined);
  }

  lemma EmptyLength()
    ensures Utf8.Length("") == 0
  {
  }

  lemma JoinedIs(turns: seq<Turn>, elided: seq<Turn>, kept: seq<Turn>)
    requires elided + kept == turns
    ensures Joined(turns, |kept|) == Join((if elided == [] then [] else [Elision(elided)]) + Rendered(kept))
  {
    hide RenderTurn, Elision, Join, Rendered;
    assert turns[..|turns| - |kept|] == elided && turns[|turns| - |kept|..] == kept;
  }
}
