/** What the conversation history says, told on the comments and on the text. */
module HistoryLaws {
  import opened History
  import Decimal
  import Utf8

  // ---------------------------------------------------------------- who is heard

  /** The comments that are turns, by position: by the bot or by somebody trusted, not the triggering one,
      and with more than whitespace in them. */
  predicate HeardAt(a: Audience, comments: seq<Comment>, i: nat) {
    && i < |comments| && !comments[i].isTrigger && a.strip(comments[i].body) != ""
    && (comments[i].login == a.bot || comments[i].login in a.trusted)
  }

  /** The heard comments in their order, each once, as turns of the assistant or of a maintainer. */
  ghost predicate Heard(a: Audience, comments: seq<Comment>, at: seq<nat>, turns: seq<Turn>) {
    && |at| == |turns|
    && (forall k | 0 <= k < |at| ::
          && HeardAt(a, comments, at[k])
          && turns[k].speaker == (if comments[at[k]].login == a.bot then "Assistant" else "Maintainer")
          && turns[k].body == a.strip(comments[at[k]].body))
    && (forall j, k | 0 <= j < k < |at| :: at[j] < at[k])
    && forall i: nat | HeardAt(a, comments, i) :: i in at
  }

  lemma {:induction false} TurnsAreHeard(a: Audience, comments: seq<Comment>) returns (at: seq<nat>)
    ensures Heard(a, comments, at, a.Turns(comments))
  {
    if comments == [] {
      at := [];
    } else {
      var n := |comments| - 1;
      var rest, c := comments[..n], comments[n];
      var before := TurnsAreHeard(a, rest);
      at := before + if a.Hears(c) then [n] else [];
      forall i: nat | HeardAt(a, comments, i) ensures i in at {
        if i < n { assert HeardAt(a, rest, i); }
      }
    }
  }

  // ---------------------------------------------------------------- one turn

  /** A turn cut behind its first `k` characters. */
  function CutTurn(t: Turn, k: nat): string
    requires k <= |t.body|
  {
    t.speaker + ": " + t.body[..k] + "\n[truncated: retained " + Decimal.Digits(Utf8.Length(t.body[..k])) + " of "
    + Decimal.Digits(Utf8.Length(t.body)) + " bytes]"
  }

  /** What a cut turn has room for next to its speaker and the longest marker it could get. */
  predicate HasRoom(t: Turn, k: nat)
    requires k <= |t.body|
  {
    Utf8.Length(t.speaker + ": ") + Utf8.Length(t.body[..k])
    + Utf8.Length("\n[truncated: retained 4096 of " + Decimal.Digits(Utf8.Length(t.body)) + " bytes]") <= 4096
  }

  lemma FourDigitText()
    ensures Decimal.Text(4096) == "4096"
  {
    assert Decimal.Digits(4) == "4" && Decimal.Digits(40) == "40" && Decimal.Digits(409) == "409";
  }

  /** A turn of at most 4,096 bytes is rendered whole; a longer one with its longest beginning for which
      there is room, none if there is none, and with a marker that counts the bytes of both. */
  lemma TurnTells(t: Turn) returns (k: nat)
    ensures k <= |t.body|
    ensures RenderTurn(t) ==
            if Utf8.Length(t.speaker + ": " + t.body) <= 4096 then t.speaker + ": " + t.body else CutTurn(t, k)
    ensures k > 0 ==> HasRoom(t, k)
    ensures forall j | k < j <= |t.body| :: !HasRoom(t, j)
  {
    hide Utf8.Length, Utf8.Cut, Decimal.Digits, Decimal.Power10;
    var prefix, total := t.speaker + ": ", Utf8.Length(t.body);
    var budget := RetainedBudget(prefix, total);
    var cut := Utf8.Cut(t.body, budget);
    Utf8.CutIsPrefix(t.body, budget);
    Utf8.LengthBounds(cut);
    k := |cut|;
    assert t.body[..k] == cut;
    FourDigitText();
    MarkerText(total);
    forall j | k < j <= |t.body| ensures !HasRoom(t, j) {
      if HasRoom(t, j) { Utf8.CutIsLongest(t.body, budget, j); }
    }
    CutTurnText(t, k);
  }

  lemma Regroup(a: string, b: string, c: string, d: string, e: string, f: string)
    ensures a + (b + c + d + e + f) == (a + b + c + d) + e + f
  {
  }

  lemma Opening()
    ensures "\n" + "[truncated: retained " + "4096" + " of " == "\n[truncated: retained 4096 of "
  {
  }

  lemma MarkerText(total: nat)
    requires Decimal.Text(4096) == "4096"
    ensures "\n" + TurnMarker(TurnMaxBytes, total) == "\n[truncated: retained 4096 of " + Decimal.Digits(total) + " bytes]"
  {
    hide Decimal.Digits;
    Opening();
    Regroup("\n", "[truncated: retained ", "4096", " of ", Decimal.Digits(total), " bytes]");
  }

  lemma CutTurnText(t: Turn, k: nat)
    requires k <= |t.body|
    ensures CutTurn(t, k) ==
            t.speaker + ": " + t.body[..k] + "\n" + TurnMarker(Utf8.Length(t.body[..k]), Utf8.Length(t.body))
  {
    hide Decimal.Digits, Utf8.Length;
  }

  // ---------------------------------------------------------------- the whole history

  /** Rows with a blank line between any two. */
  function Lines(rows: seq<string>): string {
    if rows == [] then ""
    else if |rows| == 1 then rows[0]
    else Lines(rows[..|rows| - 1]) + "\n\n" + rows[|rows| - 1]
  }

  lemma {:induction false} JoinFrom(first: string, rows: seq<string>)
    ensures Join([first] + rows) == if rows == [] then first else first + "\n\n" + Join(rows)
  {
    if rows != [] { assert ([first] + rows)[1..] == rows; }
  }

  lemma LinesPush(rows: seq<string>, last: string)
    ensures Lines(rows + [last]) == if rows == [] then last else Lines(rows) + "\n\n" + last
  {
    assert (rows + [last])[..|rows|] == rows;
  }

  lemma Between(a: string, b: string, c: string)
    ensures a + "\n\n" + (b + "\n\n" + c) == (a + "\n\n" + b) + "\n\n" + c
  {
  }

  lemma {:induction false} JoinIsLines(rows: seq<string>)
    ensures Join(rows) == Lines(rows)
    decreases |rows|
  {
    hide Join, Lines;
    if |rows| <= 1 {
      ShortJoin(rows);
    } else {
      var first, mid, last := rows[0], rows[1..|rows| - 1], rows[|rows| - 1];
      assert rows == [first] + (mid + [last]) && rows == ([first] + mid) + [last];
      JoinIsLines(mid + [last]);
      JoinIsLines([first] + mid);
      JoinFrom(first, mid + [last]);
      JoinFrom(first, mid);
      LinesPush([first] + mid, last);
      LinesPush(mid, last);
      if mid != [] {
        JoinIsLines(mid);
        Between(first, Lines(mid), last);
      }
    }
  }

  lemma ShortJoin(rows: seq<string>)
    requires |rows| <= 1
    ensures Join(rows) == Lines(rows)
  {
  }

  /** The bodies one after the other. */
  function Bodies(turns: seq<Turn>): string {
    if turns == [] then "" else turns[0].body + Bodies(turns[1..])
  }

  lemma {:induction false} BodiesPush(turns: seq<Turn>, t: Turn)
    ensures Bodies(turns + [t]) == Bodies(turns) + t.body
  {
    if turns != [] {
      assert (turns + [t])[1..] == turns[1..] + [t];
      BodiesPush(turns[1..], t);
    } else {
      assert [t][1..] == [] && Bodies([t]) == t.body + Bodies([]);
    }
  }

  lemma {:induction false} BodyBytesAre(turns: seq<Turn>)
    ensures BodyBytes(turns) == Utf8.Length(Bodies(turns))
  {
    hide Bodies;
    if turns != [] {
      var rest, t := turns[..|turns| - 1], turns[|turns| - 1];
      assert turns == rest + [t];
      BodyBytesAre(rest);
      BodiesPush(rest, t);
      Utf8.LengthAppend(Bodies(rest), t.body);
    } else {
      NoBodies();
    }
  }

  lemma NoBodies()
    ensures Bodies([]) == "" && Utf8.Length("") == 0
  {
  }

  /** The line that stands for the turns left out. */
  function LeftOut(turns: seq<Turn>): string {
    if |turns| == 1 then "[earlier conversation elided: 1 turn, " + Decimal.Digits(Utf8.Length(turns[0].body)) + " bytes]"
    else "[earlier conversation elided: " + Decimal.Digits(|turns|) + " turns, "
         + Decimal.Digits(Utf8.Length(Bodies(turns))) + " bytes]"
  }

  lemma LeftOutIs(turns: seq<Turn>)
    ensures Elision(turns) == LeftOut(turns)
  {
    hide Utf8.Length, BodyBytes;
    BodyBytesAre(turns);
    if |turns| == 1 {
      assert turns[1..] == [] && turns[0].body + "" == turns[0].body;
      OneDigit();
    }
    hide Decimal.Digits, Bodies;
  }

  lemma OneDigit()
    ensures Decimal.Digits(1) == "1"
  {
  }

  /** The last `k` turns, behind a line for the others if there are any. */
  ghost predicate SaysLast(turns: seq<Turn>, k: nat, text: string) {
    && k <= |turns|
    && exists rows: seq<string> ::
         && |rows| == k && (forall i | 0 <= i < k :: rows[i] == RenderTurn(turns[|turns| - k + i]))
         && text == Lines((if k == |turns| then [] else [LeftOut(turns[..|turns| - k])]) + rows)
  }

  lemma JoinedSaysLast(turns: seq<Turn>, k: nat)
    requires k <= |turns|
    ensures SaysLast(turns, k, Joined(turns, k))
  {
    hide RenderTurn, Elision, LeftOut, Join, Lines;
    var elided, rows := turns[..|turns| - k], Rendered(turns[|turns| - k..]);
    LeftOutIs(elided);
    JoinIsLines((if elided == [] then [] else [Elision(elided)]) + rows);
  }

  lemma SaysOnce(turns: seq<Turn>, k: nat, a: string, b: string)
    requires SaysLast(turns, k, a) && SaysLast(turns, k, b)
    ensures a == b
  {
    hide RenderTurn, LeftOut, Lines;
    var before := if k == |turns| then [] else [LeftOut(turns[..|turns| - k])];
    var r: seq<string> :| |r| == k && (forall i | 0 <= i < k :: r[i] == RenderTurn(turns[|turns| - k + i]))
                          && a == Lines(before + r);
    var q: seq<string> :| |q| == k && (forall i | 0 <= i < k :: q[i] == RenderTurn(turns[|turns| - k + i]))
                          && b == Lines(before + q);
    assert r == q;
  }

  /** The history is the text with the most last turns, twenty at most, that has at most 32,768 bytes, and
      with no turn when there is none; it is empty exactly when nobody was heard. */
  lemma HistoryTells(turns: seq<Turn>) returns (k: nat)
    ensures turns == [] ==> HistoryOf(turns) == ""
    ensures turns != [] ==> k <= 20 && SaysLast(turns, k, HistoryOf(turns))
    ensures turns != [] && k > 0 ==> Utf8.Length(HistoryOf(turns)) <= 32768
    ensures forall j, text | k < j <= |turns| && j <= 20 && SaysLast(turns, j, text) :: Utf8.Length(text) > 32768
  {
    hide Joined, SaysLast, Utf8.Length;
    k := KeptCount(turns, Recent(turns));
    if turns != [] {
      JoinedSaysLast(turns, k);
      forall j, text | k < j <= |turns| && j <= 20 && SaysLast(turns, j, text) ensures Utf8.Length(text) > 32768 {
        JoinedSaysLast(turns, j);
        SaysOnce(turns, j, text, Joined(turns, j));
        assert !HistoryFits(turns, j);
      }
    }
  }

  /** Every history whose heard comments an address space can hold is one that the program puts together. */
  lemma HeardIsSane(a: Audience, comments: seq<Comment>)
    ensures var turns := a.Turns(comments);
            SaneTurns(turns) <==> |turns| < Decimal.Power10(19) && Utf8.Length(Bodies(turns)) < Decimal.Power10(19)
  {
    hide Utf8.Length, Bodies, BodyBytes, Decimal.Power10;
    var turns := a.Turns(comments);
    var at := TurnsAreHeard(a, comments);
    BodyBytesAre(turns);
    forall i | 0 <= i < |turns| ensures Utf8.Length(turns[i].body) <= BodyBytes(turns) { BodyWithin(turns, i); }
  }

  lemma {:induction false} BodyWithin(turns: seq<Turn>, i: nat)
    requires i < |turns|
    ensures Utf8.Length(turns[i].body) <= BodyBytes(turns)
  {
    hide Utf8.Length;
    if i < |turns| - 1 { BodyWithin(turns[..|turns| - 1], i); }
  }
}
