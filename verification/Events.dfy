/** The bounded event stream: a writer whose sequence number advances before its checks, and its reader. */
module Events {
  import opened Outcomes

  /** One call of `emit`: whether the event is terminal, whether it satisfies its contract, its line's size. */
  datatype Attempt = Attempt(terminal: bool, valid: bool, bytes: nat)

  datatype Line = Line(seqNo: nat, terminal: bool, bytes: nat)

  datatype Stream = Stream(seqNo: nat, written: nat, lines: seq<Line>)

  predicate Succeeds(s: Stream, a: Attempt, maxBytes: nat) {
    a.valid && s.written + a.bytes <= maxBytes
  }

  function Emitted(s: Stream, a: Attempt, maxBytes: nat): Stream {
    if Succeeds(s, a, maxBytes)
    then Stream(s.seqNo + 1, s.written + a.bytes, s.lines + [Line(s.seqNo + 1, a.terminal, a.bytes)])
    else s.(seqNo := s.seqNo + 1)
  }

  function After(attempts: seq<Attempt>, maxBytes: nat): Stream {
    if attempts == [] then Stream(0, 0, [])
    else Emitted(After(attempts[..|attempts| - 1], maxBytes), attempts[|attempts| - 1], maxBytes)
  }

  class EventWriter {
    const maxBytes: nat
    var seqNo: nat
    var written: nat
    var lines: seq<Line>

    function State(): Stream
      reads this
    {
      Stream(seqNo, written, lines)
    }

    constructor (maxBytes: nat)
      ensures this.maxBytes == maxBytes && State() == After([], maxBytes)
    {
      this.maxBytes := maxBytes;
      seqNo, written, lines := 0, 0, [];
    }

    /** `emit`: the number is taken before the event is checked and before the bound is. */
    method Emit(a: Attempt) returns (outcome: Result<nat, string>)
      modifies this
      ensures State() == Emitted(old(State()), a, maxBytes)
      ensures outcome.Ok? <==> Succeeds(old(State()), a, maxBytes)
      ensures outcome.Ok? ==> outcome.value == seqNo
    {
      seqNo := seqNo + 1;
      if !a.valid {
        return Err("event contract violation");
      }
      if written + a.bytes > maxBytes {
        return Err("normalized event stream exceeded its byte bound");
      }
      lines := lines + [Line(seqNo, a.terminal, a.bytes)];
      written := written + a.bytes;
      outcome := Ok(seqNo);
    }
  }

  // ---------------------------------------------------------------- the bound

  function Bytes(lines: seq<Line>): nat {
    if lines == [] then 0 else Bytes(lines[..|lines| - 1]) + lines[|lines| - 1].bytes
  }

  lemma NoBytes()
    ensures Bytes([]) == 0
  {
  }

  lemma BytesPush(lines: seq<Line>, line: Line)
    ensures Bytes(lines + [line]) == Bytes(lines) + line.bytes
  {
    assert (lines + [line])[..|lines|] == lines;
  }

  /** Whatever succeeds or fails, the stream holds exactly the bytes counted, within the bound. */
  lemma {:induction false} BoundKept(attempts: seq<Attempt>, maxBytes: nat)
    ensures var s := After(attempts, maxBytes);
            Bytes(s.lines) == s.written <= maxBytes && s.seqNo == |attempts| && |s.lines| <= |attempts|
  {
    hide Bytes;
    if attempts == [] {
      NoBytes();
    } else {
      var n := |attempts| - 1;
      var before := After(attempts[..n], maxBytes);
      BoundKept(attempts[..n], maxBytes);
      BytesPush(before.lines, Line(before.seqNo + 1, attempts[n].terminal, attempts[n].bytes));
    }
  }

  // ---------------------------------------------------------------- the reader

  function Terminals(lines: seq<Line>): nat {
    if lines == [] then 0 else Terminals(lines[..|lines| - 1]) + if lines[|lines| - 1].terminal then 1 else 0
  }

  /** Numbered from one without a gap, with at most one terminal event. */
  predicate Acceptable(lines: seq<Line>) {
    (forall i | 0 <= i < |lines| :: lines[i].seqNo == i + 1) && Terminals(lines) <= 1
  }

  /** `read_events` on lines that are each well formed */
  method ReadEvents(lines: seq<Line>) returns (events: Result<seq<Line>, string>)
    ensures events == if Acceptable(lines) then Ok(lines) else Err("event stream is not acceptable")
  {
    var expected, terminal := 1, 0;
    var read: seq<Line> := [];
    for i := 0 to |lines|
      invariant expected == i + 1 && read == lines[..i] && terminal == Terminals(lines[..i])
      invariant forall k | 0 <= k < i :: lines[k].seqNo == k + 1
    {
      assert lines[..i + 1][..i] == lines[..i];
      if lines[i].seqNo != expected {
        return Err("event stream is not acceptable");
      }
      expected := expected + 1;
      if lines[i].terminal { terminal := terminal + 1; }
      read := read + [lines[i]];
    }
    assert lines[..|lines|] == lines;
    if terminal > 1 {
      return Err("event stream is not acceptable");
    }
    events := Ok(read);
  }

  // ---------------------------------------------------------------- what the reader makes of the writer

  /** Whether attempt `i` succeeded. */
  predicate Succeeded(attempts: seq<Attempt>, maxBytes: nat, i: nat)
    requires i < |attempts|
  {
    Succeeds(After(attempts[..i], maxBytes), attempts[i], maxBytes)
  }

  /** No failed attempt is followed by a successful one. */
  predicate NoGap(attempts: seq<Attempt>, maxBytes: nat) {
    forall i, j | 0 <= i < j < |attempts| && Succeeded(attempts, maxBytes, j) :: Succeeded(attempts, maxBytes, i)
  }

  predicate Numbered(lines: seq<Line>) {
    forall i | 0 <= i < |lines| :: lines[i].seqNo == i + 1
  }

  /** The lines carry the numbers of the successful attempts, so they are consecutive exactly when
      the successes come first; `|lines|` counts the successes. */
  lemma {:induction false} NumbersTellGaps(attempts: seq<Attempt>, maxBytes: nat)
    ensures var s := After(attempts, maxBytes);
            && (Numbered(s.lines) <==> NoGap(attempts, maxBytes))
            && (NoGap(attempts, maxBytes) ==> forall i | 0 <= i < |attempts| :: Succeeded(attempts, maxBytes, i) <==> i < |s.lines|)
            && |s.lines| <= s.seqNo == |attempts|
  {
    hide Succeeds;
    if attempts != [] {
      var n := |attempts| - 1;
      var init := attempts[..n];
      var before, after := After(init, maxBytes), After(attempts, maxBytes);
      NumbersTellGaps(init, maxBytes);
      forall i | 0 <= i < n ensures Succeeded(attempts, maxBytes, i) <==> Succeeded(init, maxBytes, i) {
        assert attempts[..i] == init[..i];
      }
      if Succeeded(attempts, maxBytes, n) {
        assert after.lines == before.lines + [Line(n + 1, attempts[n].terminal, attempts[n].bytes)];
        if Numbered(after.lines) {
          assert Numbered(before.lines) by {
            forall i | 0 <= i < |before.lines| ensures before.lines[i].seqNo == i + 1 { assert after.lines[i] == before.lines[i]; }
          }
          assert after.lines[|before.lines|].seqNo == n + 1;
        }
        if NoGap(attempts, maxBytes) {
          assert NoGap(init, maxBytes);
          assert n > 0 ==> Succeeded(attempts, maxBytes, n - 1);
        }
      }
    }
  }

  /** Attempt `i` wrote a terminal event. */
  predicate Ends(attempts: seq<Attempt>, maxBytes: nat, i: nat)
    requires i < |attempts|
  {
    Succeeded(attempts, maxBytes, i) && attempts[i].terminal
  }

  /** At most one successful attempt is terminal. */
  predicate EndsOnce(attempts: seq<Attempt>, maxBytes: nat) {
    forall i, j | 0 <= i < j < |attempts| && Ends(attempts, maxBytes, j) :: !Ends(attempts, maxBytes, i)
  }

  predicate NeverEnds(attempts: seq<Attempt>, maxBytes: nat) {
    forall i | 0 <= i < |attempts| :: !Ends(attempts, maxBytes, i)
  }

  lemma TerminalsPush(lines: seq<Line>, line: Line)
    ensures Terminals(lines + [line]) == Terminals(lines) + if line.terminal then 1 else 0
  {
    assert (lines + [line])[..|lines|] == lines;
  }

  lemma {:induction false} TerminalsTellEnds(attempts: seq<Attempt>, maxBytes: nat)
    ensures var lines := After(attempts, maxBytes).lines;
            && (Terminals(lines) == 0 <==> NeverEnds(attempts, maxBytes))
            && (Terminals(lines) <= 1 <==> EndsOnce(attempts, maxBytes))
  {
    hide Succeeds, Terminals;
    if attempts == [] {
      NoTerminals();
    } else {
      var n := |attempts| - 1;
      var init := attempts[..n];
      var before := After(init, maxBytes);
      TerminalsTellEnds(init, maxBytes);
      forall i | 0 <= i < n ensures Ends(attempts, maxBytes, i) <==> Ends(init, maxBytes, i) {
        assert attempts[..i] == init[..i];
      }
      TerminalsPush(before.lines, Line(before.seqNo + 1, attempts[n].terminal, attempts[n].bytes));
      EndsStep(attempts, maxBytes);
    }
  }

  lemma NoTerminals()
    ensures Terminals([]) == 0
  {
  }

  /** One more attempt, told from the attempts before it. */
  lemma EndsStep(attempts: seq<Attempt>, maxBytes: nat)
    requires attempts != []
    requires var init := attempts[..|attempts| - 1];
             forall i | 0 <= i < |init| :: Ends(attempts, maxBytes, i) <==> Ends(init, maxBytes, i)
    ensures var n := |attempts| - 1; var last := Ends(attempts, maxBytes, n);
            && (NeverEnds(attempts, maxBytes) <==> NeverEnds(attempts[..n], maxBytes) && !last)
            && (EndsOnce(attempts, maxBytes) <==> EndsOnce(attempts[..n], maxBytes) && (last ==> NeverEnds(attempts[..n], maxBytes)))
  {
    hide Ends;
  }

  /** The reader accepts the stream exactly when no failed emission was followed by a successful one
      and at most one successful emission was terminal. */
  lemma ReaderAcceptsIff(attempts: seq<Attempt>, maxBytes: nat)
    ensures Acceptable(After(attempts, maxBytes).lines) <==> NoGap(attempts, maxBytes) && EndsOnce(attempts, maxBytes)
  {
    hide After, NoGap, EndsOnce, NeverEnds, Terminals;
    NumbersTellGaps(attempts, maxBytes);
    TerminalsTellEnds(attempts, maxBytes);
  }

  /** A stream that is accepted and whose last emission got through lost nothing at all. */
  lemma AcceptedAndClosedIsComplete(attempts: seq<Attempt>, maxBytes: nat)
    requires attempts != [] && Acceptable(After(attempts, maxBytes).lines) && Succeeded(attempts, maxBytes, |attempts| - 1)
    ensures |After(attempts, maxBytes).lines| == |attempts|
    ensures forall i | 0 <= i < |attempts| :: Succeeded(attempts, maxBytes, i)
  {
    hide After, Succeeded, Terminals;
    NumbersTellGaps(attempts, maxBytes);
  }

  /** A swallowed failure makes an otherwise complete stream unreadable: an oversized event in the
      middle is enough. */
  lemma SwallowedFailureBreaksStream(maxBytes: nat)
    requires maxBytes >= 2
    ensures var attempts := [Attempt(false, true, 1), Attempt(false, true, maxBytes), Attempt(true, true, 1)];
            !Acceptable(After(attempts, maxBytes).lines)
  {
    var attempts := [Attempt(false, true, 1), Attempt(false, true, maxBytes), Attempt(true, true, 1)];
    assert attempts[..2] == [attempts[0], attempts[1]] && attempts[..2][..1] == [attempts[0]] && attempts[..1][..0] == [];
    assert After(attempts[..1], maxBytes) == Stream(1, 1, [Line(1, false, 1)]);
    assert After(attempts[..2], maxBytes) == Stream(2, 1, [Line(1, false, 1)]);
    assert After(attempts, maxBytes).lines == [Line(1, false, 1), Line(3, true, 1)];
  }
}
