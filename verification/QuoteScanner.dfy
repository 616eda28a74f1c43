/** The escape-aware scanner for quote-delimited evidence spans. */
module QuoteScanner {
  import opened Outcomes

  predicate IsDelimiter(c: char) { c == '\'' || c == '"' }

  // ---------------------------------------------------------------- inside a span

  /** The length of the run of backslashes that `rest` begins with. */
  function Run(rest: string): (n: nat)
    ensures n <= |rest| && (forall i | 0 <= i < n :: rest[i] == '\\') && (n < |rest| ==> rest[n] != '\\')
  {
    if rest == "" || rest[0] != '\\' then 0 else 1 + Run(rest[1..])
  }

  function Slashes(n: nat): (s: string)
    ensures |s| == n && forall i | 0 <= i < n :: s[i] == '\\'
  {
    seq(n, _ => '\\')
  }

  /** What follows an opening delimiter: how far its closing delimiter is, and the decoded text between. */
  function Close(rest: string, d: char): (r: Option<(nat, string)>)
    requires IsDelimiter(d)
    ensures r.Some? ==> r.value.0 < |rest| && rest[r.value.0] == d
    decreases |rest|
  {
    if rest == "" then None
    else if rest[0] == '\\' then
      var n := Run(rest);
      var after := rest[n..];
      if after != "" && after[0] == d then
        if n % 2 == 1 then
          match Close(after[1..], d)
          case None => None
          case Some((k, text)) => Some((n + 1 + k, Slashes(n - 1) + [d] + text))
        else Some((n, Slashes(n)))
      else
        match Close(after, d)
        case None => None
        case Some((k, text)) => Some((n + k, Slashes(n) + text))
    else if rest[0] == d then Some((0, ""))
    else
      match Close(rest[1..], d)
      case None => None
      case Some((k, text)) => Some((k + 1, [rest[0]] + text))
  }

  // ---------------------------------------------------------------- openers and spans

  /** `isspace` is the host language's whitespace test. */
  predicate OpensAfter(text: string, at: nat, isspace: char -> bool)
    requires at <= |text|
  {
    at == 0 || isspace(text[at - 1]) || text[at - 1] in {':', '(', '[', '{', '=', ',', '`'}
  }

  /** The backslashes that end just before `at`. */
  function RunBefore(text: string, at: nat): (start: nat)
    requires at <= |text|
    ensures start <= at && forall i | start <= i < at :: text[i] == '\\'
    ensures start > 0 ==> text[start - 1] != '\\'
  {
    if at == 0 || text[at - 1] != '\\' then at else RunBefore(text, at - 1)
  }

  predicate IsEscapedOpener(text: string, at: nat, isspace: char -> bool)
    requires at <= |text|
  {
    RunBefore(text, at) != at && OpensAfter(text, RunBefore(text, at), isspace)
  }

  /** A span found: the positions of its delimiters and its decoded text. */
  datatype Span = Span(open: nat, close: nat, text: string)

  datatype Scanned = Scanned(spans: seq<Span>, malformed: bool)

  /** What the scan adds from `index` on. */
  function Scan(text: string, index: nat, maxLen: nat, isspace: char -> bool): (r: Scanned)
    requires index <= |text|
    decreases |text| - index
  {
    if index == |text| then Scanned([], false)
    else
      var d := text[index];
      if !IsDelimiter(d) then Scan(text, index + 1, maxLen, isspace)
      else if IsEscapedOpener(text, index, isspace) then Scan(text, index + 1, maxLen, isspace).(malformed := true)
      else if !OpensAfter(text, index, isspace) then Scan(text, index + 1, maxLen, isspace)
      else
        match Close(text[index + 1..], d)
        case None => Scan(text, index + 1, maxLen, isspace).(malformed := true)
        case Some((k, decoded)) =>
          var later := Scan(text, index + k + 2, maxLen, isspace);
          if 1 <= k <= maxLen then later.(spans := [Span(index, index + 1 + k, decoded)] + later.spans) else later
  }

  // ---------------------------------------------------------------- the two-cursor loop

  /** `_scan_quoted_evidence` */
  method ScanQuotedEvidence(text: string, maxLen: nat, isspace: char -> bool) returns (spans: seq<Span>, malformed: bool)
    ensures Scanned(spans, malformed) == Scan(text, 0, maxLen, isspace)
  {
    hide Close, IsEscapedOpener, OpensAfter, IsDelimiter;
    spans, malformed := [], false;
    var index := 0;
    while index < |text|
      invariant index <= |text|
      invariant var later := Scan(text, index, maxLen, isspace);
                Scan(text, 0, maxLen, isspace) == Scanned(spans + later.spans, malformed || later.malformed)
      decreases |text| - index
    {
      var delimiter := text[index];
      if !IsDelimiter(delimiter) {
        index := index + 1;
      } else if IsEscapedOpener(text, index, isspace) {
        malformed := true;
        index := index + 1;
      } else if !OpensAfter(text, index, isspace) {
        index := index + 1;
      } else {
        var closed, cursor, decoded := ScanSpan(text, index + 1, delimiter);
        if !closed {
          malformed := true;
          index := index + 1;
        } else {
          var rawLength := cursor - index - 1;
          ghost var later := Scan(text, cursor + 1, maxLen, isspace);
          if 1 <= rawLength <= maxLen {
            assert spans + ([Span(index, cursor, decoded)] + later.spans) == (spans + [Span(index, cursor, decoded)]) + later.spans;
            spans := spans + [Span(index, cursor, decoded)];
          }
          index := cursor + 1;
        }
      }
    }
    assert spans + [] == spans;
  }

  /** What the inner loop has read from `start` to `cursor`, as part of the whole span. */
  predicate HasRead(text: string, start: nat, cursor: nat, decoded: string, d: char)
    requires start <= cursor <= |text| && IsDelimiter(d)
  {
    match Close(text[cursor..], d)
    case None => Close(text[start..], d) == None
    case Some((k, t)) => Close(text[start..], d) == Some((cursor - start + k, decoded + t))
  }

  lemma ReadsNothing(text: string, start: nat, d: char)
    requires start <= |text| && IsDelimiter(d)
    ensures HasRead(text, start, start, "", d)
  {
    hide Close;
    if Close(text[start..], d).Some? { assert "" + Close(text[start..], d).value.1 == Close(text[start..], d).value.1; }
  }

  lemma ReadsPlain(text: string, start: nat, cursor: nat, decoded: string, d: char)
    requires start <= cursor < |text| && IsDelimiter(d) && HasRead(text, start, cursor, decoded, d)
    requires text[cursor] != '\\' && text[cursor] != d
    ensures HasRead(text, start, cursor + 1, decoded + [text[cursor]], d)
  {
    hide Close;
    var rest := text[cursor..];
    assert rest[1..] == text[cursor + 1..];
    ClosePlain(rest, d);
    if Close(rest[1..], d).Some? { Regroup(decoded, [text[cursor]], Close(rest[1..], d).value.1); }
  }

  /** A run before the end or before another character is literal. */
  lemma ReadsLiteralRun(text: string, start: nat, cursor: nat, decoded: string, d: char, end: nat)
    requires start <= cursor < |text| && IsDelimiter(d) && HasRead(text, start, cursor, decoded, d)
    requires text[cursor] == '\\' && end == cursor + Run(text[cursor..]) && (end == |text| || text[end] != d)
    ensures HasRead(text, start, end, decoded + Slashes(end - cursor), d)
  {
    hide Close, Run, Slashes, IsDelimiter;
    assert text[cursor..][end - cursor..] == text[end..];
    CloseRun(text[cursor..], end - cursor, text[end..], d);
    if Close(text[end..], d).Some? {
      Regroup(decoded, Slashes(end - cursor), Close(text[end..], d).value.1);
    }
  }

  /** Behind an odd run the delimiter is literal, and the last backslash of the run is not. */
  lemma ReadsEscape(text: string, start: nat, cursor: nat, decoded: string, d: char, end: nat)
    requires start <= cursor < |text| && IsDelimiter(d) && HasRead(text, start, cursor, decoded, d)
    requires text[cursor] == '\\' && end == cursor + Run(text[cursor..]) && end < |text| && text[end] == d
    requires (end - cursor) % 2 == 1
    ensures HasRead(text, start, end + 1, decoded + Slashes(end - cursor - 1) + [d], d)
  {
    hide Close, Run, Slashes, IsDelimiter;
    var n := end - cursor;
    assert text[cursor..][n] == d && text[cursor..][n + 1..] == text[end + 1..];
    CloseEscape(text[cursor..], n, d);
    if Close(text[end + 1..], d).Some? {
      Regroup(decoded, Slashes(n - 1) + [d], Close(text[end + 1..], d).value.1);
      Regroup(decoded, Slashes(n - 1), [d]);
    }
  }

  /** An even run leaves the delimiter to close the span. */
  lemma ReadsEvenRun(text: string, start: nat, cursor: nat, decoded: string, d: char, end: nat)
    requires start <= cursor < |text| && IsDelimiter(d) && HasRead(text, start, cursor, decoded, d)
    requires text[cursor] == '\\' && end == cursor + Run(text[cursor..]) && end < |text| && text[end] == d
    requires (end - cursor) % 2 == 0
    ensures HasRead(text, start, end, decoded + Slashes(end - cursor), d)
  {
    hide Close, Run, Slashes, IsDelimiter;
    assert text[cursor..][end - cursor] == d;
    CloseEvenRun(text[cursor..], end - cursor, d);
    CloseAt(text[end..], d);
    assert decoded + Slashes(end - cursor) + "" == decoded + Slashes(end - cursor);
  }

  lemma CloseRun(rest: string, n: nat, tail: string, d: char)
    requires IsDelimiter(d) && rest != "" && rest[0] == '\\' && Run(rest) == n && rest[n..] == tail
    requires tail == "" || tail[0] != d
    ensures Close(rest, d) == match Close(tail, d) case None => None case Some((k, text)) => Some((n + k, Slashes(n) + text))
  {
    hide Run, Slashes;
  }

  lemma CloseEscape(rest: string, n: nat, d: char)
    requires IsDelimiter(d) && rest != "" && rest[0] == '\\' && Run(rest) == n < |rest| && rest[n] == d && n % 2 == 1
    ensures Close(rest, d) == match Close(rest[n + 1..], d)
                              case None => None
                              case Some((k, text)) => Some((n + 1 + k, Slashes(n - 1) + [d] + text))
  {
    hide Run, Slashes;
    assert rest[n..][1..] == rest[n + 1..];
  }

  lemma CloseEvenRun(rest: string, n: nat, d: char)
    requires IsDelimiter(d) && rest != "" && rest[0] == '\\' && Run(rest) == n < |rest| && rest[n] == d && n % 2 == 0
    ensures Close(rest, d) == Some((n, Slashes(n)))
  {
    hide Run, Slashes;
  }

  lemma Regroup(a: string, b: string, c: string)
    ensures a + (b + c) == (a + b) + c
  {
  }

  method ScanRun(text: string, cursor: nat) returns (end: nat)
    requires cursor <= |text|
    ensures end == cursor + Run(text[cursor..])
  {
    end := cursor;
    while end < |text| && text[end] == '\\'
      invariant cursor <= end <= |text| && Run(text[cursor..]) == end - cursor + Run(text[end..])
    {
      assert text[end..][1..] == text[end + 1..];
      end := end + 1;
    }
  }

  lemma RunWithin(rest: string)
    requires rest != "" && rest[0] == '\\'
    ensures 1 <= Run(rest) <= |rest|
  {
  }

  /** The inner loop: from just behind an opener to its closing delimiter. */
  method ScanSpan(text: string, start: nat, delimiter: char) returns (closed: bool, cursor: nat, decoded: string)
    requires start <= |text| && IsDelimiter(delimiter)
    ensures closed <==> Close(text[start..], delimiter).Some?
    ensures closed ==> start <= cursor < |text| && Close(text[start..], delimiter).value == (cursor - start, decoded)
  {
    hide Slashes, Close, HasRead, Run;
    cursor, decoded := start, "";
    ReadsNothing(text, start, delimiter);
    while cursor < |text|
      invariant start <= cursor <= |text|
      invariant HasRead(text, start, cursor, decoded, delimiter)
      decreases |text| - cursor
    {
      var next := text[cursor];
      if next == '\\' {
        var runEnd := ScanRun(text, cursor);
        RunWithin(text[cursor..]);
        var slashes := runEnd - cursor;
        if runEnd < |text| && text[runEnd] == delimiter && slashes % 2 == 1 {
          ReadsEscape(text, start, cursor, decoded, delimiter, runEnd);
          decoded := decoded + Slashes(slashes - 1) + [delimiter];
          cursor := runEnd + 1;
        } else {
          if runEnd < |text| && text[runEnd] == delimiter {
            ReadsEvenRun(text, start, cursor, decoded, delimiter, runEnd);
          } else {
            ReadsLiteralRun(text, start, cursor, decoded, delimiter, runEnd);
          }
          decoded := decoded + Slashes(slashes);
          cursor := runEnd;
        }
      } else if next == delimiter {
        ReadsToClose(text, start, cursor, decoded, delimiter);
        return true, cursor, decoded;
      } else {
        ReadsPlain(text, start, cursor, decoded, delimiter);
        decoded := decoded + [next];
        cursor := cursor + 1;
      }
    }
    ReadsToEnd(text, start, decoded, delimiter);
    closed := false;
  }

  lemma ReadsToClose(text: string, start: nat, cursor: nat, decoded: string, d: char)
    requires start <= cursor < |text| && IsDelimiter(d) && HasRead(text, start, cursor, decoded, d) && text[cursor] == d
    ensures Close(text[start..], d) == Some((cursor - start, decoded))
  {
    CloseAt(text[cursor..], d);
    assert decoded + "" == decoded;
  }

  lemma ReadsToEnd(text: string, start: nat, decoded: string, d: char)
    requires start <= |text| && IsDelimiter(d) && HasRead(text, start, |text|, decoded, d)
    ensures Close(text[start..], d) == None
  {
    assert text[|text|..] == "";
  }

  lemma CloseAt(rest: string, d: char)
    requires IsDelimiter(d) && rest != "" && rest[0] == d
    ensures Close(rest, d) == Some((0, ""))
  {
  }

  // ---------------------------------------------------------------- progress

  /** Spans from `index` on, in increasing and disjoint positions, each between two equal delimiters. */
  predicate InOrder(text: string, index: nat, maxLen: nat, spans: seq<Span>) {
    && (forall i | 0 <= i < |spans| ::
          index <= spans[i].open < spans[i].close < |text| && IsDelimiter(text[spans[i].open])
          && text[spans[i].open] == text[spans[i].close]
          && 1 <= spans[i].close - spans[i].open - 1 <= maxLen)
    && (forall i, j | 0 <= i < j < |spans| :: spans[i].close < spans[j].open)
  }

  lemma InOrderCons(text: string, index: nat, maxLen: nat, first: Span, later: seq<Span>)
    requires index <= first.open < first.close < |text| && IsDelimiter(text[first.open]) && text[first.open] == text[first.close]
    requires 1 <= first.close - first.open - 1 <= maxLen && InOrder(text, first.close + 1, maxLen, later)
    ensures InOrder(text, index, maxLen, [first] + later)
  {
    var all := [first] + later;
    assert forall i | 1 <= i < |all| :: all[i] == later[i - 1];
  }

  lemma InOrderNone(text: string, index: nat, maxLen: nat)
    ensures InOrder(text, index, maxLen, [])
  {
  }

  lemma InOrderLater(text: string, index: nat, later: nat, maxLen: nat, spans: seq<Span>)
    requires index <= later && InOrder(text, later, maxLen, spans)
    ensures InOrder(text, index, maxLen, spans)
  {
  }

  /** On every text the scan's spans are disjoint and in order. */
  lemma {:induction false} SpansAreDisjoint(text: string, index: nat, maxLen: nat, isspace: char -> bool)
    requires index <= |text|
    ensures InOrder(text, index, maxLen, Scan(text, index, maxLen, isspace).spans)
    decreases |text| - index
  {
    hide Close, IsEscapedOpener, OpensAfter, InOrder, IsDelimiter;
    if index == |text| {
      InOrderNone(text, index, maxLen);
    } else {
      SpansAreDisjoint(text, index + 1, maxLen, isspace);
      InOrderLater(text, index, index + 1, maxLen, Scan(text, index + 1, maxLen, isspace).spans);
      var d := text[index];
      if IsDelimiter(d) && !IsEscapedOpener(text, index, isspace) && OpensAfter(text, index, isspace) && Close(text[index + 1..], d).Some? {
        var (k, decoded) := Close(text[index + 1..], d).value;
        assert text[index + 1..][k] == text[index + 1 + k];
        SpansAreDisjoint(text, index + k + 2, maxLen, isspace);
        var later := Scan(text, index + k + 2, maxLen, isspace).spans;
        InOrderLater(text, index, index + k + 2, maxLen, later);
        if 1 <= k <= maxLen { InOrderCons(text, index, maxLen, Span(index, index + 1 + k, decoded), later); }
      }
    }
  }

  // ---------------------------------------------------------------- round trip

  /** Every delimiter inside the span gets one backslash. */
  function Escaped(s: string, d: char): string {
    if s == "" then "" else (if s[0] == d then ['\\', d] else [s[0]]) + Escaped(s[1..], d)
  }

  /** Each run of backslashes that stands before a delimiter or at the end has even length. */
  predicate EvenRuns(s: string, d: char)
    requires IsDelimiter(d)
    decreases |s|
  {
    if s == "" then true
    else
      var n := Run(s);
      var after := s[n..];
      if after == "" then n % 2 == 0
      else (after[0] == d ==> n % 2 == 0) && EvenRuns(after[1..], d)
  }

  lemma {:induction false} RunOfSlashes(n: nat, tail: string)
    requires tail == "" || tail[0] != '\\'
    ensures Run(Slashes(n) + tail) == n && (Slashes(n) + tail)[n..] == tail
  {
    if n == 0 {
      assert Slashes(0) + tail == tail;
    } else {
      assert (Slashes(n) + tail)[1..] == Slashes(n - 1) + tail;
      RunOfSlashes(n - 1, tail);
    }
  }

  /** A span is its leading run of backslashes and the rest. */
  lemma LeadingRun(s: string)
    ensures var n := Run(s); s == Slashes(n) + s[n..]
  {
  }

  lemma {:induction false} EscapedSplit(n: nat, tail: string, d: char)
    requires IsDelimiter(d)
    ensures Escaped(Slashes(n) + tail, d) == Slashes(n) + Escaped(tail, d)
  {
    if n == 0 {
      assert Slashes(0) + tail == tail && Slashes(0) + Escaped(tail, d) == Escaped(tail, d);
    } else {
      assert (Slashes(n) + tail)[1..] == Slashes(n - 1) + tail;
      EscapedSplit(n - 1, tail, d);
      assert ['\\'] + (Slashes(n - 1) + Escaped(tail, d)) == Slashes(n) + Escaped(tail, d);
    }
  }

  /** Behind a run of `n` backslashes and no delimiter, the span goes on. */
  lemma CloseThroughRun(n: nat, tail: string, d: char)
    requires IsDelimiter(d) && tail != "" && tail[0] != '\\' && tail[0] != d
    ensures Close(Slashes(n) + tail, d) ==
            match Close(tail[1..], d)
            case None => None
            case Some((k, text)) => Some((n + 1 + k, Slashes(n) + [tail[0]] + text))
  {
    hide Slashes, Run, Close;
    ClosePlain(tail, d);
    if n == 0 {
      assert Slashes(0) + tail == tail && Slashes(0) + [tail[0]] == [tail[0]];
    } else {
      RunOfSlashes(n, tail);
      assert (Slashes(n) + tail)[0] == '\\';
      CloseRun(Slashes(n) + tail, n, tail, d);
      if Close(tail[1..], d).Some? { Regroup(Slashes(n), [tail[0]], Close(tail[1..], d).value.1); }
    }
  }

  lemma ClosePlain(tail: string, d: char)
    requires IsDelimiter(d) && tail != "" && tail[0] != '\\' && tail[0] != d
    ensures Close(tail, d) ==
            match Close(tail[1..], d) case None => None case Some((k, text)) => Some((k + 1, [tail[0]] + text))
  {
  }

  /** Behind an odd run a delimiter is literal. */
  lemma CloseThroughDelimiter(n: nat, tail: string, d: char)
    requires IsDelimiter(d) && n % 2 == 1
    ensures Close(Slashes(n) + ([d] + tail), d) ==
            match Close(tail, d)
            case None => None
            case Some((k, text)) => Some((n + 1 + k, Slashes(n - 1) + [d] + text))
  {
    RunOfSlashes(n, [d] + tail);
    assert ([d] + tail)[1..] == tail;
  }

  /** Behind an even run it closes the span. */
  lemma CloseAtEvenRun(n: nat, tail: string, d: char)
    requires IsDelimiter(d) && n % 2 == 0
    ensures Close(Slashes(n) + ([d] + tail), d) == Some((n, Slashes(n)))
  {
    RunOfSlashes(n, [d] + tail);
    if n == 0 { assert Slashes(0) + ([d] + tail) == [d] + tail && Slashes(0) == ""; }
  }

  /** What the scanner makes of an escaped span between two delimiters: the span itself when its
      runs are even; otherwise nothing, or something else. */
  predicate Judged(s: string, d: char)
    requires IsDelimiter(d)
  {
    var r := Close(Escaped(s, d) + [d], d);
    && (EvenRuns(s, d) ==> r == Some((|Escaped(s, d)|, s)))
    && (!EvenRuns(s, d) && r.Some? ==> 1 <= r.value.0 <= |Escaped(s, d)| && r.value.1 != s)
  }

  lemma JudgedAtEnd(n: nat, d: char)
    requires IsDelimiter(d)
    ensures Judged(Slashes(n), d)
  {
    hide Close, Slashes, Run, Escaped;
    assert Slashes(n) + "" == Slashes(n);
    EvenRunsSplit(n, "", d);
    EscapedSplit(n, "", d);
    EscapedNothing(d);
    assert Escaped(Slashes(n), d) + [d] == Slashes(n) + ([d] + "");
    if n % 2 == 0 {
      CloseAtEvenRun(n, "", d);
    } else {
      CloseThroughDelimiter(n, "", d);
      CloseNothing(d);
    }
  }

  lemma JudgedPlain(n: nat, c: char, rest: string, d: char)
    requires IsDelimiter(d) && c != d && c != '\\' && Judged(rest, d)
    ensures Judged(Slashes(n) + ([c] + rest), d)
  {
    hide Close, Slashes, Run, Escaped, EvenRuns;
    var s, after, tail := Slashes(n) + ([c] + rest), [c] + rest, Escaped(rest, d) + [d];
    assert after[1..] == rest;
    EvenRunsSplit(n, after, d);
    EscapedSplit(n, after, d);
    EscapedFirst(after, d);
    assert Escaped(s, d) + [d] == Slashes(n) + ([c] + tail);
    assert ([c] + tail)[1..] == tail;
    CloseThroughRun(n, [c] + tail, d);
    assert s == Slashes(n) + [c] + rest;
    if Close(tail, d).Some? { SameTail(Slashes(n) + [c], Close(tail, d).value.1, rest); }
  }

  lemma JudgedDelimiter(n: nat, rest: string, d: char)
    requires IsDelimiter(d) && Judged(rest, d)
    ensures Judged(Slashes(n) + ([d] + rest), d)
  {
    hide Close, Slashes, Run, Escaped, EvenRuns;
    var s, after, tail := Slashes(n) + ([d] + rest), [d] + rest, Escaped(rest, d) + [d];
    assert after[1..] == rest;
    EvenRunsSplit(n, after, d);
    EscapedSplit(n, after, d);
    EscapedFirst(after, d);
    SlashesStep(n);
    assert Escaped(s, d) + [d] == (Slashes(n) + ['\\']) + ([d] + tail);
    if n % 2 == 0 {
      CloseThroughDelimiter(n + 1, tail, d);
      assert s == Slashes(n) + [d] + rest;
      if Close(tail, d).Some? { SameTail(Slashes(n) + [d], Close(tail, d).value.1, rest); }
    } else {
      CloseAtEvenRun(n + 1, tail, d);
      assert Slashes(n + 1)[n] == '\\' && s[n] == d;
    }
  }

  lemma EvenRunsSplit(n: nat, after: string, d: char)
    requires IsDelimiter(d) && (after == "" || after[0] != '\\')
    ensures EvenRuns(Slashes(n) + after, d) <==>
            if after == "" then n % 2 == 0 else (after[0] == d ==> n % 2 == 0) && EvenRuns(after[1..], d)
  {
    RunOfSlashes(n, after);
  }

  lemma {:induction false} CloseEscaped(s: string, d: char)
    requires IsDelimiter(d)
    ensures Judged(s, d)
    decreases |s|
  {
    hide Judged, Slashes;
    var n := Run(s);
    var after := s[n..];
    LeadingRun(s);
    if after == "" {
      assert s == Slashes(n);
      JudgedAtEnd(n, d);
    } else {
      CloseEscaped(after[1..], d);
      assert after == [after[0]] + after[1..];
      if after[0] == d { JudgedDelimiter(n, after[1..], d); } else { JudgedPlain(n, after[0], after[1..], d); }
    }
  }

  lemma SameTail(head: string, a: string, b: string)
    ensures head + a == head + b <==> a == b
  {
    if head + a == head + b {
      assert a == (head + a)[|head|..];
      assert b == (head + b)[|head|..];
    }
  }

  lemma SlashesStep(n: nat)
    ensures Slashes(n) + ['\\'] == Slashes(n + 1)
  {
  }

  lemma EscapedNothing(d: char)
    ensures Escaped("", d) == ""
  {
  }

  lemma EscapedFirst(s: string, d: char)
    requires s != ""
    ensures Escaped(s, d) == (if s[0] == d then ['\\', d] else [s[0]]) + Escaped(s[1..], d)
  {
  }

  lemma CloseNothing(d: char)
    requires IsDelimiter(d)
    ensures Close("", d) == None
  {
  }

  /** Scanning delimiter, escaped span, delimiter gives back exactly that span with nothing malformed,
      precisely when the span's runs are even. */
  lemma QuoteRoundTripIff(s: string, d: char, maxLen: nat, isspace: char -> bool)
    requires IsDelimiter(d) && s != "" && |Escaped(s, d)| <= maxLen
    ensures var text := [d] + Escaped(s, d) + [d];
            Scan(text, 0, maxLen, isspace) == Scanned([Span(0, |text| - 1, s)], false) <==> EvenRuns(s, d)
  {
    hide Close, Escaped, EvenRuns;
    var text := [d] + Escaped(s, d) + [d];
    assert text[1..] == Escaped(s, d) + [d];
    CloseEscaped(s, d);
    EscapedFirst(s, d);
    if Close(text[1..], d).Some? {
      var (k, decoded) := Close(text[1..], d).value;
      var later := Scan(text, k + 2, maxLen, isspace);
      assert Scan(text, 0, maxLen, isspace).spans == [Span(0, 1 + k, decoded)] + later.spans;
      if EvenRuns(s, d) { assert k + 2 == |text|; }
      assert Scan(text, 0, maxLen, isspace).spans[0].text == decoded;
    }
  }
}
