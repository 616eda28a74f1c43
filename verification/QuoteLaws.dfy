/** What the scanner of quoted evidence finds, told on the characters of the text. */
module QuoteLaws {
  import opened Outcomes
  import opened QuoteScanner

  // ---------------------------------------------------------------- closing a span

  /** Escaped: directly behind a backslash that is not escaped itself. */
  predicate IsEscaped(s: string, at: nat)
    requires at <= |s|
  {
    at > 0 && s[at - 1] == '\\' && !IsEscaped(s, at - 1)
  }

  /** The text between the delimiters: a backslash directly before a delimiter is dropped, all else stays. */
  function Decoded(s: string, d: char): string {
    if s == "" then ""
    else if s[0] == '\\' && |s| > 1 && s[1] == d then Decoded(s[1..], d)
    else [s[0]] + Decoded(s[1..], d)
  }

  /** The first delimiter that is not escaped is at `k`. */
  predicate FirstFree(s: string, k: nat, d: char) {
    k < |s| && s[k] == d && !IsEscaped(s, k) && forall j | 0 <= j < k && s[j] == d :: IsEscaped(s, j)
  }

  predicate NoneFree(s: string, d: char) { forall j | 0 <= j < |s| && s[j] == d :: IsEscaped(s, j) }

  /** Escapes behind a run of backslashes and one more character are those of what follows. */
  lemma {:induction false} EscapedShift(head: string, s: string, at: nat)
    requires at <= |s| && (head == "" || head[|head| - 1] != '\\')
    ensures IsEscaped(head + s, |head| + at) <==> IsEscaped(s, at)
  {
    if at > 0 { EscapedShift(head, s, at - 1); }
  }

  lemma {:induction false} EscapedInRun(s: string, n: nat, at: nat)
    requires at <= n <= |s| && forall i | 0 <= i < n :: s[i] == '\\'
    ensures IsEscaped(s, at) <==> at % 2 == 1
  {
    if at > 0 { EscapedInRun(s, n, at - 1); }
  }

  lemma {:induction false} DecodedSlashes(n: nat, tail: string, d: char)
    requires IsDelimiter(d) && (tail == "" || tail[0] != d)
    ensures Decoded(Slashes(n) + tail, d) == Slashes(n) + Decoded(tail, d)
  {
    if n == 0 {
      assert Slashes(0) + tail == tail && Slashes(0) + Decoded(tail, d) == Decoded(tail, d);
    } else {
      assert (Slashes(n) + tail)[1..] == Slashes(n - 1) + tail;
      DecodedSlashes(n - 1, tail, d);
      assert ['\\'] + (Slashes(n - 1) + Decoded(tail, d)) == Slashes(n) + Decoded(tail, d);
    }
  }

  lemma {:induction false} DecodedEscape(n: nat, tail: string, d: char)
    requires IsDelimiter(d) && n > 0
    ensures Decoded(Slashes(n) + ([d] + tail), d) == Slashes(n - 1) + [d] + Decoded(tail, d)
  {
    var s := Slashes(n) + ([d] + tail);
    assert s[1..] == Slashes(n - 1) + ([d] + tail);
    if n == 1 {
      assert s[1..] == [d] + tail && ([d] + tail)[1..] == tail;
      assert Slashes(0) + [d] + Decoded(tail, d) == [d] + Decoded(tail, d);
    } else {
      DecodedEscape(n - 1, tail, d);
      assert ['\\'] + (Slashes(n - 2) + [d] + Decoded(tail, d)) == Slashes(n - 1) + [d] + Decoded(tail, d);
    }
  }

  /** The scan of one span ends at the first delimiter that is not escaped, and its text is what stands
      before it with the escapes of delimiters removed; there is no end when all are escaped. */
  ghost predicate ClosesRightly(s: string, d: char)
    requires IsDelimiter(d)
  {
    match Close(s, d)
    case None => NoneFree(s, d)
    case Some((k, text)) => FirstFree(s, k, d) && text == Decoded(s[..k], d)
  }

  /** Behind `head`, in which every delimiter is escaped, the scan goes on with what follows it. */
  lemma Behind(head: string, s: string, d: char, decoded: string)
    requires IsDelimiter(d) && head != "" && ClosesRightly(s, d) && head[|head| - 1] != '\\'
    requires forall j | 0 <= j < |head| && head[j] == d :: IsEscaped(head + s, j)
    requires forall k | 0 <= k <= |s| :: Decoded(head + s[..k], d) == decoded + Decoded(s[..k], d)
    requires Close(head + s, d) ==
             match Close(s, d) case None => None case Some((k, text)) => Some((|head| + k, decoded + text))
    ensures ClosesRightly(head + s, d)
  {
    hide Close, Decoded, IsEscaped;
    var all := head + s;
    forall j | |head| <= j < |all| && all[j] == d ensures IsEscaped(all, j) <==> IsEscaped(s, j - |head|) {
      EscapedShift(head, s, j - |head|);
    }
    if Close(s, d).Some? {
      var k := Close(s, d).value.0;
      EscapedShift(head, s, k);
      assert all[..|head| + k] == head + s[..k];
    }
  }

  lemma {:induction false} ClosesAtFirstFree(s: string, d: char)
    requires IsDelimiter(d)
    ensures ClosesRightly(s, d)
    decreases |s|
  {
    hide Close, Decoded, IsEscaped, Slashes, Run, ClosesRightly;
    if s == "" {
      NothingCloses(d);
    } else if s[0] == '\\' {
      RunWithin(s);
      var n := Run(s);
      var after := s[n..];
      LeadingRun(s);
      if after == "" {
        RunToEnd(s, d);
      } else if after[0] != d {
        var head, rest := s[..n + 1], s[n + 1..];
        ClosesAtFirstFree(rest, d);
        assert head == Slashes(n) + [after[0]] && s == head + rest && after == [after[0]] + rest;
        BehindPlain(n, after[0], rest, d);
        assert Slashes(n) + [after[0]] + rest == s;
      } else if n % 2 == 1 {
        var rest := s[n + 1..];
        ClosesAtFirstFree(rest, d);
        BehindEscape(n, rest, d);
        assert Slashes(n) + [d] + rest == s;
      } else {
        RunThenFree(s, n, d);
      }
    } else if s[0] == d {
      FreeAtOnce(s, d);
    } else {
      ClosesAtFirstFree(s[1..], d);
      assert Slashes(0) == "";
      BehindPlain(0, s[0], s[1..], d);
      assert Slashes(0) + [s[0]] + s[1..] == s;
    }
  }

  lemma NothingCloses(d: char)
    requires IsDelimiter(d)
    ensures ClosesRightly("", d)
  {
  }

  lemma FreeAtOnce(s: string, d: char)
    requires IsDelimiter(d) && s != "" && s[0] == d
    ensures ClosesRightly(s, d)
  {
    assert s[..0] == "";
  }

  lemma RunToEnd(s: string, d: char)
    requires IsDelimiter(d) && s != "" && s[0] == '\\' && s[Run(s)..] == ""
    ensures ClosesRightly(s, d)
  {
    hide Slashes;
  }

  lemma RunThenFree(s: string, n: nat, d: char)
    requires IsDelimiter(d) && s != "" && s[0] == '\\' && n == Run(s) < |s| && s[n] == d && n % 2 == 0
    ensures ClosesRightly(s, d)
  {
    hide Close, Decoded, Run, IsEscaped;
    CloseEvenRun(s, n, d);
    EscapedInRun(s, n, n);
    DecodedSlashes(n, "", d);
    NothingDecoded(d);
    assert s[..n] == Slashes(n) + "" == Slashes(n) && Slashes(n) + "" == Slashes(n);
  }

  lemma NothingDecoded(d: char)
    ensures Decoded("", d) == ""
  {
  }

  lemma DecodedPlain(c: char, rest: string, d: char)
    requires c != '\\'
    ensures Decoded([c] + rest, d) == [c] + Decoded(rest, d)
  {
  }

  lemma BehindPlain(n: nat, c: char, rest: string, d: char)
    requires IsDelimiter(d) && c != d && c != '\\' && ClosesRightly(rest, d)
    ensures ClosesRightly(Slashes(n) + [c] + rest, d)
  {
    hide Close, Decoded, Run, IsEscaped, Slashes, ClosesRightly;
    var head, decoded := Slashes(n) + [c], Slashes(n) + [c];
    var all := head + rest;
    assert all == Slashes(n) + ([c] + rest) && ([c] + rest)[1..] == rest;
    CloseThroughRun(n, [c] + rest, d);
    forall k | 0 <= k <= |rest| ensures Decoded(head + rest[..k], d) == decoded + Decoded(rest[..k], d) {
      assert head + rest[..k] == Slashes(n) + ([c] + rest[..k]);
      DecodedSlashes(n, [c] + rest[..k], d);
      DecodedPlain(c, rest[..k], d);
      Regroup(Slashes(n), [c], Decoded(rest[..k], d));
    }
    Behind(head, rest, d, decoded);
  }

  lemma BehindEscape(n: nat, rest: string, d: char)
    requires IsDelimiter(d) && n % 2 == 1 && ClosesRightly(rest, d)
    ensures ClosesRightly(Slashes(n) + [d] + rest, d)
  {
    hide Close, Decoded, Run, IsEscaped, Slashes, ClosesRightly;
    var head, decoded := Slashes(n) + [d], Slashes(n - 1) + [d];
    var all := head + rest;
    assert all == Slashes(n) + ([d] + rest);
    CloseThroughDelimiter(n, rest, d);
    EscapedInRun(all, n, n);
    forall k | 0 <= k <= |rest| ensures Decoded(head + rest[..k], d) == decoded + Decoded(rest[..k], d) {
      assert head + rest[..k] == Slashes(n) + ([d] + rest[..k]);
      DecodedEscape(n, rest[..k], d);
    }
    Behind(head, rest, d, decoded);
  }

  // ---------------------------------------------------------------- openers

  /** What stands before `at` lets a quotation begin there: nothing, whitespace or one of seven characters. */
  predicate MayOpenAt(text: string, at: nat, isspace: char -> bool)
    requires at <= |text|
  {
    || at == 0 || isspace(text[at - 1])
    || text[at - 1] == ':' || text[at - 1] == '(' || text[at - 1] == '[' || text[at - 1] == '{'
    || text[at - 1] == '=' || text[at - 1] == ',' || text[at - 1] == '`'
  }

  predicate IsQuote(text: string, at: nat)
    requires at < |text|
  {
    text[at] == '\'' || text[at] == '"'
  }

  /** From `m` to `at` there are only backslashes, at least one, and no more before `m`. */
  predicate WholeRun(text: string, m: nat, at: nat)
    requires at <= |text|
  {
    m < at && (forall i | m <= i < at :: text[i] == '\\') && (m > 0 ==> text[m - 1] != '\\')
  }

  /** A delimiter behind a run of backslashes that stands where a quotation could begin. */
  predicate EscapedOpening(text: string, at: nat, isspace: char -> bool)
    requires at < |text|
  {
    IsQuote(text, at) && exists m: nat | m < at :: WholeRun(text, m, at) && MayOpenAt(text, m, isspace)
  }

  predicate Opening(text: string, at: nat, isspace: char -> bool)
    requires at < |text|
  {
    IsQuote(text, at) && MayOpenAt(text, at, isspace) && !EscapedOpening(text, at, isspace)
  }

  lemma OpensAfterIff(text: string, at: nat, isspace: char -> bool)
    requires at <= |text|
    ensures OpensAfter(text, at, isspace) <==> MayOpenAt(text, at, isspace)
  {
  }

  lemma EscapedOpenerIff(text: string, at: nat, isspace: char -> bool)
    requires at < |text| && IsQuote(text, at)
    ensures IsEscapedOpener(text, at, isspace) <==> EscapedOpening(text, at, isspace)
  {
    hide OpensAfter, MayOpenAt;
    var start := RunBefore(text, at);
    OpensAfterIff(text, start, isspace);
    if start < at { assert WholeRun(text, start, at); }
    if EscapedOpening(text, at, isspace) {
      var m: nat :| m < at && WholeRun(text, m, at) && MayOpenAt(text, m, isspace);
      assert start <= m < at;
      assert start < m ==> text[m - 1] == '\\';
    }
  }

  // ---------------------------------------------------------------- the whole text

  /** A quotation of the text: where it opens and where it closes. */
  datatype Quotation = Quotation(open: nat, close: nat)

  /** Behind the opening delimiter, the first one of its kind that is not escaped. */
  predicate Closing(text: string, open: nat, close: nat) {
    open < close < |text| && FirstFree(text[open + 1..], close - open - 1, text[open])
  }

  predicate Unclosed(text: string, open: nat)
    requires open < |text|
  {
    NoneFree(text[open + 1..], text[open])
  }

  predicate Inside(q: Quotation, at: nat) { q.open <= at <= q.close }

  predicate Outside(qs: seq<Quotation>, at: nat) { forall q <- qs :: !Inside(q, at) }

  /** The quotations of the text from `from` on: apart and in order, each opened and closed, and no
      opening outside them that could be closed. */
  predicate Quoted(text: string, from: nat, qs: seq<Quotation>, isspace: char -> bool) {
    && (forall q <- qs :: from <= q.open && Closing(text, q.open, q.close) && Opening(text, q.open, isspace))
    && (forall i, j | 0 <= i < j < |qs| :: qs[i].close < qs[j].open)
    && (forall at | from <= at < |text| && Outside(qs, at) && Opening(text, at, isspace) :: Unclosed(text, at))
  }

  /** A delimiter outside the quotations that is out of order: one that opens and is never closed, or
      one that would open but for the backslashes before it. */
  predicate Wrong(text: string, from: nat, qs: seq<Quotation>, isspace: char -> bool) {
    exists at | from <= at < |text| ::
      Outside(qs, at) && (EscapedOpening(text, at, isspace) || (Opening(text, at, isspace) && Unclosed(text, at)))
  }

  /** The spans kept of them: those that are not empty and within the length bound, decoded. */
  function Kept(text: string, qs: seq<Quotation>, maxLen: nat): seq<Span>
    requires forall q <- qs :: q.open < q.close < |text|
  {
    if qs == [] then []
    else
      var q := qs[0];
      (if 1 <= q.close - q.open - 1 <= maxLen
       then [Span(q.open, q.close, Decoded(text[q.open + 1..q.close], text[q.open]))] else [])
      + Kept(text, qs[1..], maxLen)
  }

  /** What the scan returns: the kept spans of the quotations, and whether a delimiter is out of order. */
  predicate Tells(text: string, from: nat, maxLen: nat, isspace: char -> bool, qs: seq<Quotation>, r: Scanned) {
    Quoted(text, from, qs, isspace) && r.spans == Kept(text, qs, maxLen) && (r.malformed <==> Wrong(text, from, qs, isspace))
  }

  /** One character that opens nothing and is not out of order. */
  lemma Skip(text: string, from: nat, maxLen: nat, isspace: char -> bool, qs: seq<Quotation>, r: Scanned)
    requires from < |text| && Tells(text, from + 1, maxLen, isspace, qs, r)
    requires Opening(text, from, isspace) ==> Unclosed(text, from)
    ensures var wrong := EscapedOpening(text, from, isspace) || Opening(text, from, isspace);
            Tells(text, from, maxLen, isspace, qs, if wrong then r.(malformed := true) else r)
  {
    hide Opening, EscapedOpening, Unclosed, Closing, Kept;
    assert Outside(qs, from);
  }

  lemma OutsideOf(q: Quotation, qs: seq<Quotation>, at: nat)
    ensures Outside([q] + qs, at) <==> !Inside(q, at) && Outside(qs, at)
  {
    var all := [q] + qs;
    assert all[0] == q && all[1..] == qs;
    assert Outside(all, at) ==> !Inside(all[0], at);
    assert forall p | p in all :: p == q || p in qs;
    assert forall p | p in qs :: p in all;
  }

  lemma TakeQuoted(text: string, from: nat, close: nat, isspace: char -> bool, qs: seq<Quotation>)
    requires from < |text| && Closing(text, from, close) && Opening(text, from, isspace)
    requires Quoted(text, close + 1, qs, isspace)
    ensures Quoted(text, from, [Quotation(from, close)] + qs, isspace)
  {
    hide Opening, Unclosed, FirstFree, Outside;
    var q := Quotation(from, close);
    var all := [q] + qs;
    forall at | from <= at < |text| && Outside(all, at) && Opening(text, at, isspace) ensures Unclosed(text, at) {
      OutsideOf(q, qs, at);
    }
  }

  lemma TakeWrong(text: string, from: nat, close: nat, isspace: char -> bool, qs: seq<Quotation>)
    requires from < |text| && Closing(text, from, close) && Quoted(text, close + 1, qs, isspace)
    ensures Wrong(text, from, [Quotation(from, close)] + qs, isspace) <==> Wrong(text, close + 1, qs, isspace)
  {
    hide Opening, Unclosed, FirstFree, Outside, EscapedOpening;
    var q := Quotation(from, close);
    var all := [q] + qs;
    if Wrong(text, from, all, isspace) {
      var at :| from <= at < |text| && Outside(all, at)
                && (EscapedOpening(text, at, isspace) || (Opening(text, at, isspace) && Unclosed(text, at)));
      OutsideOf(q, qs, at);
      assert at > close;
    }
    if Wrong(text, close + 1, qs, isspace) {
      var at :| close + 1 <= at < |text| && Outside(qs, at)
                && (EscapedOpening(text, at, isspace) || (Opening(text, at, isspace) && Unclosed(text, at)));
      OutsideOf(q, qs, at);
      assert Outside(all, at);
    }
  }

  lemma Take(text: string, from: nat, close: nat, maxLen: nat, isspace: char -> bool, qs: seq<Quotation>, r: Scanned)
    requires from < |text| && Closing(text, from, close) && Opening(text, from, isspace)
    requires Tells(text, close + 1, maxLen, isspace, qs, r)
    ensures var span := Span(from, close, Decoded(text[from + 1..close], text[from]));
            Tells(text, from, maxLen, isspace, [Quotation(from, close)] + qs,
                  if 1 <= close - from - 1 <= maxLen then r.(spans := [span] + r.spans) else r)
  {
    hide Opening, Quoted, Wrong, Unclosed, Decoded, FirstFree;
    var q := Quotation(from, close);
    TakeQuoted(text, from, close, isspace, qs);
    TakeWrong(text, from, close, isspace, qs);
    assert ([q] + qs)[1..] == qs && [] + r.spans == r.spans;
  }

  /** The scan finds exactly the quotations of the text: each opened where a quotation may begin and closed
      at the first delimiter of its kind that is not escaped, with nothing outside them that could be one. */
  lemma {:induction false} ScanTells(text: string, from: nat, maxLen: nat, isspace: char -> bool) returns (qs: seq<Quotation>)
    requires from <= |text|
    ensures Tells(text, from, maxLen, isspace, qs, Scan(text, from, maxLen, isspace))
    decreases |text| - from
  {
    hide Close, IsEscapedOpener, OpensAfter, Tells, EscapedOpening, FirstFree, Decoded, MayOpenAt, NoneFree;
    if from == |text| {
      qs := [];
      NothingTold(text, maxLen, isspace);
    } else {
      var d := text[from];
      if !IsDelimiter(d) || IsEscapedOpener(text, from, isspace) || !OpensAfter(text, from, isspace) {
        qs := ScanTells(text, from + 1, maxLen, isspace);
        if IsDelimiter(d) {
          EscapedOpenerIff(text, from, isspace);
          OpensAfterIff(text, from, isspace);
        } else {
          NoQuote(text, from, isspace);
        }
        Skip(text, from, maxLen, isspace, qs, Scan(text, from + 1, maxLen, isspace));
      } else {
        EscapedOpenerIff(text, from, isspace);
        OpensAfterIff(text, from, isspace);
        ClosesAtFirstFree(text[from + 1..], d);
        if Close(text[from + 1..], d).None? {
          qs := ScanTells(text, from + 1, maxLen, isspace);
          Skip(text, from, maxLen, isspace, qs, Scan(text, from + 1, maxLen, isspace));
        } else {
          var k := Close(text[from + 1..], d).value.0;
          var later := ScanTells(text, from + k + 2, maxLen, isspace);
          assert text[from + 1..][..k] == text[from + 1..from + 1 + k];
          Take(text, from, from + 1 + k, maxLen, isspace, later, Scan(text, from + k + 2, maxLen, isspace));
          qs := [Quotation(from, from + 1 + k)] + later;
        }
      }
    }
  }

  lemma NoQuote(text: string, at: nat, isspace: char -> bool)
    requires at < |text| && !IsDelimiter(text[at])
    ensures !EscapedOpening(text, at, isspace) && !Opening(text, at, isspace)
  {
    hide MayOpenAt, WholeRun;
  }

  lemma NothingTold(text: string, maxLen: nat, isspace: char -> bool)
    ensures Tells(text, |text|, maxLen, isspace, [], Scanned([], false))
  {
  }

  /** And there is only one way to find them. */
  lemma {:induction false} QuotedUnique(text: string, from: nat, a: seq<Quotation>, b: seq<Quotation>, isspace: char -> bool)
    requires Quoted(text, from, a, isspace) && Quoted(text, from, b, isspace)
    ensures a == b
    decreases |a| + |b|
  {
    hide Opening, Unclosed, Closing;
    if a != [] && b != [] {
      SameFirst(text, from, a, b, isspace);
      LaterQuoted(text, from, a, isspace);
      LaterQuoted(text, from, b, isspace);
      QuotedUnique(text, a[0].close + 1, a[1..], b[1..], isspace);
      assert a == [a[0]] + a[1..] && b == [b[0]] + b[1..];
    } else if a != [] {
      NotBefore(text, from, a, b, isspace);
    } else if b != [] {
      NotBefore(text, from, b, a, isspace);
    }
  }

  lemma LaterQuoted(text: string, from: nat, qs: seq<Quotation>, isspace: char -> bool)
    requires qs != [] && Quoted(text, from, qs, isspace)
    ensures Quoted(text, qs[0].close + 1, qs[1..], isspace)
  {
    hide Opening, Unclosed;
    var first, rest := qs[0], qs[1..];
    assert qs == [first] + rest;
    forall q <- rest ensures first.close < q.open {
      var i :| 0 <= i < |rest| && rest[i] == q;
      assert rest[i] == qs[i + 1];
    }
    assert forall at | at > first.close :: Outside(qs, at) <==> Outside(rest, at);
    assert Closing(text, first.open, first.close);
  }

  /** The first quotation of one list is not before everything in the other. */
  lemma NotBefore(text: string, from: nat, a: seq<Quotation>, b: seq<Quotation>, isspace: char -> bool)
    requires a != [] && Quoted(text, from, a, isspace) && Quoted(text, from, b, isspace)
    ensures b != [] && b[0].open <= a[0].open
  {
    hide Opening;
    var q := a[0];
    assert q in a;
    assert Closing(text, q.open, q.close);
    assert !Unclosed(text, q.open);
    assert b == [] || b[0].open > q.open ==> Outside(b, q.open);
  }

  lemma SameFirst(text: string, from: nat, a: seq<Quotation>, b: seq<Quotation>, isspace: char -> bool)
    requires a != [] && b != [] && Quoted(text, from, a, isspace) && Quoted(text, from, b, isspace)
    ensures a[0] == b[0]
  {
    hide Opening, IsEscaped;
    NotBefore(text, from, a, b, isspace);
    NotBefore(text, from, b, a, isspace);
    assert a[0] in a && b[0] in b;
    assert Closing(text, a[0].open, a[0].close) && Closing(text, b[0].open, b[0].close);
  }

  /** What the scan returns is told by any list of quotations that the text has: there is one, and it
      gives the spans and the flag. */
  lemma ScanIff(text: string, qs: seq<Quotation>, maxLen: nat, isspace: char -> bool)
    requires Quoted(text, 0, qs, isspace)
    ensures Scan(text, 0, maxLen, isspace) == Scanned(Kept(text, qs, maxLen), Wrong(text, 0, qs, isspace))
  {
    hide Scan, Quoted, Wrong;
    var found := ScanTells(text, 0, maxLen, isspace);
    QuotedUnique(text, 0, found, qs, isspace);
  }
}
