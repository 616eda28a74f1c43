/** Binary searches for the longest text that still fits after encoding. */
module Truncation {
  import opened Outcomes
  import opened Json
  import opened JsonSize
  import opened Schema
  import opened SchemaBound
  import Decimal
  import Utf8

  // ---------------------------------------------------------------- marked truncation

  function Marker(retained: nat, total: nat): string {
    "\n[candidate truncated: retained " + Decimal.Text(retained) + " of " + Decimal.Text(total) + " bytes]"
  }

  /** `bounded_candidate_text` */
  function BoundedText(text: string, maxRawBytes: nat): string {
    if Utf8.Length(text) <= maxRawBytes then text
    else Utf8.Cut(text, maxRawBytes) + Marker(Utf8.Length(Utf8.Cut(text, maxRawBytes)), Utf8.Length(text))
  }

  /** Cutting the text is what the program does on bytes: slice, then decode what is whole. */
  lemma BoundedTextOnBytes(text: string, maxRawBytes: nat)
    requires Utf8.Length(text) > maxRawBytes
    ensures var raw := Utf8.Encode(text); var retained := Utf8.DecodeCut(raw[..maxRawBytes]);
            BoundedText(text, maxRawBytes) == retained + Marker(|Utf8.Encode(retained)|, |raw|)
  {
    Utf8.DecodeCutIsCut(text, maxRawBytes);
  }

  /** A prompt that carries the candidate between fixed texts. */
  datatype Prompt = Prompt(before: string, after: string)

  /** `claude_action_packed_prompt_bytes(render_prompt(candidate))` */
  function PackedBytes(p: Prompt, candidate: string): nat {
    Size(Str(p.before + candidate + p.after))
  }

  predicate Fits(p: Prompt, text: string, retained: nat, maxPacked: nat) {
    PackedBytes(p, BoundedText(text, retained)) <= maxPacked
  }

  lemma PackedBytesAre(p: Prompt, candidate: string)
    ensures PackedBytes(p, candidate) == 2 + EscapedSize(p.before) + EscapedSize(candidate) + EscapedSize(p.after)
  {
    SizeOfString(p.before + candidate + p.after);
    EscapedAppend(p.before + candidate, p.after);
    EscapedAppend(p.before, candidate);
  }

  lemma {:induction false} EscapedPrefix(a: string, b: string)
    requires a <= b
    ensures EscapedSize(a) <= EscapedSize(b)
  {
    assert b == a + b[|a|..];
    EscapedAppend(a, b[|a|..]);
  }

  lemma DigitsArePlain(n: nat)
    ensures EscapedSize(Decimal.Text(n)) == |Decimal.Text(n)|
  {
    var s := Decimal.Digits(n);
    assert forall i | 0 <= i < |s| :: Decimal.IsDigit(s[i]) && IsPlain(s[i]);
    EscapedSizeBound(Decimal.Text(n));
  }

  /** A marker that reports more retained bytes is at least as long. */
  lemma MarkerMonotone(m: nat, n: nat, total: nat)
    requires m <= n
    ensures EscapedSize(Marker(m, total)) <= EscapedSize(Marker(n, total))
  {
    hide EscapedSize;
    var head, mid, tail := "\n[candidate truncated: retained ", " of ", " bytes]";
    MarkerParts(head, m, mid, total, tail);
    MarkerParts(head, n, mid, total, tail);
    DigitsArePlain(m);
    DigitsArePlain(n);
    Decimal.DigitsMonotone(m, n);
  }

  lemma MarkerParts(head: string, n: nat, mid: string, total: nat, tail: string)
    ensures EscapedSize(head + Decimal.Text(n) + mid + Decimal.Text(total) + tail)
            == EscapedSize(head) + EscapedSize(Decimal.Text(n)) + EscapedSize(mid) + EscapedSize(Decimal.Text(total)) + EscapedSize(tail)
  {
    hide EscapedSize;
    EscapedAppend(head + Decimal.Text(n) + mid + Decimal.Text(total), tail);
    EscapedAppend(head + Decimal.Text(n) + mid, Decimal.Text(total));
    EscapedAppend(head + Decimal.Text(n), mid);
    EscapedAppend(head, Decimal.Text(n));
  }

  /** Retaining less never makes the packed prompt longer, below the whole text. */
  lemma FitsMonotone(p: Prompt, text: string, m: nat, n: nat, maxPacked: nat)
    requires m <= n < Utf8.Length(text) && Fits(p, text, n, maxPacked)
    ensures Fits(p, text, m, maxPacked)
  {
    hide EscapedSize, PackedBytes, Marker, Utf8.Cut;
    var short, long := Utf8.Cut(text, m), Utf8.Cut(text, n);
    var total := Utf8.Length(text);
    Utf8.CutMonotone(text, m, n);
    EscapedPrefix(short, long);
    LengthPrefix(short, long);
    MarkerMonotone(Utf8.Length(short), Utf8.Length(long), total);
    EscapedAppend(short, Marker(Utf8.Length(short), total));
    EscapedAppend(long, Marker(Utf8.Length(long), total));
    PackedBytesAre(p, BoundedText(text, m));
    PackedBytesAre(p, BoundedText(text, n));
  }

  lemma LengthPrefix(a: string, b: string)
    requires a <= b
    ensures Utf8.Length(a) <= Utf8.Length(b)
  {
    assert b == a + b[|a|..];
    Utf8.LengthAppend(a, b[|a|..]);
  }

  /** The largest retention the search considers. */
  function SearchHigh(text: string, maxRawBytes: nat): nat {
    var most := if Utf8.Length(text) == 0 then 0 else Utf8.Length(text) - 1;
    if maxRawBytes <= most then maxRawBytes else most
  }

  lemma SearchHighIff(text: string, maxRawBytes: nat, n: nat)
    ensures n <= SearchHigh(text, maxRawBytes) <==> n <= maxRawBytes && (n == 0 || n < Utf8.Length(text))
  {
  }

  /** What a bounded text is: the whole text when it is within the bound, or else its longest beginning that is,
      followed by a marker that counts the bytes of both. */
  lemma BoundedTextTells(text: string, maxRawBytes: nat) returns (k: nat)
    ensures k <= |text|
    ensures BoundedText(text, maxRawBytes) ==
            if Utf8.Length(text) <= maxRawBytes then text
            else text[..k] + "\n[candidate truncated: retained " + Decimal.Digits(Utf8.Length(text[..k])) + " of "
                 + Decimal.Digits(Utf8.Length(text)) + " bytes]"
    ensures Utf8.Length(text[..k]) <= maxRawBytes && forall j | k < j <= |text| :: Utf8.Length(text[..j]) > maxRawBytes
  {
    hide Utf8.Length, Utf8.Cut, Decimal.Digits;
    var cut := Utf8.Cut(text, maxRawBytes);
    Utf8.CutIsPrefix(text, maxRawBytes);
    k := |cut|;
    assert text[..k] == cut;
    forall j | k < j <= |text| ensures Utf8.Length(text[..j]) > maxRawBytes {
      if Utf8.Length(text[..j]) <= maxRawBytes { Utf8.CutIsLongest(text, maxRawBytes, j); }
    }
    MarkedText(text[..k], Utf8.Length(text[..k]), Utf8.Length(text));
  }

  lemma MarkedText(text: string, retained: nat, total: nat)
    ensures text + Marker(retained, total) ==
            text + "\n[candidate truncated: retained " + Decimal.Digits(retained) + " of " + Decimal.Digits(total) + " bytes]"
  {
    hide Decimal.Digits;
  }

  lemma FitsDownward(p: Prompt, text: string, n: nat, maxRawBytes: nat, maxPacked: nat)
    requires n <= SearchHigh(text, maxRawBytes) && Fits(p, text, n, maxPacked)
    ensures forall m: nat | m <= n :: Fits(p, text, m, maxPacked)
  {
    hide Fits;
    if Utf8.Length(text) > 0 {
      forall m: nat | m <= n ensures Fits(p, text, m, maxPacked) { FitsMonotone(p, text, m, n, maxPacked); }
    }
  }

  lemma NoFitUpward(p: Prompt, text: string, n: nat, maxRawBytes: nat, maxPacked: nat)
    requires n <= SearchHigh(text, maxRawBytes) && !Fits(p, text, n, maxPacked)
    ensures forall m: nat | n <= m <= SearchHigh(text, maxRawBytes) :: !Fits(p, text, m, maxPacked)
  {
    hide Fits;
    forall m: nat | n <= m <= SearchHigh(text, maxRawBytes) ensures !Fits(p, text, m, maxPacked) {
      if Fits(p, text, m, maxPacked) { FitsDownward(p, text, m, maxRawBytes, maxPacked); }
    }
  }

  /** `bounded_candidate_for_packed_prompt`: the whole candidate when it fits, else the longest
      retention that fits; an error only when retaining nothing does not fit either. */
  method BoundedCandidate(text: string, maxRawBytes: nat, maxPacked: nat, p: Prompt) returns (bounded: Option<string>, ghost retained: nat)
    ensures Fits(p, text, maxRawBytes, maxPacked) ==> bounded == Some(BoundedText(text, maxRawBytes))
    ensures !Fits(p, text, maxRawBytes, maxPacked) && bounded.Some? ==>
              && retained <= SearchHigh(text, maxRawBytes) && bounded == Some(BoundedText(text, retained))
              && Fits(p, text, retained, maxPacked)
              && forall m: nat | retained < m <= SearchHigh(text, maxRawBytes) :: !Fits(p, text, m, maxPacked)
    ensures bounded == None <==> !Fits(p, text, maxRawBytes, maxPacked) && !Fits(p, text, 0, maxPacked)
  {
    hide Fits, BoundedText, SearchHigh;
    retained := 0;
    if Fits(p, text, maxRawBytes, maxPacked) {
      return Some(BoundedText(text, maxRawBytes)), retained;
    }
    var low, high := 0, SearchHigh(text, maxRawBytes) as int;
    bounded := None;
    while low <= high
      invariant 0 <= low && -1 <= high <= SearchHigh(text, maxRawBytes)
      invariant low <= high + 1
      invariant forall m: nat | high < m <= SearchHigh(text, maxRawBytes) :: !Fits(p, text, m, maxPacked)
      invariant bounded == None <==> low == 0
      invariant low > 0 ==> bounded == Some(BoundedText(text, low - 1)) && Fits(p, text, low - 1, maxPacked) && retained == low - 1
      decreases high - low + 1
    {
      var middle := (low + high) / 2;
      if Fits(p, text, middle, maxPacked) {
        bounded, retained := Some(BoundedText(text, middle)), middle;
        low := middle + 1;
      } else {
        NoFitUpward(p, text, middle, maxRawBytes, maxPacked);
        high := middle - 1;
      }
    }
    if low > 0 {
      FitsDownward(p, text, low - 1, maxRawBytes, maxPacked);
    }
  }

  /** No longer prefix of the text, marked in the same way, would have fitted. */
  lemma NoLongerPrefixFits(p: Prompt, text: string, maxRawBytes: nat, maxPacked: nat, retained: nat, k: nat)
    requires k <= |text| && Utf8.Length(text[..k]) <= SearchHigh(text, maxRawBytes) < Utf8.Length(text)
    requires retained <= SearchHigh(text, maxRawBytes)
    requires forall m: nat | retained < m <= SearchHigh(text, maxRawBytes) :: !Fits(p, text, m, maxPacked)
    requires PackedBytes(p, text[..k] + Marker(Utf8.Length(text[..k]), Utf8.Length(text))) <= maxPacked
    ensures k <= |Utf8.Cut(text, retained)|
  {
    hide PackedBytes, Marker;
    var n := Utf8.Length(text[..k]);
    CutAtPrefix(text, k);
    assert Fits(p, text, n, maxPacked);
    Utf8.CutIsLongest(text, retained, k);
  }

  lemma {:induction false} CutAtPrefix(text: string, k: nat)
    requires k <= |text|
    ensures Utf8.Cut(text, Utf8.Length(text[..k])) == text[..k]
  {
    var n := Utf8.Length(text[..k]);
    Utf8.CutIsPrefix(text, n);
    Utf8.CutIsLongest(text, n, k);
    var cut := Utf8.Cut(text, n);
    if |cut| > k {
      assert text[..|cut|] == text[..k] + text[k..|cut|];
      assert cut == text[..|cut|];
      Utf8.LengthAppend(text[..k], text[k..|cut|]);
      Utf8.LengthBounds(text[k..|cut|]);
      assert false;
    }
  }
}
