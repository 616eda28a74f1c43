/** Tool results that stay within their negotiated byte bound. */
module ToolResults {
  import opened Outcomes
  import opened Json
  import opened JsonSize
  import opened SchemaBound
  import T = Truncation
  import Utf8

  // ---------------------------------------------------------------- one field of an object

  lemma {:induction false} FieldsCostSame(v: Value, w: Value, keys: seq<string>)
    requires v.Obj? && w.Obj? && forall k | k in keys :: k in v.fields && k in w.fields && v.fields[k] == w.fields[k]
    ensures FieldsCost(v, keys) == FieldsCost(w, keys)
  {
    hide Size;
    if keys != [] {
      assert keys[0] in keys;
      FieldsCostSame(v, w, keys[1..]);
    }
  }

  /** Changing one field changes the object's size by the difference of the two values. */
  lemma SizeReplace(fields: map<string, Value>, key: string, a: Value, b: Value)
    requires key in fields
    ensures Size(Obj(fields[key := a])) + Size(b) == Size(Obj(fields[key := b])) + Size(a)
  {
    hide Size, Keys, FieldsCost;
    var v, w := Obj(fields[key := a]), Obj(fields[key := b]);
    KeysOfSame(v, w);
    var keys := Keys(v);
    KeysAreDistinct(v);
    assert key in v.fields && key in keys;
    var i :| 0 <= i < |keys| && keys[i] == key;
    FieldsCostWithoutAt(v, keys, i);
    FieldsCostWithoutAt(w, keys, i);
    var rest := keys[..i] + keys[i + 1..];
    assert forall k | k in rest :: k in keys && k != key;
    FieldsCostSame(v, w, rest);
    SizeOfObject(v);
    SizeOfObject(w);
  }

  // ---------------------------------------------------------------- text and its truncated flag

  function TextResult(text: string, truncated: bool): Value {
    Obj(map["text" := Str(text), "truncated" := Bool(truncated)])
  }

  /** The candidate at `middle` retained bytes. */
  function TextAt(text: string, middle: nat, alreadyTruncated: bool): Value {
    TextResult(Utf8.Cut(text, middle), alreadyTruncated || middle < Utf8.Length(text))
  }

  predicate TextFits(text: string, middle: nat, alreadyTruncated: bool, maximum: nat) {
    Size(TextAt(text, middle, alreadyTruncated)) <= maximum
  }

  lemma TextResultSizes(a: string, b: string, flag: bool, flag': bool)
    ensures Size(TextResult(a, flag)) + Size(Str(b)) + Size(Bool(flag')) ==
            Size(TextResult(b, flag')) + Size(Str(a)) + Size(Bool(flag))
  {
    hide Size;
    var one: map<string, Value> := map["text" := Str(a), "truncated" := Bool(flag)];
    var two: map<string, Value> := map["text" := Str(b), "truncated" := Bool(flag)];
    SizeReplace(one, "text", Str(a), Str(b));
    SizeReplace(two, "truncated", Bool(flag), Bool(flag'));
    assert one["text" := Str(a)] == one && one["text" := Str(b)] == two;
    assert two["truncated" := Bool(flag)] == two;
    assert Obj(two["truncated" := Bool(flag')]) == TextResult(b, flag');
  }

  /** Retaining less never makes the result longer, although the flag is shorter when it is set. */
  lemma TextFitsMonotone(text: string, m: nat, n: nat, already: bool, maximum: nat)
    requires m <= n <= Utf8.Length(text) && TextFits(text, n, already, maximum)
    ensures TextFits(text, m, already, maximum)
  {
    hide Size, TextResult, EscapedSize;
    var short, long := Utf8.Cut(text, m), Utf8.Cut(text, n);
    var flag, flag' := already || m < Utf8.Length(text), already || n < Utf8.Length(text);
    Utf8.CutMonotone(text, m, n);
    T.EscapedPrefix(short, long);
    SizeOfString(short);
    SizeOfString(long);
    SizeOfWord(Bool(flag));
    SizeOfWord(Bool(flag'));
    TextResultSizes(short, long, flag, flag');
  }

  /** `_bounded_text_result`: the longest text that fits, or an error when the empty one does not. */
  method BoundedTextResult(text: string, maximum: nat, already: bool) returns (best: Option<Value>, ghost retained: nat)
    ensures best.Some? ==>
              && retained <= Utf8.Length(text) && best == Some(TextAt(text, retained, already))
              && Size(best.value) <= maximum
              && forall m: nat | retained < m <= Utf8.Length(text) :: Size(TextAt(text, m, already)) > maximum
    ensures best == None <==> Size(TextAt(text, 0, already)) > maximum
  {
    hide TextFits, TextAt, Size;
    forall m: nat ensures TextFits(text, m, already, maximum) <==> Size(TextAt(text, m, already)) <= maximum {
      FitsIsSize(text, m, already, maximum);
    }
    var length := Utf8.Length(text);
    var low, high := 0, length as int;
    best, retained := None, 0;
    while low <= high
      invariant 0 <= low <= high + 1 <= length + 1
      invariant forall m: nat | high < m <= length :: !TextFits(text, m, already, maximum)
      invariant best == None <==> low == 0
      invariant low > 0 ==> best == Some(TextAt(text, low - 1, already)) && TextFits(text, low - 1, already, maximum) && retained == low - 1
      decreases high - low + 1
    {
      var middle := (low + high) / 2;
      if TextFits(text, middle, already, maximum) {
        best, retained := Some(TextAt(text, middle, already)), middle;
        low := middle + 1;
      } else {
        NoTextFitsAbove(text, middle, already, maximum);
        high := middle - 1;
      }
    }
    if low > 0 { TextFitsMonotone(text, 0, low - 1, already, maximum); }
  }

  lemma FitsIsSize(text: string, middle: nat, already: bool, maximum: nat)
    ensures TextFits(text, middle, already, maximum) <==> Size(TextAt(text, middle, already)) <= maximum
  {
    hide Size;
  }

  /** The result holds the longest beginning of so many bytes, and says that it is truncated exactly when it was
      already or something is missing. */
  lemma TextTells(text: string, retained: nat, already: bool) returns (k: nat)
    ensures k <= |text| && Utf8.Length(text[..k]) <= retained && forall j | k < j <= |text| :: Utf8.Length(text[..j]) > retained
    ensures TextAt(text, retained, already) == Obj(map["text" := Str(text[..k]), "truncated" := Bool(already || k < |text|)])
  {
    hide Utf8.Cut, Utf8.Length;
    var cut := Utf8.Cut(text, retained);
    Utf8.CutIsPrefix(text, retained);
    k := |cut|;
    assert text[..k] == cut && text[..|text|] == text;
    forall j | k < j <= |text| ensures Utf8.Length(text[..j]) > retained {
      if Utf8.Length(text[..j]) <= retained { Utf8.CutIsLongest(text, retained, j); }
    }
  }

  lemma NoTextFitsAbove(text: string, n: nat, already: bool, maximum: nat)
    requires n <= Utf8.Length(text) && !TextFits(text, n, already, maximum)
    ensures forall m: nat | n <= m <= Utf8.Length(text) :: !TextFits(text, m, already, maximum)
  {
    hide TextFits;
    forall m: nat | n <= m <= Utf8.Length(text) ensures !TextFits(text, m, already, maximum) {
      if TextFits(text, m, already, maximum) { TextFitsMonotone(text, n, m, already, maximum); }
    }
  }

  // ---------------------------------------------------------------- file reads

  /** `_read`'s candidate; `decode` replaces what is not UTF-8, so nothing is known about its length. */
  function ReadAt(path: string, offset: nat, raw: Utf8.Bytes, decode: Utf8.Bytes -> string, clipped: bool, middle: nat): Value
    requires middle <= |raw|
  {
    Obj(map["path" := Str(path), "offset" := Int(offset), "text" := Str(decode(raw[..middle])), "bytes" := Int(middle),
            "truncated" := Bool(clipped || middle < |raw|)])
  }

  /** What a read says: how many bytes from the offset it decodes, and whether any are missing. */
  predicate SaysRead(v: Value, path: string, offset: nat, text: string, bytes: nat, missing: bool) {
    && v.Obj? && v.fields.Keys == {"path", "offset", "text", "bytes", "truncated"}
    && v.fields["path"] == Str(path) && v.fields["offset"] == Int(offset) && v.fields["text"] == Str(text)
    && v.fields["bytes"] == Int(bytes) && v.fields["truncated"] == Bool(missing)
  }

  /** `middle` bytes of it fit. */
  ghost predicate ReadFits(path: string, offset: nat, raw: Utf8.Bytes, decode: Utf8.Bytes -> string, clipped: bool, middle: nat,
                           maximum: nat)
  {
    exists v :: (if middle <= |raw| then SaysRead(v, path, offset, decode(raw[..middle]), middle, clipped || middle < |raw|) else false)
                && Size(v) <= maximum
  }

  lemma ReadTells(path: string, offset: nat, raw: Utf8.Bytes, decode: Utf8.Bytes -> string, clipped: bool, middle: nat, maximum: nat)
    requires middle <= |raw|
    ensures var v := ReadAt(path, offset, raw, decode, clipped, middle);
            && SaysRead(v, path, offset, decode(raw[..middle]), middle, clipped || middle < |raw|)
            && (ReadFits(path, offset, raw, decode, clipped, middle, maximum) <==> Size(v) <= maximum)
  {
    hide Size;
    var v := ReadAt(path, offset, raw, decode, clipped, middle);
    if w :| SaysRead(w, path, offset, decode(raw[..middle]), middle, clipped || middle < |raw|) && Size(w) <= maximum {
      SameRead(v, w, path, offset, decode(raw[..middle]), middle, clipped || middle < |raw|);
    }
  }

  lemma SameRead(v: Value, w: Value, path: string, offset: nat, text: string, bytes: nat, missing: bool)
    requires SaysRead(v, path, offset, text, bytes, missing) && SaysRead(w, path, offset, text, bytes, missing)
    ensures v == w
  {
    assert forall k | k in v.fields :: k in w.fields && v.fields[k] == w.fields[k];
    assert v.fields == w.fields;
  }

  /** The search loop of `_read`: what it returns fits and one more byte would not, and it fails only when nothing read
      does not fit. */
  method ReadFit(path: string, offset: nat, raw: Utf8.Bytes, decode: Utf8.Bytes -> string, clipped: bool, maximum: nat)
    returns (best: Option<Value>, ghost read: nat)
    ensures read <= |raw|
    ensures best.Some? ==>
              && SaysRead(best.value, path, offset, decode(raw[..read]), read, clipped || read < |raw|) && Size(best.value) <= maximum
              && (read < |raw| ==> !ReadFits(path, offset, raw, decode, clipped, read + 1, maximum))
    ensures best == None ==> !ReadFits(path, offset, raw, decode, clipped, 0, maximum)
  {
    hide ReadAt, Size, ReadFits, SaysRead;
    var low, high := 0, |raw| as int;
    best, read := None, 0;
    while low <= high
      invariant 0 <= low <= high + 1 <= |raw| + 1
      invariant best == None <==> low == 0
      invariant read <= |raw|
      invariant best.Some? ==>
                  && read == low - 1 && Size(best.value) <= maximum
                  && SaysRead(best.value, path, offset, decode(raw[..read]), read, clipped || read < |raw|)
      invariant high == |raw| || !ReadFits(path, offset, raw, decode, clipped, high + 1, maximum)
      decreases high - low + 1
    {
      var middle := (low + high) / 2;
      var candidate := ReadAt(path, offset, raw, decode, clipped, middle);
      ReadTells(path, offset, raw, decode, clipped, middle, maximum);
      if Size(candidate) <= maximum {
        best, read := Some(candidate), middle;
        low := middle + 1;
      } else {
        high := middle - 1;
      }
    }
  }

  // ---------------------------------------------------------------- growing lists

  function ListResult(key: string, values: seq<Value>, truncated: bool): Value
    requires key != "truncated"
  {
    Obj(map[key := Arr(values), "truncated" := Bool(truncated)])
  }

  lemma FlagSaves(key: string, values: seq<Value>)
    requires key != "truncated"
    ensures Size(ListResult(key, values, true)) + 1 == Size(ListResult(key, values, false))
  {
    hide Size;
    var fields: map<string, Value> := map[key := Arr(values), "truncated" := Bool(true)];
    SizeReplace(fields, "truncated", Bool(true), Bool(false));
    SizeOfWord(Bool(true));
    SizeOfWord(Bool(false));
    assert fields["truncated" := Bool(true)] == fields;
    assert Obj(fields["truncated" := Bool(false)]) == ListResult(key, values, false);
  }

  /** The list a search fills in. */
  class Found {
    var values: seq<Value>

    constructor ()
      ensures values == []
    {
      values := [];
    }
  }

  /** `_append_bounded` */
  method AppendBounded(found: Found, key: string, value: Value, maximum: nat) returns (appended: Result<bool, string>)
    requires key != "truncated"
    modifies found
    ensures appended == Ok(true) ==> found.values == old(found.values) + [value]
    ensures appended != Ok(true) ==> found.values == old(found.values)
    ensures appended == Ok(true) <==> Size(ListResult(key, old(found.values) + [value], false)) <= maximum
    ensures appended == Ok(false) ==> Size(ListResult(key, old(found.values), true)) <= maximum
    ensures appended.Err? ==> Size(ListResult(key, old(found.values), true)) > maximum
  {
    if Size(ListResult(key, found.values + [value], false)) > maximum {
      if Size(ListResult(key, found.values, true)) > maximum {
        return Err("tool result byte bound cannot hold its canonical envelope");
      }
      return Ok(false);
    }
    found.values := found.values + [value];
    appended := Ok(true);
  }

  /** The collecting loop of the searches: the longest run of matches that fits, up to the limit, and
      never silently short; an error only when the bound cannot hold an empty list. */
  method Collect(candidates: seq<Value>, key: string, limit: nat, maximum: nat)
    returns (result: Result<Value, string>, ghost n: nat)
    requires key != "truncated" && limit > 0
    ensures result.Ok? ==> n <= |candidates| && n <= limit
    ensures result.Ok? ==> SaysList(result.value, key, candidates[..n], n == limit || n < |candidates|)
    ensures result.Ok? && n < |candidates| ==>
              n == limit || Size(ListResult(key, candidates[..n + 1], false)) > maximum
    ensures result.Ok? && n > 0 ==> Size(result.value) <= maximum
    ensures result.Err? <==> candidates != [] && Size(ListResult(key, [], true)) > maximum
  {
    hide Size, ListResult, SaysList;
    var found := new Found();
    n := 0;
    if candidates != [] {
      FlagSaves(key, []);
      ListGrows(key, candidates[0]);
      assert candidates[..1] == [candidates[0]] && candidates[..0] == [];
    }
    for i := 0 to |candidates|
      invariant found.values == candidates[..i] && n == i && i < limit
      invariant i > 0 ==> Size(ListResult(key, candidates[..i], false)) <= maximum && Size(ListResult(key, [], true)) <= maximum
      invariant fresh(found)
    {
      assert candidates[..i] + [candidates[i]] == candidates[..i + 1];
      FlagSaves(key, candidates[..i]);
      var appended := AppendBounded(found, key, candidates[i], maximum);
      if appended.Err? {
        assert candidates[..0] == [];
        return Err(appended.error), n;
      }
      if !appended.value {
        ListTells(key, candidates[..i], true);
        return Ok(ListResult(key, found.values, true)), n;
      }
      n := i + 1;
      if |found.values| >= limit {
        FlagSaves(key, candidates[..i + 1]);
        ListTells(key, candidates[..i + 1], true);
        return Ok(ListResult(key, found.values, true)), n;
      }
    }
    assert candidates[..|candidates|] == candidates;
    ListTells(key, candidates, false);
    result := Ok(ListResult(key, found.values, false));
  }

  lemma ListGrows(key: string, value: Value)
    requires key != "truncated"
    ensures Size(ListResult(key, [], false)) <= Size(ListResult(key, [value], false))
  {
    hide Size;
    var fields: map<string, Value> := map[key := Arr([]), "truncated" := Bool(false)];
    SizeReplace(fields, key, Arr([]), Arr([value]));
    assert fields[key := Arr([])] == fields;
    assert Obj(fields[key := Arr([value])]) == ListResult(key, [value], false);
    OneItem(value);
  }

  lemma OneItem(value: Value)
    ensures Size(Arr([])) <= Size(Arr([value]))
  {
    SizeOfArray(Arr([]));
    SizeOfArray(Arr([value]));
  }

  /** A list under its key, and whether it is cut short. */
  predicate SaysList(v: Value, key: string, values: seq<Value>, missing: bool) {
    && v.Obj? && v.fields.Keys == {key, "truncated"}
    && v.fields[key] == Arr(values) && v.fields["truncated"] == Bool(missing)
  }

  lemma ListTells(key: string, values: seq<Value>, truncated: bool)
    requires key != "truncated"
    ensures SaysList(ListResult(key, values, truncated), key, values, truncated)
  {
  }
}
