/** How long canonical text is, part by part. */
module JsonSize {
  import opened Json
  import Decimal
  import Utf8

  function CharCost(c: char): nat {
    Utf8.Length(EscapeChar(c))
  }

  predicate IsPlain(c: char) {
    0x20 <= c as int < 0x7F && c != '"' && c != '\\'
  }

  lemma {:induction false} AsciiLength(s: string)
    requires forall i | 0 <= i < |s| :: s[i] as int < 0x80
    ensures Utf8.Length(s) == |s|
  {
    if s != "" { AsciiLength(s[1..]); }
  }

  /** A character costs at most six bytes: a control character, two; a quote or backslash; others
      at most four. */
  lemma CharCostBounds(c: char)
    ensures 1 <= CharCost(c) <= 6
    ensures IsPlain(c) ==> CharCost(c) == 1
    ensures c as int >= 0x20 ==> CharCost(c) <= 4
  {
    var e := EscapeChar(c);
    if e == [c] {
      assert e[1..] == "";
    } else {
      AsciiLength(e);
    }
  }

  lemma SizeIsLength(v: Value)
    ensures Size(v) == Utf8.Length(Render(v))
  {
  }

  /** The bytes of a string's escaped content. */
  function EscapedSize(s: string): nat {
    if s == "" then 0 else CharCost(s[0]) + EscapedSize(s[1..])
  }

  lemma {:induction false} EscapedLength(s: string)
    ensures Utf8.Length(Escape(s)) == EscapedSize(s)
  {
    if s != "" {
      EscapedLength(s[1..]);
      Utf8.LengthAppend(EscapeChar(s[0]), Escape(s[1..]));
    }
  }

  lemma SizeOfString(s: string)
    ensures Size(Str(s)) == 2 + EscapedSize(s)
  {
    EscapedLength(s);
    Utf8.LengthAppend("\"" + Escape(s), "\"");
    Utf8.LengthAppend("\"", Escape(s));
    AsciiLength("\"");
  }

  lemma {:induction false} EscapedSizeBound(s: string)
    ensures |s| <= EscapedSize(s) <= 6 * |s|
    ensures (forall i | 0 <= i < |s| :: IsPlain(s[i])) ==> EscapedSize(s) == |s|
    ensures (forall i | 0 <= i < |s| :: s[i] as int >= 0x20) ==> EscapedSize(s) <= 4 * |s|
  {
    if s != "" {
      CharCostBounds(s[0]);
      EscapedSizeBound(s[1..]);
    }
  }

  lemma {:induction false} EscapedAppend(a: string, b: string)
    ensures EscapedSize(a + b) == EscapedSize(a) + EscapedSize(b)
  {
    if a == "" {
      assert a + b == b;
    } else {
      assert (a + b)[1..] == a[1..] + b;
      EscapedAppend(a[1..], b);
    }
  }

  lemma SizeOfInt(n: int)
    ensures Size(Int(n)) == |Decimal.Text(n)|
  {
    AsciiLength(Decimal.Text(n));
  }

  lemma SizeOfWord(v: Value)
    ensures v == Null ==> Size(v) == 4
    ensures v == Bool(true) ==> Size(v) == 4
    ensures v == Bool(false) ==> Size(v) == 5
  {
    AsciiLength("null");
    AsciiLength("true");
    AsciiLength("false");
  }

  // ---------------------------------------------------------------- arrays

  function ItemsCost(v: Value, i: nat): nat
    requires v.Arr? && i <= |v.items|
    decreases |v.items| - i
  {
    if i == |v.items| then 0 else Size(v.items[i]) + ItemsCost(v, i + 1)
  }

  lemma {:induction false} ItemsLength(v: Value, i: nat)
    requires v.Arr? && i <= |v.items|
    ensures Utf8.Length(RenderItems(v, i)) ==
            ItemsCost(v, i) + (|v.items| - i) - (if i == 0 && v.items != [] then 1 else 0)
    decreases |v.items| - i
  {
    if i < |v.items| {
      var comma := if i == 0 then "" else ",";
      ItemsLength(v, i + 1);
      AsciiLength(comma);
      Utf8.LengthAppend(comma + Render(v.items[i]), RenderItems(v, i + 1));
      Utf8.LengthAppend(comma, Render(v.items[i]));
    }
  }

  lemma SizeOfArray(v: Value)
    requires v.Arr?
    ensures Size(v) == 2 + ItemsCost(v, 0) + if v.items == [] then 0 else |v.items| - 1
  {
    ItemsLength(v, 0);
    Utf8.LengthAppend("[" + RenderItems(v, 0), "]");
    Utf8.LengthAppend("[", RenderItems(v, 0));
    AsciiLength("[");
    AsciiLength("]");
  }

  // ---------------------------------------------------------------- objects

  function MemberCost(v: Value, key: string): nat
    requires v.Obj? && key in v.fields
  {
    Size(Str(key)) + 1 + Size(v.fields[key])
  }

  function FieldsCost(v: Value, keys: seq<string>): nat
    requires v.Obj? && forall k | k in keys :: k in v.fields
  {
    if keys == [] then 0
    else
      assert keys[0] in keys;
      MemberCost(v, keys[0]) + FieldsCost(v, keys[1..])
  }

  lemma {:induction false} FieldsLength(v: Value, keys: seq<string>)
    requires v.Obj? && forall k | k in keys :: k in v.fields
    ensures Utf8.Length(RenderFields(v, keys)) == FieldsCost(v, keys) + if keys == [] then 0 else |keys| - 1
  {
    if keys != [] {
      var key, comma := keys[0], if |keys| == 1 then "" else ",";
      assert key in keys;
      FieldsLength(v, keys[1..]);
      AsciiLength(comma);
      AsciiLength(":");
      var text := Render(v.fields[key]);
      Utf8.LengthAppend(Quote(key) + ":" + text + comma, RenderFields(v, keys[1..]));
      Utf8.LengthAppend(Quote(key) + ":" + text, comma);
      Utf8.LengthAppend(Quote(key) + ":", text);
      Utf8.LengthAppend(Quote(key), ":");
    }
  }

  lemma SizeOfObject(v: Value)
    requires v.Obj?
    ensures Size(v) == 2 + FieldsCost(v, Keys(v)) + if Keys(v) == [] then 0 else |Keys(v)| - 1
  {
    hide RenderFields, Keys, FieldsCost;
    var body := RenderFields(v, Keys(v));
    FieldsLength(v, Keys(v));
    Utf8.LengthAppend("{" + body, "}");
    Utf8.LengthAppend("{", body);
    AsciiLength("{");
    AsciiLength("}");
  }
}
