/** A parser for canonical JSON text, showing that the text determines the value. */
module JsonParser {
  import opened Outcomes
  import opened Sorting
  import opened Decimal
  import opened Json
  import S = Strings
  import Utf8

  function Unhex(c: char): Option<nat> {
    if '0' <= c <= '9' then Some(c as int - '0' as int)
    else if 'a' <= c <= 'f' then Some(c as int - 'a' as int + 10)
    else None
  }

  /** The character one escape sequence after a backslash stands for, and its length. */
  function Unescape(s: string): Option<(char, nat)> {
    if s == "" then None
    else if s[0] == '"' then Some(('"', 1))
    else if s[0] == '\\' then Some(('\\', 1))
    else if s[0] == 'n' then Some(('\n', 1))
    else if s[0] == 'r' then Some(('\r', 1))
    else if s[0] == 't' then Some(('\t', 1))
    else if s[0] == 'b' then Some((8 as char, 1))
    else if s[0] == 'f' then Some((12 as char, 1))
    else if s[0] == 'u' && |s| >= 5 && s[1] == '0' && s[2] == '0' && Unhex(s[3]).Some? && Unhex(s[4]).Some? then
      Some(((Unhex(s[3]).value * 16 + Unhex(s[4]).value) as char, 5))
    else None
  }

  /** The rest of a string after its opening quote, up to and over the closing quote. */
  function ParseString(s: string): (r: Option<(string, string)>)
    ensures r.Some? ==> |r.value.1| < |s|
  {
    if s == "" then None
    else if s[0] == '"' then Some(("", s[1..]))
    else if s[0] == '\\' then
      match Unescape(s[1..])
      case None => None
      case Some((c, n)) =>
        if n + 1 > |s| then None
        else match ParseString(s[n + 1..])
          case None => None
          case Some((text, rest)) => Some(([c] + text, rest))
    else
      match ParseString(s[1..])
      case None => None
      case Some((text, rest)) => Some(([s[0]] + text, rest))
  }

  /** How many digits a text starts with. */
  function Span(s: string): (n: nat)
    ensures n <= |s| && forall i | 0 <= i < n :: IsDigit(s[i])
  {
    if s == "" || !IsDigit(s[0]) then 0 else 1 + Span(s[1..])
  }

  function ParseValue(s: string): (r: Option<(Value, string)>)
    ensures r.Some? ==> |r.value.1| < |s|
    decreases |s|, 0
  {
    if s == "" then None
    else if "null" <= s then Some((Null, s[4..]))
    else if "true" <= s then Some((Bool(true), s[4..]))
    else if "false" <= s then Some((Bool(false), s[5..]))
    else if s[0] == '"' then
      match ParseString(s[1..])
      case None => None
      case Some((text, rest)) => Some((Str(text), rest))
    else if s[0] == '-' then
      var n := Span(s[1..]);
      if n == 0 then None else Some((Int(0 - Decimal.NumberOf(s[1..][..n])), s[1..][n..]))
    else if IsDigit(s[0]) then
      var n := Span(s);
      Some((Int(Decimal.NumberOf(s[..n])), s[n..]))
    else if s[0] == '[' then
      if "[]" <= s then Some((Arr([]), s[2..]))
      else match ParseItems(s[1..])
        case None => None
        case Some((items, rest)) => Some((Arr(items), rest))
    else if s[0] == '{' then
      if "{}" <= s then Some((Obj(map[]), s[2..]))
      else match ParseFields(s[1..])
        case None => None
        case Some((fields, rest)) => Some((Obj(fields), rest))
    else None
  }

  function ParseItems(s: string): (r: Option<(seq<Value>, string)>)
    ensures r.Some? ==> |r.value.1| < |s|
    decreases |s|, 1
  {
    match ParseValue(s)
    case None => None
    case Some((v, rest)) =>
      if rest == "" then None
      else if rest[0] == ']' then Some(([v], rest[1..]))
      else if rest[0] != ',' then None
      else match ParseItems(rest[1..])
        case None => None
        case Some((items, end)) => Some(([v] + items, end))
  }

  function ParseFields(s: string): (r: Option<(map<string, Value>, string)>)
    ensures r.Some? ==> |r.value.1| < |s|
    decreases |s|, 1
  {
    if s == "" || s[0] != '"' then None
    else match ParseString(s[1..])
      case None => None
      case Some((key, rest)) =>
        if rest == "" || rest[0] != ':' then None
        else match ParseValue(rest[1..])
          case None => None
          case Some((v, after)) =>
            if after == "" then None
            else if after[0] == '}' then Some((map[key := v], after[1..]))
            else if after[0] != ',' then None
            else match ParseFields(after[1..])
              case None => None
              case Some((fields, end)) => Some((fields[key := v], end))
  }

  /** `json.loads` on canonical text: one value and nothing after it. */
  function Parse(s: string): Option<Value> {
    match ParseValue(s)
    case None => None
    case Some((v, rest)) => if rest == "" then Some(v) else None
  }

  // ---------------------------------------------------------------- strings and numbers round trip

  lemma UnescapeEscape(c: char, rest: string)
    requires EscapeChar(c)[0] == '\\'
    ensures Unescape((EscapeChar(c) + rest)[1..]) == Some((c, |EscapeChar(c)| - 1))
  {
    var e := EscapeChar(c);
    assert (e + rest)[1..] == e[1..] + rest;
    if |e| == 6 {
      var hi, lo := c as int / 16, c as int % 16;
      assert (e[1..] + rest)[..5] == ['u', '0', '0', HexDigit(hi), HexDigit(lo)];
      HexRoundTrip(hi);
      HexRoundTrip(lo);
    }
  }

  lemma HexRoundTrip(d: nat)
    requires d < 16
    ensures Unhex(HexDigit(d)) == Some(d)
  {
  }

  lemma PlainEscape(c: char)
    requires EscapeChar(c)[0] != '\\'
    ensures EscapeChar(c) == [c] && c != '"'
  {
  }

  lemma {:induction false} StringRoundTrip(s: string, rest: string)
    ensures ParseString(Escape(s) + "\"" + rest) == Some((s, rest))
  {
    hide Unescape, EscapeChar;
    if s == "" {
      assert Escape(s) + "\"" + rest == "\"" + rest;
    } else {
      var e, after := EscapeChar(s[0]), Escape(s[1..]) + "\"" + rest;
      assert Escape(s) + "\"" + rest == e + after;
      StringRoundTrip(s[1..], rest);
      assert s == [s[0]] + s[1..];
      StringStep(s[0], after);
    }
  }

  lemma StringStep(c: char, after: string)
    ensures ParseString(EscapeChar(c) + after) ==
            match ParseString(after) case None => None case Some((text, rest)) => Some(([c] + text, rest))
  {
    hide Unescape;
    var e := EscapeChar(c);
    var text := e + after;
    assert text[|e|..] == after && text[0] == e[0];
    if e[0] == '\\' {
      UnescapeEscape(c, after);
    } else {
      PlainEscape(c);
    }
  }

  /** Text that cannot continue a number. */
  predicate Delimits(rest: string) {
    rest == "" || !IsDigit(rest[0])
  }

  lemma {:induction false} SpanIs(digits: string, rest: string)
    requires (forall i | 0 <= i < |digits| :: IsDigit(digits[i])) && Delimits(rest)
    ensures Span(digits + rest) == |digits|
  {
    if digits == "" {
      assert digits + rest == rest;
    } else {
      assert (digits + rest)[1..] == digits[1..] + rest;
      SpanIs(digits[1..], rest);
    }
  }

  lemma NoWord(s: string)
    requires s != "" && s[0] !in {'n', 't', 'f'}
    ensures !("null" <= s) && !("true" <= s) && !("false" <= s)
  {
  }

  lemma IntRoundTrip(n: int, rest: string)
    requires Delimits(rest)
    ensures ParseValue(Decimal.Text(n) + rest) == Some((Int(n), rest))
  {
    hide Digits, Decimal.NumberOf, Span, ParseItems, ParseFields, ParseString;
    var size := if n < 0 then -n else n;
    var digits := Digits(size);
    SpanIs(digits, rest);
    NumberOfDigits(size);
    assert (digits + rest)[..|digits|] == digits && (digits + rest)[|digits|..] == rest;
    assert IsDigit((digits + rest)[0]);
    if n < 0 {
      var text := "-" + digits + rest;
      assert text[1..] == digits + rest;
      NoWord(text);
    } else {
      NoWord(digits + rest);
    }
  }

  // ---------------------------------------------------------------- values round trip

  /** The value stored under some of an object's keys. */
  function Restrict(fields: map<string, Value>, keys: seq<string>): map<string, Value> {
    map k | k in fields && k in keys :: fields[k]
  }

  /** Parsing the canonical text of a value returns the value and whatever follows it. */
  lemma {:induction false} ValueRoundTrip(v: Value, rest: string)
    requires Delimits(rest)
    ensures ParseValue(Render(v) + rest) == Some((v, rest))
    decreases v, 1, 0
  {
    match v
    case Null => LiteralRoundTrip("null", rest);
    case Bool(b) => LiteralRoundTrip(if b then "true" else "false", rest);
    case Int(n) => IntRoundTrip(n, rest);
    case Str(s) => QuotedRoundTrip(s, rest);
    case Arr(items) => ArrayRoundTrip(v, rest);
    case Obj(fields) => ObjectRoundTrip(v, rest);
  }

  lemma LiteralRoundTrip(word: string, rest: string)
    requires word in {"null", "true", "false"}
    ensures ParseValue(word + rest) ==
            Some((if word == "null" then Null else Bool(word == "true"), rest))
  {
    var text := word + rest;
    assert text[..|word|] == word && text[|word|..] == rest;
    assert text[0] == word[0];
  }

  lemma QuoteTail(text: string, rest: string)
    ensures Quote(text) + rest != "" && (Quote(text) + rest)[0] == '"'
    ensures (Quote(text) + rest)[1..] == Escape(text) + "\"" + rest
  {
    hide Escape;
  }

  lemma QuotedRoundTrip(s: string, rest: string)
    ensures ParseValue(Quote(s) + rest) == Some((Str(s), rest))
  {
    hide Quote, Escape, ParseString, Span, ParseItems, ParseFields;
    StringRoundTrip(s, rest);
    QuoteTail(s, rest);
    NoWord(Quote(s) + rest);
  }

  lemma ArrayRoundTrip(v: Value, rest: string)
    requires v.Arr?
    ensures ParseValue(Render(v) + rest) == Some((v, rest))
    decreases v, 0, |v.items| + 1
  {
    hide ParseItems, RenderItems, ParseFields, ParseString, Span;
    if v.items == [] {
      EmptyItems(v);
      EmptyRoundTrip("[]", rest);
    } else {
      ItemsRoundTrip(v, 0, rest);
      ItemsText(v, 0, rest);
      ItemsStart(v);
      OpenedRoundTrip('[', RenderItems(v, 0), "]", rest);
      assert v.items[0..] == v.items;
    }
  }

  lemma EmptyItems(v: Value)
    requires v.Arr? && v.items == []
    ensures Render(v) == "[]"
  {
  }

  lemma EmptyRoundTrip(text: string, rest: string)
    requires text == "[]" || text == "{}"
    ensures ParseValue(text + rest) == Some((if text == "[]" then Arr([]) else Obj(map[]), rest))
  {
    var all := text + rest;
    assert all[..2] == text && all[2..] == rest && all[0] == text[0];
  }

  /** A bracketed text is parsed by parsing what follows the bracket. */
  lemma OpenedRoundTrip(open: char, body: string, close: string, rest: string)
    requires open == '[' || open == '{'
    requires body != "" && body[0] !in {']', '}'}
    ensures var text, inside := [open] + body + close + rest, body + close + rest;
            ParseValue(text) ==
              if open == '[' then
                match ParseItems(inside) case None => None case Some((items, end)) => Some((Arr(items), end))
              else
                match ParseFields(inside) case None => None case Some((fields, end)) => Some((Obj(fields), end))
  {
    hide ParseItems, ParseFields, ParseString, Span;
    var text := [open] + body + close + rest;
    assert text[1..] == body + close + rest;
    assert text[0] == open && text[1] == body[0];
  }

  lemma ItemsStart(v: Value)
    requires v.Arr? && v.items != []
    ensures RenderItems(v, 0) != "" && RenderItems(v, 0)[0] !in {']', '}'}
  {
    FirstCharacter(v.items[0]);
  }

  /** Canonical text never starts with a closing bracket, a comma or a space. */
  lemma FirstCharacter(v: Value)
    ensures Render(v) != "" && Render(v)[0] !in {']', '}', ',', ':', ' '}
  {
    if v.Int? && v.n >= 0 { assert IsDigit(Render(v)[0]); }
  }

  /** The items from `i` on, without the separator before the first of them. */
  function ItemsFrom(v: Value, i: nat): string
    requires v.Arr? && i < |v.items|
  {
    Render(v.items[i]) + RenderItems(v, i + 1)
  }

  lemma ItemsText(v: Value, i: nat, rest: string)
    requires v.Arr? && i < |v.items|
    ensures i == 0 ==> RenderItems(v, 0) == ItemsFrom(v, 0)
    ensures var after := RenderItems(v, i + 1) + "]" + rest;
            ItemsFrom(v, i) + "]" + rest == Render(v.items[i]) + after
            && if i + 1 == |v.items| then after == "]" + rest
               else after != "" && after[0] == ',' && after[1..] == ItemsFrom(v, i + 1) + "]" + rest
  {
    hide Render;
    if i + 1 < |v.items| { assert RenderItems(v, i + 1) == "," + ItemsFrom(v, i + 1); }
  }

  /** One item of an array, with the text after it. */
  lemma ItemStep(text: string, v: Value, after: string)
    requires ParseValue(text + after) == Some((v, after)) && after != ""
    ensures ParseItems(text + after) ==
            if after[0] == ']' then Some(([v], after[1..]))
            else if after[0] != ',' then None
            else match ParseItems(after[1..])
              case None => None
              case Some((items, end)) => Some(([v] + items, end))
  {
    hide ParseValue;
  }

  lemma {:induction false} ItemsRoundTrip(v: Value, i: nat, rest: string)
    requires v.Arr? && i < |v.items|
    ensures ParseItems(ItemsFrom(v, i) + "]" + rest) == Some((v.items[i..], rest))
    decreases v, 0, |v.items| - i
  {
    hide ParseValue, ParseItems, Render, RenderItems, ItemsFrom;
    var after := RenderItems(v, i + 1) + "]" + rest;
    ItemsText(v, i, rest);
    ValueRoundTrip(v.items[i], after);
    ItemStep(Render(v.items[i]), v.items[i], after);
    if i + 1 == |v.items| {
      assert v.items[i..] == [v.items[i]] && after[1..] == rest;
    } else {
      ItemsRoundTrip(v, i + 1, rest);
      assert v.items[i..] == [v.items[i]] + v.items[i + 1..];
    }
  }

  lemma ObjectRoundTrip(v: Value, rest: string)
    requires v.Obj?
    ensures ParseValue(Render(v) + rest) == Some((v, rest))
    decreases v, 0, |Keys(v)| + 1
  {
    hide ParseItems, RenderFields, ParseFields, ParseString, Span, Elements;
    var keys := Keys(v);
    KeysCover(v);
    if keys == [] {
      EmptyFields(v);
      EmptyRoundTrip("{}", rest);
    } else {
      FieldsRoundTrip(v, keys, rest);
      FieldsStart(v, keys);
      OpenedRoundTrip('{', RenderFields(v, keys), "}", rest);
    }
  }

  lemma KeysCover(v: Value)
    requires v.Obj?
    ensures Restrict(v.fields, Keys(v)) == v.fields
    ensures Keys(v) == [] ==> v == Obj(map[])
    ensures forall i, j | 0 <= i < j < |Keys(v)| :: Keys(v)[i] != Keys(v)[j]
  {
    assert forall k | k in v.fields :: k in Elements(Keys(v));
    assert Keys(v) == [] ==> v.fields.Keys == {};
  }

  lemma EmptyFields(v: Value)
    requires v.Obj? && Keys(v) == []
    ensures Render(v) == "{}"
  {
  }

  lemma FieldsStart(v: Value, keys: seq<string>)
    requires v.Obj? && keys != [] && forall k | k in keys :: k in v.fields
    ensures RenderFields(v, keys) != "" && RenderFields(v, keys)[0] == '"'
  {
  }

  /** One member of an object, with the text after it. */
  lemma FieldStep(key: string, text: string, v: Value, after: string)
    requires ParseValue(text + after) == Some((v, after)) && after != ""
    ensures ParseFields(Quote(key) + ":" + text + after) ==
            if after[0] == '}' then Some((map[key := v], after[1..]))
            else if after[0] != ',' then None
            else match ParseFields(after[1..])
              case None => None
              case Some((fields, end)) => Some((fields[key := v], end))
  {
    hide ParseValue, ParseString, Escape, Quote;
    var colon := ":" + text + after;
    Regroup(Quote(key), ":", text, after, "");
    StringRoundTrip(key, colon);
    QuoteTail(key, colon);
    assert colon[0] == ':' && colon[1..] == text + after;
    assert Quote(key) + ":" + text + after == Quote(key) + colon;
  }

  lemma FieldsText(v: Value, keys: seq<string>, rest: string)
    requires v.Obj? && keys != [] && forall k | k in keys :: k in v.fields
    ensures keys[0] in v.fields && forall k | k in keys[1..] :: k in v.fields
    ensures RenderFields(v, keys) + "}" + rest ==
            Quote(keys[0]) + ":" + Render(v.fields[keys[0]])
            + ((if |keys| == 1 then "" else ",") + (RenderFields(v, keys[1..]) + "}" + rest))
  {
    hide Render, Quote;
    assert keys[0] in keys;
    var head := Quote(keys[0]) + ":" + Render(v.fields[keys[0]]);
    Regroup(head, if |keys| == 1 then "" else ",", RenderFields(v, keys[1..]), "}", rest);
  }

  lemma Regroup<T>(a: seq<T>, b: seq<T>, c: seq<T>, d: seq<T>, e: seq<T>)
    ensures (a + b + c) + d + e == a + (b + (c + d + e))
  {
  }

  lemma RestrictStep(fields: map<string, Value>, keys: seq<string>)
    requires keys != [] && keys[0] in fields
    ensures Restrict(fields, keys) == Restrict(fields, keys[1..])[keys[0] := fields[keys[0]]]
    ensures Restrict(fields, []) == map[]
  {
    assert keys == [keys[0]] + keys[1..];
  }

  lemma {:induction false} FieldsRoundTrip(v: Value, keys: seq<string>, rest: string)
    requires v.Obj? && keys != [] && forall k | k in keys :: k in v.fields
    ensures ParseFields(RenderFields(v, keys) + "}" + rest) == Some((Restrict(v.fields, keys), rest))
    decreases v, 0, |keys|
  {
    hide ParseValue, Render, ParseFields, ParseString, Escape, Restrict;
    var key := keys[0];
    FieldsText(v, keys, rest);
    RestrictStep(v.fields, keys);
    var tail := RenderFields(v, keys[1..]) + "}" + rest;
    var after := (if |keys| == 1 then "" else ",") + tail;
    if |keys| == 1 {
      assert after == "}" + rest;
      assert keys[1..] == [];
    } else {
      assert after[0] == ',' && after[1..] == tail;
      FieldsRoundTrip(v, keys[1..], rest);
    }
    assert Delimits(after);
    assert key in keys;
    ValueRoundTrip(v.fields[key], after);
    FieldStep(key, Render(v.fields[key]), v.fields[key], after);
    assert after[1..] == if |keys| == 1 then rest else tail;
  }

  /** A parser undoes the canonical encoding. */
  lemma ParseRender(v: Value)
    ensures Parse(Render(v)) == Some(v)
  {
    ValueRoundTrip(v, "");
    assert Render(v) + "" == Render(v);
  }

  /** Distinct values have distinct canonical bytes, so a digest of the bytes identifies the value. */
  lemma CanonicalBytesInjective(v: Value, w: Value)
    requires CanonicalBytes(v) == CanonicalBytes(w)
    ensures v == w
  {
    Utf8.EncodeInjective(Render(v), Render(w));
    ParseRender(v);
    ParseRender(w);
  }
}
