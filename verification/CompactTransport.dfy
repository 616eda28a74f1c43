/** The compact, reversible transport of a valid decision through two layers of JSON escaping. */
module CompactTransport {
  import opened Outcomes
  import opened Json
  import opened JsonSize
  import opened Schema
  import opened SchemaBound
  import opened ActionSchemas
  import opened T = Truncation
  import JsonParser
  import Decimal
  import Utf8

  // ---------------------------------------------------------------- the notation

  predicate IsControl(c: char) { c as int <= 0x1F || c as int == 0x7F }

  function UpperHex(d: nat): (c: char)
    requires d < 16
  {
    "0123456789ABCDEF"[d]
  }

  function HexValue(c: char): Option<nat> {
    if '0' <= c <= '9' then Some(c as int - '0' as int)
    else if 'A' <= c <= 'F' then Some(c as int - 'A' as int + 10)
    else None
  }

  /** `~~` for a tilde, `~HH` for a control character, everything else itself. */
  function TransportChar(c: char): (t: string)
    ensures 1 <= |t| <= 3
  {
    if c == '~' then "~~"
    else if IsControl(c) then ['~', UpperHex(c as int / 16), UpperHex(c as int % 16)]
    else [c]
  }

  function EncodeText(s: string): string {
    if s == "" then "" else TransportChar(s[0]) + EncodeText(s[1..])
  }

  function DecodeText(s: string): Option<string> {
    if s == "" then Some("")
    else if s[0] != '~' then
      match DecodeText(s[1..]) case None => None case Some(rest) => Some([s[0]] + rest)
    else if |s| >= 2 && s[1] == '~' then
      match DecodeText(s[2..]) case None => None case Some(rest) => Some("~" + rest)
    else if |s| >= 3 && HexValue(s[1]).Some? && HexValue(s[2]).Some? && IsControl((HexValue(s[1]).value * 16 + HexValue(s[2]).value) as char) then
      match DecodeText(s[3..])
      case None => None
      case Some(rest) => Some([(HexValue(s[1]).value * 16 + HexValue(s[2]).value) as char] + rest)
    else None
  }

  lemma HexRoundTrip(d: nat)
    requires d < 16
    ensures HexValue(UpperHex(d)) == Some(d) && UpperHex(d) != '~'
  {
  }

  /** The notation is reversible on every string. */
  lemma {:induction false} TextRoundTrip(s: string)
    ensures DecodeText(EncodeText(s)) == Some(s)
  {
    if s != "" {
      var c, rest := s[0], EncodeText(s[1..]);
      var whole := TransportChar(c) + rest;
      TextRoundTrip(s[1..]);
      assert s == [c] + s[1..];
      if c == '~' {
        assert whole[2..] == rest;
      } else if IsControl(c) {
        HexRoundTrip(c as int / 16);
        HexRoundTrip(c as int % 16);
        assert whole[3..] == rest;
      } else {
        assert whole[1..] == rest;
      }
    }
  }

  /** What may stand in a transported text: no control character, the delete character included. */
  predicate IsTransportable(s: string) {
    forall i | 0 <= i < |s| :: s[i] as int >= 0x20 && s[i] as int != 0x7F
  }

  /** Whatever the text, its transport has no control character. */
  lemma {:induction false} TransportIsPlain(s: string)
    ensures IsTransportable(EncodeText(s))
  {
    if s != "" {
      var c := s[0];
      TransportIsPlain(s[1..]);
      if IsControl(c) {
        HexIsPlain(c as int / 16);
        HexIsPlain(c as int % 16);
      }
    }
  }

  lemma HexIsPlain(d: nat)
    requires d < 16
    ensures '0' <= UpperHex(d) <= 'F'
  {
  }

  /** A text that has none, and no tilde, is its own transport. */
  lemma {:induction false} PlainIsItself(s: string)
    requires IsTransportable(s) && '~' !in s
    ensures EncodeText(s) == s
  {
    if s != "" {
      PlainIsItself(s[1..]);
      assert s == [s[0]] + s[1..];
    }
  }

  /** A tilde is doubled, and a control character is a tilde and two upper-case hexadecimal digits. */
  lemma SpecialTransport(c: char, high: nat, low: nat)
    ensures EncodeText("~") == "~~"
    ensures c as int == 16 * high + low && low < 16 && !IsTransportable([c]) ==>
              high < 16 && EncodeText([c]) == ['~', "0123456789ABCDEF"[high], "0123456789ABCDEF"[low]]
  {
    assert "~"[1..] == "" && [c][1..] == "";
    assert EncodeText([c]) == TransportChar(c) + "" && EncodeText("~") == TransportChar('~') + "";
  }

  // ---------------------------------------------------------------- whole candidates

  /** `_compact_valid_nl_candidate`, before rendering */
  function Compact(v: Value): Value
    requires v.Obj?
  {
    Obj(map k | k in v.fields :: if v.fields[k].Str? then Str(EncodeText(v.fields[k].s)) else v.fields[k])
  }

  /** What the receiver does: decode the notation inside string values. */
  function Expand(v: Value): Value
    requires v.Obj?
  {
    Obj(map k | k in v.fields ::
      if v.fields[k].Str? && DecodeText(v.fields[k].s).Some? then Str(DecodeText(v.fields[k].s).value) else v.fields[k])
  }

  /** The receiver gets the candidate back from the transported text. */
  lemma CompactRoundTrip(v: Value)
    requires v.Obj?
    ensures var sent := Render(Compact(v));
            JsonParser.Parse(sent) == Some(Compact(v)) && Expand(JsonParser.Parse(sent).value) == v
  {
    hide Render, JsonParser.Parse;
    JsonParser.ParseRender(Compact(v));
    forall k | k in v.fields && v.fields[k].Str? ensures DecodeText(EncodeText(v.fields[k].s)) == Some(v.fields[k].s) {
      TextRoundTrip(v.fields[k].s);
    }
    assert Expand(Compact(v)).fields == v.fields;
  }

  // ---------------------------------------------------------------- what two escapings cost

  lemma {:induction false} EscapeAppend(a: string, b: string)
    ensures Escape(a + b) == Escape(a) + Escape(b)
  {
    hide EscapeChar;
    if a == "" {
      assert a + b == b;
    } else {
      assert (a + b)[1..] == a[1..] + b;
      EscapeAppend(a[1..], b);
    }
  }

  /** One transported character costs at most four bytes after both escapings. */
  lemma TransportCharCost(c: char)
    ensures EscapedSize(Escape(TransportChar(c))) <= 4
  {
    var t := TransportChar(c);
    if c == '"' || c == '\\' {
      assert t[1..] == "" && Escape(t) == ['\\', c] + "";
      assert Escape(t)[1..] == [c] && [c][1..] == "";
      assert CharCost('\\') == 2 && CharCost(c) == 2 by { AsciiLength(EscapeChar('\\')); AsciiLength(EscapeChar(c)); }
    } else if c == '~' || IsControl(c) {
      assert forall i | 0 <= i < |t| :: IsPlain(t[i]);
      EscapePlain(t);
      EscapedSizeBound(t);
    } else {
      assert t[1..] == "" && Escape(t) == t;
      CharCostBounds(c);
    }
  }

  lemma {:induction false} EscapePlain(s: string)
    requires forall i | 0 <= i < |s| :: IsPlain(s[i])
    ensures Escape(s) == s
  {
    if s != "" {
      EscapePlain(s[1..]);
      assert s == [s[0]] + s[1..];
    }
  }

  lemma NothingCosts()
    ensures EscapedSize(Escape(EncodeText(""))) == 0
  {
  }

  lemma {:induction false} TransportedCost(s: string)
    ensures EscapedSize(Escape(EncodeText(s))) <= 4 * |s|
  {
    hide EscapedSize, Escape, TransportChar;
    if s == "" {
      NothingCosts();
    } else {
      TransportedCost(s[1..]);
      TransportCharCost(s[0]);
      EscapeAppend(TransportChar(s[0]), EncodeText(s[1..]));
      EscapedAppend(Escape(TransportChar(s[0])), Escape(EncodeText(s[1..])));
    }
  }

  lemma QuoteCost(s: string)
    ensures EscapedSize(Quote(s)) == 4 + EscapedSize(Escape(s))
  {
    EscapedAppend("\"" + Escape(s), "\"");
    EscapedAppend("\"", Escape(s));
    assert EscapedSize("\"") == 2 by { AsciiLength(EscapeChar('"')); assert "\""[1..] == ""; }
  }

  /** What one member adds, with its colon and comma. */
  function PackedMember(v: Value, k: string): nat
    requires v.Obj? && k in v.fields
  {
    EscapedSize(Quote(k)) + EscapedSize(Render(v.fields[k])) + 2
  }

  function Sum(keys: seq<string>, cost: string -> nat): nat {
    if keys == [] then 0 else cost(keys[0]) + Sum(keys[1..], cost)
  }

  lemma SeparatorsCost()
    ensures EscapedSize(":") == 1 && EscapedSize(",") == 1 && EscapedSize("{") == 1 && EscapedSize("}") == 1 && EscapedSize("") == 0
  {
    EscapedSizeBound(":");
    EscapedSizeBound(",");
    EscapedSizeBound("{");
    EscapedSizeBound("}");
  }

  lemma {:induction false} PackedFields(v: Value, keys: seq<string>, cost: string -> nat)
    requires v.Obj? && forall k | k in keys :: k in v.fields && PackedMember(v, k) <= cost(k)
    ensures EscapedSize(RenderFields(v, keys)) <= Sum(keys, cost)
  {
    hide EscapedSize, Render, Quote;
    SeparatorsCost();
    if keys != [] {
      var k, comma := keys[0], if |keys| == 1 then "" else ",";
      assert k in keys;
      PackedFields(v, keys[1..], cost);
      var text := Render(v.fields[k]);
      EscapedAppend(Quote(k) + ":" + text + comma, RenderFields(v, keys[1..]));
      EscapedAppend(Quote(k) + ":" + text, comma);
      EscapedAppend(Quote(k) + ":", text);
      EscapedAppend(Quote(k), ":");
    }
  }

  /** Distinct keys out of a list of names sum to at most the whole list. */
  lemma {:induction false} SumOfSome(keys: seq<string>, names: seq<string>, cost: string -> nat)
    requires forall i, j | 0 <= i < j < |keys| :: keys[i] != keys[j]
    requires forall k | k in keys :: k in names
    ensures Sum(keys, cost) <= Sum(names, cost)
    decreases |names|
  {
    assert keys != [] ==> keys[0] in keys;
    if names == [] {
    } else if names[0] in keys {
      var at :| 0 <= at < |keys| && keys[at] == names[0];
      var rest := keys[..at] + keys[at + 1..];
      SumWithoutAt(keys, at, cost);
      assert forall k | k in rest :: k in keys && k != names[0];
      assert forall k | k in rest :: k in names[1..];
      SumOfSome(rest, names[1..], cost);
    } else {
      assert forall k | k in keys :: k != names[0];
      SumOfSome(keys, names[1..], cost);
    }
  }

  lemma {:induction false} SumWithoutAt(keys: seq<string>, at: nat, cost: string -> nat)
    requires at < |keys|
    ensures Sum(keys, cost) == cost(keys[at]) + Sum(keys[..at] + keys[at + 1..], cost)
  {
    var rest := keys[..at] + keys[at + 1..];
    if at == 0 {
      assert rest == keys[1..];
    } else {
      SumWithoutAt(keys[1..], at - 1, cost);
      assert rest[0] == keys[0] && rest[1..] == keys[1..][..at - 1] + keys[1..][at..];
    }
  }

  // ---------------------------------------------------------------- every valid decision fits

  const NlNames := ["mode", "action", "free_text", "answer"]

  /** The longest text each field may hold. */
  function Limit(k: string): nat {
    if k == "mode" then 7 else if k == "action" then 80 else if k == "free_text" then 6144 else 12288
  }

  /** What the schema says about the fields of a valid decision. */
  predicate IsDecision(v: Value) {
    v.Obj? && forall k | k in v.fields :: k in NlNames && v.fields[k].Str? && |v.fields[k].s| <= Limit(k)
  }

  lemma ValidText(c: Checker, v: Value, high: nat, f: nat)
    requires c.Validate(v, ActionSchemas.Text(0, high), f) == Valid
    ensures v.Str? && |v.s| <= high
  {
  }

  lemma ValidMode(c: Checker, v: Value, f: nat)
    requires c.Validate(v, Choice(["action", "answer", "clarify"]), f) == Valid
    ensures v.Str? && |v.s| <= 7
  {
    var words := ["action", "answer", "clarify"];
    var s := Choice(words);
    assert s.members.Some? && |s.members.value| == 3;
    var i :| 0 <= i < 3 && PyEqual(v, s.members.value[i]);
    assert s.members.value[i] == Str(words[i]);
    assert v == Str(words[i]);
  }

  lemma NlProperties(k: string)
    ensures PropertySchema(NlDecision.properties, k) ==
            if k == "mode" then TheSchema(Choice(["action", "answer", "clarify"]))
            else if k == "action" then TheSchema(ActionSchemas.Text(0, 80))
            else if k == "free_text" then TheSchema(ActionSchemas.Text(0, 6144))
            else if k == "answer" then TheSchema(ActionSchemas.Text(0, 12288))
            else NoSchema
  {
    hide Choice, ActionSchemas.Text, PropertySchema;
    var p := NlDecision.properties;
    FourProperties(p[0], p[1], p[2], p[3], k);
    assert p == [p[0], p[1], p[2], p[3]];
  }

  lemma FourProperties(a: Property, b: Property, c: Property, d: Property, k: string)
    ensures PropertySchema([a, b, c, d], k) ==
            if a.name == k then TheSchema(a.schema) else if b.name == k then TheSchema(b.schema)
            else if c.name == k then TheSchema(c.schema) else if d.name == k then TheSchema(d.schema) else NoSchema
  {
    hide PropertySchema;
    PropertyFirst(a, [b, c, d], k);
    PropertyFirst(b, [c, d], k);
    PropertyFirst(c, [d], k);
    PropertyFirst(d, [], k);
    NoProperty(k);
    assert [a] + [b, c, d] == [a, b, c, d] && [b] + [c, d] == [b, c, d] && [c] + [d] == [c, d] && [d] + [] == [d];
  }

  lemma PropertyFirst(p: Property, rest: seq<Property>, k: string)
    ensures PropertySchema([p] + rest, k) == if p.name == k then TheSchema(p.schema) else PropertySchema(rest, k)
  {
    assert ([p] + rest)[1..] == rest;
  }

  lemma NoProperty(k: string)
    ensures PropertySchema([], k) == NoSchema
  {
  }

  lemma ValidDecision(c: Checker, v: Value, f: nat)
    requires c.Validate(v, NlDecision, f) == Valid
    ensures IsDecision(v)
  {
    hide c.Validate, c.FieldsFrom;
    hide Keys, Choice, ActionSchemas.Text;
    DecisionIsObject(c, v, f);
    ValidObject(c, v, NlDecision, f);
    KeysAreDistinct(v);
    forall k | k in v.fields ensures k in NlNames && v.fields[k].Str? && |v.fields[k].s| <= Limit(k) {
      AFieldValid(c, v, NlDecision, f, Keys(v), k);
      NlProperties(k);
      if k == "mode" { ValidMode(c, v.fields[k], f); } else { ValidText(c, v.fields[k], Limit(k), f); }
      assert NlNames[0] == "mode" && NlNames[1] == "action" && NlNames[2] == "free_text" && NlNames[3] == "answer";
    }
  }

  lemma DecisionIsObject(c: Checker, v: Value, f: nat)
    requires c.Validate(v, NlDecision, f) == Valid
    ensures v.Obj?
  {
    hide c.OneOf, c.AnyOf, c.AllOf, c.Fields, c.Items;
  }

  function NlCost(k: string): nat { 10 + |k| + 4 * Limit(k) }

  lemma NlCostSum()
    ensures Sum(NlNames, NlCost) == 74141
  {
    assert NlNames[1..] == ["action", "free_text", "answer"];
    assert NlNames[1..][1..] == ["free_text", "answer"];
    assert NlNames[1..][1..][1..] == ["answer"];
    assert ["answer"][1..] == [];
  }

  lemma NlMemberCost(v: Value, k: string)
    requires IsDecision(v) && k in v.fields
    ensures PackedMember(Compact(v), k) <= NlCost(k)
  {
    hide EscapedSize, Quote, Escape, EncodeText;
    NlWordsArePlain();
    EscapePlain(k);
    EscapedSizeBound(k);
    QuoteCost(k);
    var s := v.fields[k].s;
    TransportedCost(s);
    QuoteCost(EncodeText(s));
  }

  lemma CompactFields(v: Value)
    requires IsDecision(v)
    ensures EscapedSize(RenderFields(Compact(v), Keys(Compact(v)))) <= 74141
  {
    hide EscapedSize, RenderFields, Keys, PackedMember, Limit, NlCost;
    var w := Compact(v);
    KeysAreDistinct(w);
    forall k | k in Keys(w) ensures k in v.fields && PackedMember(w, k) <= NlCost(k) { NlMemberCost(v, k); }
    PackedFields(w, Keys(w), NlCost);
    SumOfSome(Keys(w), NlNames, NlCost);
    NlCostSum();
  }

  /** Even after the prompt is escaped once more, a compacted valid decision takes at most 74,143 bytes. */
  lemma CompactIsShort(v: Value)
    requires IsDecision(v)
    ensures EscapedSize(Render(Compact(v))) <= 74143
  {
    hide EscapedSize, RenderFields, Keys;
    var body := RenderFields(Compact(v), Keys(Compact(v)));
    CompactFields(v);
    SeparatorsCost();
    EscapedAppend("{" + body, "}");
    EscapedAppend("{", body);
  }

  /** A marker's text is at most 96 bytes for any size an address space can hold. */
  lemma MarkerLength(retained: nat, total: nat)
    requires retained <= total < Decimal.Power10(19)
    ensures |Marker(retained, total)| <= 96 && Utf8.Length(Marker(retained, total)) == |Marker(retained, total)|
  {
    hide Decimal.Digits;
    Decimal.DigitsBelow(retained, 19);
    Decimal.DigitsBelow(total, 19);
    MarkerIsAscii(retained, total);
    AsciiLength(Marker(retained, total));
  }

  lemma MarkerIsAscii(retained: nat, total: nat)
    ensures forall i | 0 <= i < |Marker(retained, total)| :: Marker(retained, total)[i] as int < 0x80
  {
    hide Decimal.Digits;
    var head, mid, tail := "\n[candidate truncated: retained ", " of ", " bytes]";
    var a, b := Decimal.Digits(retained), Decimal.Digits(total);
    assert Marker(retained, total) == head + a + mid + b + tail;
    assert forall i | 0 <= i < |head| :: head[i] as int < 0x80;
    assert forall i | 0 <= i < |mid| :: mid[i] as int < 0x80;
    assert forall i | 0 <= i < |tail| :: tail[i] as int < 0x80;
    assert forall i | 0 <= i < |a| :: Decimal.IsDigit(a[i]);
    assert forall i | 0 <= i < |b| :: Decimal.IsDigit(b[i]);
  }
}
