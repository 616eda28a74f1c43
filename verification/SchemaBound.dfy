/** The static bound dominates the canonical size of every schema-valid value. */
module SchemaBound {
  import opened Outcomes
  import opened Sorting
  import opened Json
  import opened JsonSize
  import opened Schema
  import Decimal
  import S = Strings

  // ---------------------------------------------------------------- constants and Python equality

  /** No part of the value is the integer 0 or 1, which Python equates with a boolean. */
  predicate NoBooleanTwin(c: Value)
    decreases c
  {
    match c
    case Int(n) => n != 0 && n != 1
    case Arr(items) => forall i | 0 <= i < |items| :: NoBooleanTwin(items[i])
    case Obj(fields) => forall k | k in fields :: NoBooleanTwin(fields[k])
    case _ => true
  }

  /** The same value with every 0 and 1 replaced by the boolean equal to it. */
  function Twin(c: Value): Value
    decreases c
  {
    match c
    case Int(n) => if n == 0 then Bool(false) else if n == 1 then Bool(true) else c
    case Arr(items) => Arr(seq(|items|, i requires 0 <= i < |items| => Twin(items[i])))
    case Obj(fields) => Obj(map k | k in fields :: Twin(fields[k]))
    case _ => c
  }

  lemma {:induction false} ItemsCostAtMost(v: Value, w: Value, i: nat)
    requires v.Arr? && w.Arr? && |v.items| == |w.items| && i <= |v.items|
    requires forall j | i <= j < |v.items| :: Size(v.items[j]) <= Size(w.items[j])
    ensures ItemsCost(v, i) <= ItemsCost(w, i)
    ensures (exists j :: i <= j < |v.items| && Size(v.items[j]) < Size(w.items[j])) ==> ItemsCost(v, i) < ItemsCost(w, i)
    decreases |v.items| - i
  {
    hide Size;
    if i < |v.items| {
      ItemsCostAtMost(v, w, i + 1);
    }
  }

  lemma {:induction false} FieldsCostAtMost(v: Value, w: Value, keys: seq<string>)
    requires v.Obj? && w.Obj? && forall k | k in keys :: k in v.fields && k in w.fields
    requires forall k | k in keys :: Size(v.fields[k]) <= Size(w.fields[k])
    ensures FieldsCost(v, keys) <= FieldsCost(w, keys)
    ensures (exists k :: k in keys && Size(v.fields[k]) < Size(w.fields[k])) ==> FieldsCost(v, keys) < FieldsCost(w, keys)
  {
    hide Size;
    if keys != [] {
      assert keys[0] in keys;
      FieldsCostAtMost(v, w, keys[1..]);
      assert forall k | k in keys :: k == keys[0] || k in keys[1..];
    }
  }

  lemma KeysOfSame(v: Value, w: Value)
    requires v.Obj? && w.Obj? && v.fields.Keys == w.fields.Keys
    ensures Keys(v) == Keys(w)
  {
  }

  lemma {:induction false} EqualNoLonger(v: Value, c: Value)
    requires PyEqual(v, c) && NoBooleanTwin(c)
    ensures Size(v) <= Size(c)
    decreases c
  {
    hide Size, Keys, ItemsCost, FieldsCost;
    if v.Arr? && c.Arr? {
      forall i | 0 <= i < |v.items| ensures Size(v.items[i]) <= Size(c.items[i]) {
        EqualNoLonger(v.items[i], c.items[i]);
      }
      ItemsCostAtMost(v, c, 0);
      SizeOfArray(v);
      SizeOfArray(c);
    } else if v.Obj? && c.Obj? {
      KeysOfSame(v, c);
      forall k | k in Keys(v) ensures Size(v.fields[k]) <= Size(c.fields[k]) {
        EqualNoLonger(v.fields[k], c.fields[k]);
      }
      FieldsCostAtMost(v, c, Keys(v));
      SizeOfObject(v);
      SizeOfObject(c);
    } else if v.Int? && c.Bool? {
      SizeOfInt(v.n);
      SizeOfWord(c);
      assert v.n == 0 || v.n == 1;
    }
  }

  lemma {:induction false} TwinIsEqual(c: Value)
    ensures PyEqual(Twin(c), c)
    decreases c
  {
    match c
    case Arr(items) => forall i | 0 <= i < |items| ensures PyEqual(Twin(items[i]), items[i]) { TwinIsEqual(items[i]); }
    case Obj(fields) => forall k | k in fields ensures PyEqual(Twin(fields[k]), fields[k]) { TwinIsEqual(fields[k]); }
    case _ =>
  }

  lemma {:induction false} TwinNoShorter(c: Value)
    ensures Size(c) <= Size(Twin(c))
    ensures !NoBooleanTwin(c) ==> Size(c) < Size(Twin(c))
    decreases c
  {
    hide Size, Keys, ItemsCost, FieldsCost;
    var t := Twin(c);
    match c
    case Int(n) =>
      SizeOfInt(n);
      SizeOfWord(t);
    case Arr(items) =>
      forall i | 0 <= i < |items|
        ensures Size(items[i]) <= Size(t.items[i])
        ensures !NoBooleanTwin(items[i]) ==> Size(items[i]) < Size(t.items[i])
      {
        TwinNoShorter(items[i]);
      }
      ItemsCostAtMost(c, t, 0);
      SizeOfArray(c);
      SizeOfArray(t);
    case Obj(fields) =>
      KeysOfSame(c, t);
      forall k | k in fields
        ensures Size(fields[k]) <= Size(t.fields[k])
        ensures !NoBooleanTwin(fields[k]) ==> Size(fields[k]) < Size(t.fields[k])
      {
        TwinNoShorter(fields[k]);
      }
      assert forall k | k in fields :: k in Elements(Keys(c));
      FieldsCostAtMost(c, t, Keys(c));
      SizeOfObject(c);
      SizeOfObject(t);
    case _ =>
  }

  /** Of all values that Python calls equal to `c`, the twin is a longest. */
  lemma {:induction false} EqualNoLongerThanTwin(v: Value, c: Value)
    requires PyEqual(v, c)
    ensures Size(v) <= Size(Twin(c))
    decreases c
  {
    hide Size, Keys, ItemsCost, FieldsCost;
    var t := Twin(c);
    if v.Arr? && c.Arr? {
      forall i | 0 <= i < |v.items| ensures Size(v.items[i]) <= Size(t.items[i]) {
        EqualNoLongerThanTwin(v.items[i], c.items[i]);
      }
      ItemsCostAtMost(v, t, 0);
      SizeOfArray(v);
      SizeOfArray(t);
    } else if v.Obj? && c.Obj? {
      KeysOfSame(v, t);
      forall k | k in Keys(v) ensures Size(v.fields[k]) <= Size(t.fields[k]) {
        EqualNoLongerThanTwin(v.fields[k], c.fields[k]);
      }
      FieldsCostAtMost(v, t, Keys(v));
      SizeOfObject(v);
      SizeOfObject(t);
    } else if v.Int? {
      SizeOfInt(v.n);
      if t.Bool? { SizeOfWord(t); }
    }
  }

  /** The constant's twin has the type and is longer than the bound. */
  predicate LongTwin(c: Value, types: TypeKeyword, bound: nat) {
    TypeMatches(Twin(c), types) && Size(Twin(c)) > bound
  }

  predicate SameKind(v: Value, w: Value) {
    (v.Arr? && w.Arr?) || (v.Obj? && w.Obj?) || v == w
  }

  lemma SameKindSameType(v: Value, w: Value, types: TypeKeyword)
    requires SameKind(v, w)
    ensures TypeMatches(v, types) <==> TypeMatches(w, types)
  {
    assert forall t :: IsType(v, t) == IsType(w, t);
  }

  /** A value equal to the constant and of the type is within every bound on the constant, unless the twin
      has the type as well and is over it. */
  lemma EqualWithin(v: Value, c: Value, types: TypeKeyword, bound: nat)
    requires PyEqual(v, c) && TypeMatches(v, types) && Size(c) <= bound && !LongTwin(c, types, bound)
    ensures Size(v) <= bound
  {
    hide TypeMatches, Size, NoBooleanTwin;
    EqualNoLongerThanTwin(v, c);
    if !TypeMatches(Twin(c), types) {
      if SameKind(v, Twin(c)) {
        SameKindSameType(v, Twin(c), types);
      } else {
        ScalarEqual(v, c);
      }
    }
  }

  lemma ScalarEqual(v: Value, c: Value)
    requires PyEqual(v, c) && !SameKind(v, Twin(c))
    ensures Size(v) <= Size(c)
  {
    if v.Int? && c.Bool? {
      SizeOfInt(v.n);
      SizeOfWord(c);
    }
  }

  ghost predicate Dominates(c: Checker, s: Schema, bound: nat) {
    forall v, f :: c.Validate(v, s, f) == Valid ==> Size(v) <= bound
  }

  /** A node that holds a type and a constant, or a type and an enumeration, and nothing else. */
  function ConstantNode(types: TypeKeyword, constant: Value): Schema {
    Keywords(types := types, constant := Some(constant))
  }

  function EnumNode(types: TypeKeyword, members: seq<Value>): Schema {
    Keywords(types := types, members := Some(members))
  }

  predicate Bare(s: Schema) {
    && s.ref == None && s.oneOf == NoSchemas && s.anyOf == NoSchemas && s.allOf == [] && s.required == [] && s.properties == []
    && s.additional == AdditionalAbsent && s.maxProperties == None && s.minItems == 0 && s.maxItems == None && s.items == NoSchema
    && s.minLength == 0 && s.maxLength == None && s.pattern == None && s.minimum == None && s.maximum == None
  }

  lemma {:induction false} FreeFields(c: Checker, v: Value, s: Schema, f: nat, keys: seq<string>)
    requires Bare(s) && v.Obj? && forall k | k in keys :: k in v.fields
    ensures c.FieldsFrom(v, s, f, keys) == Valid
  {
    if keys != [] {
      assert keys[0] in keys;
      FreeFields(c, v, s, f, keys[1..]);
    }
  }

  lemma {:induction false} FreeItems(c: Checker, v: Value, s: Schema, f: nat, i: nat)
    requires Bare(s) && v.Arr? && i <= |v.items|
    ensures c.Items(v, s, f, i) == Valid
    decreases |v.items| - i
  {
    if i < |v.items| { FreeItems(c, v, s, f, i + 1); }
  }

  predicate Listed(v: Value, members: seq<Value>) {
    exists i :: 0 <= i < |members| && PyEqual(v, members[i])
  }

  lemma BareValid(c: Checker, v: Value, s: Schema, f: nat)
    requires Bare(s)
    ensures c.Validate(v, s, f) == Valid <==>
            && (s.constant.Some? ==> PyEqual(v, s.constant.value)) && (s.members.Some? ==> Listed(v, s.members.value))
            && TypeMatches(v, s.types)
  {
    hide TypeMatches, PyEqual, Keys;
    hide c.FieldsFrom, c.Items;
    if v.Obj? { FreeFields(c, v, s, f, Keys(v)); }
    if v.Arr? { FreeItems(c, v, s, f, 0); }
  }

  /** The walker's bound for a constant with a type is sound exactly when the constant holds no 0 or 1, or
      the type rules out the boolean in its place. */
  lemma ConstantBoundSoundIff(c: Checker, types: TypeKeyword, constant: Value, g: nat)
    ensures var s := ConstantNode(types, constant);
            && c.WorstCase(s, g) == Some(Size(constant))
            && (Dominates(c, s, Size(constant)) <==> NoBooleanTwin(constant) || !TypeMatches(Twin(constant), types))
  {
    hide TypeMatches, PyEqual, Size, NoBooleanTwin, Twin;
    hide c.Validate;
    var s, twin := ConstantNode(types, constant), Twin(constant);
    TwinNoShorter(constant);
    TwinIsEqual(constant);
    BareValid(c, twin, s, 0);
    if NoBooleanTwin(constant) { EqualNoLonger(twin, constant); }
    if !LongTwin(constant, types, Size(constant)) {
      forall v, f | c.Validate(v, s, f) == Valid ensures Size(v) <= Size(constant) {
        BareValid(c, v, s, f);
        EqualWithin(v, constant, types, Size(constant));
      }
    }
  }

  /** The walker's bound for an enumeration with a type is sound exactly when no member's twin has the type
      and is longer than every member. */
  lemma EnumBoundSoundIff(c: Checker, types: TypeKeyword, members: seq<Value>, g: nat)
    requires members != []
    ensures var s := EnumNode(types, members); var bound := c.WorstCase(s, g);
            && bound == MaxSize(members) && bound.Some?
            && (Dominates(c, s, bound.value) <==> forall i | 0 <= i < |members| :: !LongTwin(members[i], types, bound.value))
  {
    hide TypeMatches, PyEqual, Size, Twin, MaxSize;
    hide c.Validate;
    MaxSizeCovers(members, 0);
    var s, bound := EnumNode(types, members), MaxSize(members).value;
    if forall i | 0 <= i < |members| :: !LongTwin(members[i], types, bound) {
      forall v, f | c.Validate(v, s, f) == Valid ensures Size(v) <= bound {
        BareValid(c, v, s, f);
        var i :| 0 <= i < |members| && PyEqual(v, members[i]);
        MaxSizeCovers(members, i);
        EqualWithin(v, members[i], types, bound);
      }
    } else {
      var i :| 0 <= i < |members| && LongTwin(members[i], types, bound);
      TwinIsEqual(members[i]);
      BareValid(c, Twin(members[i]), s, 0);
    }
  }

  // ---------------------------------------------------------------- leaves

  lemma PatternBound(p: Pattern, s: string, engine: (string, string) -> bool)
    requires PatternMaxChars(p).Some? && Matches(p, s, engine)
    ensures Size(Str(s)) <= 2 + PatternMaxChars(p).value
  {
    hide Size, EscapedSize;
    SizeOfString(s);
    PatternIsPlain(p, s, engine);
    EscapedSizeBound(s);
  }

  lemma PatternIsPlain(p: Pattern, s: string, engine: (string, string) -> bool)
    requires PatternMaxChars(p).Some? && Matches(p, s, engine)
    ensures |s| <= PatternMaxChars(p).value && forall i | 0 <= i < |s| :: IsPlain(s[i])
  {
    assert forall i | 0 <= i < |s| :: IsPlain(s[i]) by {
      match p
      case Sha256Tag =>
        assert forall i | 7 <= i < |s| :: s[i] == s[7..][i - 7];
      case Hex64 => case Hex7To64 => case Hex40To64 => case Slug =>
      case TargetPath => case EvidencePath =>
    }
  }

  lemma IntegerBound(low: int, n: int, high: int)
    requires low <= n <= high
    ensures Size(Int(n)) <= Max(Size(Int(low)), Size(Int(high)))
  {
    SizeOfInt(low);
    SizeOfInt(n);
    SizeOfInt(high);
    Decimal.TextBetween(low, n, high);
  }

  lemma {:induction false} MaxSizeCovers(values: seq<Value>, i: nat)
    requires i < |values|
    ensures MaxSize(values).Some? && Size(values[i]) <= MaxSize(values).value
  {
    if i > 0 {
      MaxSizeCovers(values[1..], i - 1);
    }
  }

  // ---------------------------------------------------------------- containers

  lemma {:induction false} ItemsWithin(v: Value, i: nat, bound: nat)
    requires v.Arr? && i <= |v.items| && forall j | i <= j < |v.items| :: Size(v.items[j]) <= bound
    ensures ItemsCost(v, i) <= (|v.items| - i) * bound
    decreases |v.items| - i
  {
    hide Size;
    if i < |v.items| {
      ItemsWithin(v, i + 1, bound);
      Distribute(|v.items| - i - 1, bound);
    }
  }

  lemma Distribute(a: nat, bound: nat)
    ensures (a + 1) * bound == a * bound + bound
  {
  }

  lemma ProductMonotone(a: nat, b: nat, bound: nat)
    requires a <= b
    ensures a * bound <= b * bound
  {
  }

  lemma {:induction false} FieldsCostWithoutAt(v: Value, keys: seq<string>, i: nat)
    requires v.Obj? && (forall k | k in keys :: k in v.fields) && i < |keys|
    ensures keys[i] in v.fields && forall k | k in keys[..i] + keys[i + 1..] :: k in v.fields
    ensures FieldsCost(v, keys) == MemberCost(v, keys[i]) + FieldsCost(v, keys[..i] + keys[i + 1..])
  {
    hide MemberCost;
    assert keys[i] in keys;
    var rest := keys[..i] + keys[i + 1..];
    assert forall k | k in rest :: k in keys;
    if i == 0 {
      assert rest == keys[1..];
    } else {
      FieldsCostWithoutAt(v, keys[1..], i - 1);
      assert rest[0] == keys[0] && rest[1..] == keys[1..][..i - 1] + keys[1..][i..];
    }
  }

  /** The properties from index `i` on, as the walker sums them. */
  ghost predicate FieldBounded(c: Checker, v: Value, props: seq<Property>, depth: nat, k: string)
    requires v.Obj? && k in v.fields
  {
    PropertySchema(props, k).TheSchema? &&
    var sub := PropertySchema(props, k).schema;
    c.WorstCase(sub, depth).Some? ==> Size(v.fields[k]) <= c.WorstCase(sub, depth).value
  }

  /** Fields drawn from the declared properties, each once and each within its own bound, cost at
      most the walker's total and number at most the properties. */
  lemma {:induction false} FieldsWithin(c: Checker, v: Value, s: Schema, depth: nat, i: nat, keys: seq<string>)
    requires v.Obj? && i <= |s.properties| && c.PropertiesTotal(s, depth, i).Some?
    requires forall k | k in keys :: k in v.fields && FieldBounded(c, v, s.properties[i..], depth, k)
    requires forall a, b | 0 <= a < b < |keys| :: keys[a] != keys[b]
    ensures FieldsCost(v, keys) <= c.PropertiesTotal(s, depth, i).value
    ensures |keys| <= |s.properties| - i
    decreases |s.properties| - i
  {
    hide c.WorstCase, c.MaxOver;
    hide Size;
    var props := s.properties[i..];
    assert keys != [] ==> keys[0] in keys;
    if i < |s.properties| {
      assert props[1..] == s.properties[i + 1..];
      var name := props[0].name;
      if name in keys {
        var at :| 0 <= at < |keys| && keys[at] == name;
        var rest := keys[..at] + keys[at + 1..];
        FieldsCostWithoutAt(v, keys, at);
        assert forall k | k in rest :: k in keys && k != name;
        FieldsWithin(c, v, s, depth, i + 1, rest);
      } else {
        FieldsWithin(c, v, s, depth, i + 1, keys);
      }
    }
  }

  // ---------------------------------------------------------------- soundness

  /** What the walker relies on without checking: every object node it reaches forbids extra keys in
      so many words, and at every constant and enumeration it reaches no twin of the type is over the bound. */
  predicate Strict(s: Schema)
    decreases s
  {
    if s.ref.Some? then true
    else if s.oneOf.Schemas? then
      var options := s.oneOf.list;
      forall i | 0 <= i < |options| :: Strict(options[i])
    else if s.constant.Some? then !LongTwin(s.constant.value, s.types, Size(s.constant.value))
    else if s.members.Some? then
      var members := s.members.value;
      forall i | 0 <= i < |members| && MaxSize(members).Some? :: !LongTwin(members[i], s.types, MaxSize(members).value)
    else
      && (s.types == OneType(TArray) && s.items.TheSchema? ==> Strict(s.items.schema))
      && (s.types == OneType(TObject) ==>
            s.additional == AdditionalFalse && forall i | 0 <= i < |s.properties| :: Strict(s.properties[i].schema))
  }

  ghost predicate AllStrict(defs: Defs) {
    forall name | name in defs :: Strict(defs[name])
  }

  lemma {:induction false} AnAlternativeHolds(c: Checker, v: Value, options: seq<Schema>, s: Schema, depth: nat, i: nat) returns (j: nat)
    requires s.oneOf == Schemas.Schemas(options) && i <= |options|
    requires c.Successes(v, options, s, depth, i).Some? && c.Successes(v, options, s, depth, i).value > 0
    ensures i <= j < |options| && c.Validate(v, options[j], depth) == Valid
    decreases |options| - i
  {
    hide c.Validate;
    if c.Validate(v, options[i], depth) == Valid {
      j := i;
    } else {
      j := AnAlternativeHolds(c, v, options, s, depth, i + 1);
    }
  }

  lemma {:induction false} MaxOverCovers(c: Checker, options: seq<Schema>, s: Schema, depth: nat, i: nat, j: nat)
    requires s.oneOf == Schemas.Schemas(options) && i <= j < |options| && c.MaxOver(options, s, depth, i).Some?
    ensures c.WorstCase(options[j], depth).Some?
    ensures c.WorstCase(options[j], depth).value <= c.MaxOver(options, s, depth, i).value
    decreases j - i
  {
    hide c.WorstCase;
    if i < j { MaxOverCovers(c, options, s, depth, i + 1, j); }
  }

  lemma {:induction false} EachItemValid(c: Checker, v: Value, s: Schema, depth: nat, i: nat, j: nat)
    requires v.Arr? && s.items.TheSchema? && i <= j < |v.items| && c.Items(v, s, depth, i) == Valid
    ensures c.Validate(v.items[j], s.items.schema, depth) == Valid
    decreases j - i
  {
    hide c.Validate;
    if i < j { EachItemValid(c, v, s, depth, i + 1, j); }
  }

  lemma {:induction false} AllFieldsValid(c: Checker, v: Value, s: Schema, depth: nat, keys: seq<string>)
    requires v.Obj? && forall k | k in keys :: k in v.fields
    requires forall k | k in keys && c.FieldSchema(s, k).TheSchema? :: c.Validate(v.fields[k], c.FieldSchema(s, k).schema, depth) == Valid
    ensures c.FieldsFrom(v, s, depth, keys) == Valid
  {
    hide c.Validate, c.FieldSchema;
    if keys != [] {
      assert keys[0] in keys;
      AllFieldsValid(c, v, s, depth, keys[1..]);
    }
  }

  lemma {:induction false} AFieldValid(c: Checker, v: Value, s: Schema, depth: nat, keys: seq<string>, k: string)
    requires v.Obj? && (forall x | x in keys :: x in v.fields) && k in keys
    requires c.FieldsFrom(v, s, depth, keys) == Valid && c.FieldSchema(s, k).TheSchema?
    ensures c.Validate(v.fields[k], c.FieldSchema(s, k).schema, depth) == Valid
  {
    hide c.Validate, c.FieldSchema;
    assert keys[0] in keys;
    if k != keys[0] {
      assert k in keys[1..];
      AFieldValid(c, v, s, depth, keys[1..], k);
    }
  }

  lemma {:induction false} APropertyIsStrict(c: Checker, s: Schema, depth: nat, i: nat, k: string)
    requires i <= |s.properties| && c.PropertiesTotal(s, depth, i).Some?
    requires PropertySchema(s.properties[i..], k).TheSchema?
    ensures exists j :: i <= j < |s.properties| && s.properties[j].schema == PropertySchema(s.properties[i..], k).schema
    ensures c.WorstCase(PropertySchema(s.properties[i..], k).schema, depth).Some?
    decreases |s.properties| - i
  {
    hide c.WorstCase;
    var props := s.properties[i..];
    assert props[1..] == s.properties[i + 1..];
    if props[0].name != k { APropertyIsStrict(c, s, depth, i + 1, k); }
  }

  /** A valid value of an object node that forbids extra keys, given the bound for its fields. */
  lemma ObjectWithin(c: Checker, v: Value, s: Schema, depth: nat)
    requires v.Obj? && c.PropertiesTotal(s, depth, 0).Some?
    requires forall k | k in v.fields :: FieldBounded(c, v, s.properties, depth, k)
    ensures Size(v) <= 2 + (if s.properties == [] then 0 else |s.properties| - 1) + c.PropertiesTotal(s, depth, 0).value
  {
    hide Size, Keys, FieldsCost, FieldBounded;
    hide c.WorstCase, c.PropertiesTotal;
    SizeOfObject(v);
    assert s.properties[0..] == s.properties;
    KeysAreDistinct(v);
    FieldsWithin(c, v, s, depth, 0, Keys(v));
  }

  lemma KeysAreDistinct(v: Value)
    requires v.Obj?
    ensures forall a, b | 0 <= a < b < |Keys(v)| :: Keys(v)[a] != Keys(v)[b]
    ensures forall k | k in v.fields :: k in Keys(v)
  {
    assert forall k | k in v.fields :: k in Elements(Keys(v));
  }

  lemma ArrayWithin(v: Value, count: nat, bound: nat)
    requires v.Arr? && |v.items| <= count && forall j | 0 <= j < |v.items| :: Size(v.items[j]) <= bound
    ensures Size(v) <= 2 + count * bound + (if count == 0 then 0 else count - 1)
  {
    hide Size, ItemsCost;
    SizeOfArray(v);
    ItemsWithin(v, 0, bound);
    ProductMonotone(|v.items|, count, bound);
  }

  lemma LeafSound(c: Checker, v: Value, s: Schema, f: nat, g: nat)
    requires Strict(s) && s.ref == None && s.oneOf == NoSchemas
    requires s.constant.Some? || s.members.Some? || s.types in {OneType(TString), OneType(TInteger), OneType(TBoolean)}
    requires c.Validate(v, s, f) == Valid && c.WorstCase(s, g).Some?
    ensures Size(v) <= c.WorstCase(s, g).value
  {
    hide Size, LongTwin, PatternMaxChars, Matches, EscapedSize, MaxSize;
    hide c.OneOf, c.AnyOf, c.AllOf, c.Fields, c.Items, c.PropertiesTotal, c.MaxOver;
    if s.constant.Some? {
      EqualWithin(v, s.constant.value, s.types, Size(s.constant.value));
    } else if s.members.Some? {
      var i :| 0 <= i < |s.members.value| && PyEqual(v, s.members.value[i]);
      MaxSizeCovers(s.members.value, i);
      EqualWithin(v, s.members.value[i], s.types, MaxSize(s.members.value).value);
    } else if s.types == OneType(TString) {
      SizeOfString(v.s);
      EscapedSizeBound(v.s);
      if s.pattern.Some? { PatternBound(s.pattern.value, v.s, c.engine); }
    } else if s.types == OneType(TInteger) {
      IntegerBound(s.minimum.value, v.n, s.maximum.value);
    } else {
      SizeOfWord(v);
    }
  }

  /** The byte bound of the static walker holds for every value the validator accepts, whatever the
      nesting of references, alternatives, objects and arrays. */
  lemma {:induction false} BoundSound(c: Checker, v: Value, s: Schema, f: nat, g: nat)
    requires AllStrict(c.defs) && Strict(s)
    requires c.Validate(v, s, f) == Valid && c.WorstCase(s, g).Some?
    ensures Size(v) <= c.WorstCase(s, g).value
    decreases g, s
  {
    hide Size, LongTwin, PatternMaxChars, Matches;
    hide c.AnyOf, c.AllOf, c.Fields, c.Items, c.PropertiesTotal, c.MaxOver, c.Successes;
    if s.ref.Some? {
      BoundSound(c, v, c.defs[s.ref.value.name], f - 1, g - 1);
    } else if s.oneOf.Schemas? {
      var options := s.oneOf.list;
      var j := AnAlternativeHolds(c, v, options, s, f, 0);
      MaxOverCovers(c, options, s, g, 0, j);
      BoundSound(c, v, options[j], f, g);
    } else if s.constant.Some? || s.members.Some? {
      LeafSound(c, v, s, f, g);
    } else if s.types == OneType(TArray) {
      ArraySound(c, v, s, f, g);
    } else if s.types == OneType(TObject) {
      ObjectSound(c, v, s, f, g);
    } else {
      LeafSound(c, v, s, f, g);
    }
  }

  lemma ValidArray(c: Checker, v: Value, s: Schema, f: nat)
    requires s.ref == None && v.Arr? && c.Validate(v, s, f) == Valid
    ensures c.ItemCountOk(v, s) && c.Items(v, s, f, 0) == Valid
  {
    hide c.OneOf, c.AnyOf, c.AllOf, c.Items, c.ItemCountOk, PyEqual;
  }

  lemma ValidObject(c: Checker, v: Value, s: Schema, f: nat)
    requires s.ref == None && v.Obj? && c.Validate(v, s, f) == Valid
    ensures c.FieldsOk(v, s) && c.FieldsFrom(v, s, f, Keys(v)) == Valid
  {
    hide c.OneOf, c.AnyOf, c.AllOf, c.FieldsFrom, c.FieldsOk, PyEqual, Keys;
  }

  lemma {:induction false} ArraySound(c: Checker, v: Value, s: Schema, f: nat, g: nat)
    requires AllStrict(c.defs) && Strict(s)
    requires s.ref == None && s.oneOf == NoSchemas && s.constant == None && s.members == None && s.types == OneType(TArray)
    requires c.Validate(v, s, f) == Valid && c.WorstCase(s, g).Some?
    ensures Size(v) <= c.WorstCase(s, g).value
    decreases g, s, 0
  {
    hide Size;
    hide c.OneOf, c.AnyOf, c.AllOf, c.Fields, c.Items, c.PropertiesTotal, c.MaxOver;
    ValidArray(c, v, s, f);
    var bound := c.WorstCase(s.items.schema, g).value;
    forall j | 0 <= j < |v.items| ensures Size(v.items[j]) <= bound {
      EachItemValid(c, v, s, f, 0, j);
      BoundSound(c, v.items[j], s.items.schema, f, g);
    }
    ArrayWithin(v, s.maxItems.value, bound);
  }

  lemma {:induction false} ObjectSound(c: Checker, v: Value, s: Schema, f: nat, g: nat)
    requires AllStrict(c.defs) && Strict(s)
    requires s.ref == None && s.oneOf == NoSchemas && s.constant == None && s.members == None && s.types == OneType(TObject)
    requires c.Validate(v, s, f) == Valid && c.WorstCase(s, g).Some?
    ensures Size(v) <= c.WorstCase(s, g).value
    decreases g, s, 0
  {
    hide Size, Keys;
    hide c.OneOf, c.AnyOf, c.AllOf, c.Fields, c.FieldsFrom, c.Items, c.PropertiesTotal, c.MaxOver;
    ValidObject(c, v, s, f);
    KeysAreDistinct(v);
    assert s.properties[0..] == s.properties;
    forall k | k in v.fields ensures FieldBounded(c, v, s.properties, g, k) {
      AFieldValid(c, v, s, f, Keys(v), k);
      APropertyIsStrict(c, s, g, 0, k);
      var sub := PropertySchema(s.properties, k).schema;
      BoundSound(c, v.fields[k], sub, f, g);
    }
    ObjectWithin(c, v, s, g);
  }

  // ---------------------------------------------------------------- where the walker is wrong

  /** An object node with no keyword but the ones an object normally has. The walker reads an absent
      `additionalProperties` as false; the validator does not. */
  predicate PlainObject(s: Schema) {
    && s.ref == None && s.constant == None && s.members == None && s.types == OneType(TObject)
    && s.oneOf == NoSchemas && s.anyOf == NoSchemas && s.allOf == [] && s.maxProperties == None
    && (s.additional == AdditionalAbsent || s.additional == AdditionalFalse)
  }

  lemma {:induction false} KeyCosts(v: Value, keys: seq<string>, k: string)
    requires v.Obj? && (forall x | x in keys :: x in v.fields) && k in keys
    ensures FieldsCost(v, keys) > |k|
  {
    hide Size;
    assert keys[0] in keys;
    if keys[0] == k {
      SizeOfString(k);
      EscapedSizeBound(k);
    } else {
      KeyCosts(v, keys[1..], k);
    }
  }

  lemma KeyWithin(v: Value, k: string)
    requires v.Obj? && k in v.fields
    ensures |k| < Size(v)
  {
    hide Size, Keys, FieldsCost;
    KeysAreDistinct(v);
    SizeOfObject(v);
    KeyCosts(v, Keys(v), k);
  }

  lemma {:induction false} NameWithin(c: Checker, s: Schema, depth: nat, i: nat, j: nat)
    requires i <= j < |s.properties| && c.PropertiesTotal(s, depth, i).Some?
    ensures |s.properties[j].name| < c.PropertiesTotal(s, depth, i).value
    decreases j - i
  {
    hide c.WorstCase;
    hide Size;
    if i < j {
      NameWithin(c, s, depth, i + 1, j);
    } else {
      SizeOfString(s.properties[j].name);
      EscapedSizeBound(s.properties[j].name);
    }
  }

  lemma PlainObjectValid(c: Checker, v: Value, s: Schema, f: nat)
    requires PlainObject(s)
    ensures c.Validate(v, s, f) == Valid <==> v.Obj? && c.FieldsOk(v, s) && c.FieldsFrom(v, s, f, Keys(v)) == Valid
  {
    hide c.FieldsFrom, Keys, c.FieldsOk;
  }

  /** A further key, unknown to the schema, keeps a value valid when extra keys are not forbidden. */
  lemma ExtraKeyStaysValid(c: Checker, v: Value, s: Schema, f: nat, k: string)
    requires PlainObject(s) && s.additional == AdditionalAbsent && PropertySchema(s.properties, k) == NoSchema
    requires c.Validate(v, s, f) == Valid
    ensures v.Obj? && c.Validate(Obj(v.fields[k := Null]), s, f) == Valid
  {
    hide c.Validate, c.FieldsFrom;
    hide Keys;
    PlainObjectValid(c, v, s, f);
    var w := Obj(v.fields[k := Null]);
    PlainObjectValid(c, w, s, f);
    KeysAreDistinct(v);
    KeysAreDistinct(w);
    forall x | x in Keys(w) && c.FieldSchema(s, x).TheSchema?
      ensures c.Validate(w.fields[x], c.FieldSchema(s, x).schema, f) == Valid
    {
      AFieldValid(c, v, s, f, Keys(v), x);
    }
    AllFieldsValid(c, w, s, f, Keys(w));
  }

  ghost predicate Inhabited(c: Checker, s: Schema) {
    exists v, f :: c.Validate(v, s, f) == Valid
  }

  /** For a plain object node that some value satisfies, the walker's bound is sound exactly when the
      node says `additionalProperties: false`. */
  lemma ObjectBoundSoundIff(c: Checker, s: Schema, g: nat)
    requires PlainObject(s) && AllStrict(c.defs) && (forall i | 0 <= i < |s.properties| :: Strict(s.properties[i].schema))
    requires c.WorstCase(s, g).Some? && Inhabited(c, s)
    ensures Dominates(c, s, c.WorstCase(s, g).value) <==> s.additional == AdditionalFalse
  {
    hide Size;
    hide c.Validate, c.PropertiesTotal;
    var bound := c.WorstCase(s, g).value;
    if s.additional == AdditionalFalse {
      forall v, f | c.Validate(v, s, f) == Valid ensures Size(v) <= bound { BoundSound(c, v, s, f, g); }
    } else {
      var v, f :| c.Validate(v, s, f) == Valid;
      var k := seq(bound + 1, _ => 'k');
      PropertyIsMember(s.properties, k);
      forall p | p in s.properties ensures p.name != k {
        var j :| 0 <= j < |s.properties| && s.properties[j] == p;
        NameWithin(c, s, g, 0, j);
      }
      ExtraKeyStaysValid(c, v, s, f, k);
      KeyWithin(Obj(v.fields[k := Null]), k);
    }
  }
}
