/** The validator and the static walker as the program runs them: recursion with loops that count
    successes and sum totals. Each computes its specification function. */
module SchemaMethods {
  import opened Outcomes
  import opened Sorting
  import opened Json
  import opened Schema

  // ---------------------------------------------------------------- validate_schema

  method ValidateSchema(c: Checker, v: Value, s: Schema, depth: nat) returns (verdict: Verdict)
    ensures verdict == c.Validate(v, s, depth)
    decreases depth, s, 9, 0
  {
    if s.ref.Some? {
      match s.ref.value
      case Foreign(_) =>
        return Invalid;
      case Local(name) =>
        if name !in c.defs || depth == 0 {
          return Abort;
        }
        verdict := ValidateSchema(c, v, c.defs[name], depth - 1);
        return;
    }
    if s.constant.Some? && !PyEqual(v, s.constant.value) {
      return Invalid;
    }
    if s.members.Some? && !(exists i :: 0 <= i < |s.members.value| && PyEqual(v, s.members.value[i])) {
      return Invalid;
    }
    if !TypeMatches(v, s.types) {
      return Invalid;
    }
    verdict := ValidateCombined(c, v, s, depth);
    if verdict != Valid {
      return;
    }
    match v
    case Obj(_) =>
      verdict := ValidateFields(c, v, s, depth);
    case Arr(_) =>
      if c.ItemCountOk(v, s) {
        verdict := ValidateItems(c, v, s, depth);
      } else {
        verdict := Invalid;
      }
    case Str(text) =>
      verdict := if c.TextOk(text, s) then Valid else Invalid;
    case Int(n) =>
      verdict := if c.NumberOk(n, s) then Valid else Invalid;
    case _ =>
  }

  /** The `oneOf`, `anyOf` and `allOf` keywords in turn. */
  method ValidateCombined(c: Checker, v: Value, s: Schema, depth: nat) returns (verdict: Verdict)
    ensures c.OneOf(v, s, depth) != Valid ==> verdict == c.OneOf(v, s, depth)
    ensures c.OneOf(v, s, depth) == Valid && c.AnyOf(v, s, depth) != Valid ==> verdict == c.AnyOf(v, s, depth)
    ensures c.OneOf(v, s, depth) == Valid && c.AnyOf(v, s, depth) == Valid ==> verdict == c.AllOf(v, s, depth, 0)
    decreases depth, s, 8, 0
  {
    hide c.Validate, c.Successes, c.AnyFrom, c.AllOf;
    if s.oneOf.Schemas? {
      var options := s.oneOf.list;
      var successes := CountSuccesses(c, v, options, s, depth);
      if successes == None {
        return Abort;
      }
      if successes.value != 1 {
        return Invalid;
      }
    }
    if s.anyOf.Schemas? {
      verdict := ValidateAny(c, v, s.anyOf.list, s, depth);
      if verdict != Valid {
        return;
      }
    }
    verdict := ValidateAll(c, v, s, depth);
  }

  method CountSuccesses(c: Checker, v: Value, options: seq<Schema>, s: Schema, depth: nat) returns (count: Option<nat>)
    requires s.oneOf == Schemas.Schemas(options)
    ensures count == c.Successes(v, options, s, depth, 0)
    decreases depth, s, 7, 0
  {
    hide c.Validate;
    var successes := 0;
    for i := 0 to |options|
      invariant match c.Successes(v, options, s, depth, i)
                case None => c.Successes(v, options, s, depth, 0) == None
                case Some(n) => c.Successes(v, options, s, depth, 0) == Some(successes + n)
    {
      var verdict := ValidateSchema(c, v, options[i], depth);
      if verdict == Abort {
        return None;
      }
      if verdict == Valid {
        successes := successes + 1;
      }
    }
    count := Some(successes);
  }

  method ValidateAny(c: Checker, v: Value, options: seq<Schema>, s: Schema, depth: nat) returns (verdict: Verdict)
    requires s.anyOf == Schemas.Schemas(options)
    ensures verdict == c.AnyFrom(v, options, s, depth, 0)
    decreases depth, s, 7, 0
  {
    hide c.Validate;
    for i := 0 to |options|
      invariant c.AnyFrom(v, options, s, depth, 0) == c.AnyFrom(v, options, s, depth, i)
    {
      verdict := ValidateSchema(c, v, options[i], depth);
      if verdict != Invalid {
        return;
      }
    }
    verdict := Invalid;
  }

  method ValidateMaybe(c: Checker, v: Value, m: MaybeSchema, s: Schema, depth: nat) returns (verdict: Verdict)
    requires m.TheSchema? ==> m.schema < s
    ensures verdict == c.Maybe(v, m, s, depth)
    decreases depth, s, 1, 0
  {
    if m.NoSchema? {
      verdict := Valid;
    } else {
      verdict := ValidateSchema(c, v, m.schema, depth);
    }
  }

  method ValidateClause(c: Checker, v: Value, s: Schema, depth: nat, i: nat) returns (verdict: Verdict)
    requires i < |s.allOf|
    ensures verdict == c.ClauseVerdict(v, s, depth, i)
    decreases depth, s, 6, 0
  {
    hide c.Validate, c.Maybe;
    match s.allOf[i]
    case Plain(sub) =>
      verdict := ValidateSchema(c, v, sub, depth);
    case Conditional(test, thenPart, elsePart) =>
      verdict := ValidateSchema(c, v, test, depth);
      if verdict == Valid {
        verdict := ValidateMaybe(c, v, thenPart, s, depth);
      } else if verdict == Invalid {
        verdict := ValidateMaybe(c, v, elsePart, s, depth);
      }
  }

  method ValidateAll(c: Checker, v: Value, s: Schema, depth: nat) returns (verdict: Verdict)
    ensures verdict == c.AllOf(v, s, depth, 0)
    decreases depth, s, 7, 0
  {
    hide c.Validate, c.ClauseVerdict;
    for i := 0 to |s.allOf|
      invariant c.AllOf(v, s, depth, 0) == c.AllOf(v, s, depth, i)
    {
      verdict := ValidateClause(c, v, s, depth, i);
      if verdict != Valid {
        return;
      }
    }
    verdict := Valid;
  }

  method ValidateFields(c: Checker, v: Value, s: Schema, depth: nat) returns (verdict: Verdict)
    requires v.Obj?
    ensures verdict == c.Fields(v, s, depth)
    decreases depth, s, 7, 0
  {
    hide c.Validate, c.Maybe, Keys;
    if !c.FieldsOk(v, s) {
      return Invalid;
    }
    var keys := Keys(v);
    for i := 0 to |keys|
      invariant c.FieldsFrom(v, s, depth, keys) == c.FieldsFrom(v, s, depth, keys[i..])
    {
      assert keys[i..][1..] == keys[i + 1..];
      verdict := ValidateMaybe(c, v.fields[keys[i]], c.FieldSchema(s, keys[i]), s, depth);
      if verdict != Valid {
        return;
      }
    }
    verdict := Valid;
  }

  method ValidateItems(c: Checker, v: Value, s: Schema, depth: nat) returns (verdict: Verdict)
    requires v.Arr?
    ensures verdict == c.Items(v, s, depth, 0)
    decreases depth, s, 7, 0
  {
    hide c.Validate, c.Maybe;
    for i := 0 to |v.items|
      invariant c.Items(v, s, depth, 0) == c.Items(v, s, depth, i)
    {
      verdict := ValidateMaybe(c, v.items[i], s.items, s, depth);
      if verdict != Valid {
        return;
      }
    }
    verdict := Valid;
  }

  // ---------------------------------------------------------------- schema_worst_case_canonical_bytes

  method WorstCaseBytes(c: Checker, s: Schema, depth: nat) returns (bound: Option<nat>)
    ensures bound == c.WorstCase(s, depth)
    decreases depth, s, 9, 0
  {
    hide MaxSize, Size;
    if s.ref.Some? {
      var name := match s.ref.value case Local(name) => name case Foreign(name) => name;
      if name !in c.defs || depth == 0 {
        return None;
      }
      bound := WorstCaseBytes(c, c.defs[name], depth - 1);
    } else if s.oneOf.Schemas? {
      bound := LargestAlternative(c, s.oneOf.list, s, depth);
    } else if s.constant.Some? {
      bound := Some(Size(s.constant.value));
    } else if s.members.Some? {
      bound := MaxSize(s.members.value);
    } else if s.types == OneType(TArray) {
      if s.maxItems == None || s.items == NoSchema {
        return None;
      }
      var count := s.maxItems.value;
      var item := WorstCaseBytes(c, s.items.schema, depth);
      bound := if item == None then None else Some(2 + count * item.value + if count == 0 then 0 else count - 1);
    } else if s.types == OneType(TObject) {
      bound := ObjectBytes(c, s, depth);
    } else {
      match s.types
      case OneType(TString) =>
        if s.pattern.Some? {
          var chars := PatternMaxChars(s.pattern.value);
          bound := if chars == None then None else Some(2 + chars.value);
        } else {
          bound := if s.maxLength == None then None else Some(2 + 6 * s.maxLength.value);
        }
      case OneType(TInteger) =>
        if s.minimum == None || s.maximum == None || s.minimum.value > s.maximum.value {
          return None;
        }
        bound := Some(Max(Size(Int(s.minimum.value)), Size(Int(s.maximum.value))));
      case OneType(TBoolean) =>
        bound := Some(5);
      case _ =>
        bound := None;
    }
  }

  method LargestAlternative(c: Checker, options: seq<Schema>, s: Schema, depth: nat) returns (bound: Option<nat>)
    requires s.oneOf == Schemas.Schemas(options)
    ensures bound == if options == [] then None else c.MaxOver(options, s, depth, 0)
    decreases depth, s, 8, 0
  {
    hide c.WorstCase;
    if options == [] {
      return None;
    }
    bound := WorstCaseBytes(c, options[0], depth);
    if bound == None {
      return;
    }
    var largest := bound.value;
    for i := 1 to |options|
      invariant i == |options| ==> c.MaxOver(options, s, depth, 0) == Some(largest)
      invariant i < |options| ==>
                  c.MaxOver(options, s, depth, 0) ==
                  match c.MaxOver(options, s, depth, i) case None => None case Some(n) => Some(Max(largest, n))
    {
      bound := WorstCaseBytes(c, options[i], depth);
      if bound == None {
        return;
      }
      largest := Max(largest, bound.value);
    }
    bound := Some(largest);
  }

  method ObjectBytes(c: Checker, s: Schema, depth: nat) returns (bound: Option<nat>)
    requires s.ref == None && s.oneOf == NoSchemas && s.constant == None && s.members == None && s.types == OneType(TObject)
    ensures bound == c.WorstCase(s, depth)
    decreases depth, s, 8, 0
  {
    hide Size, c.MaxOver;
    if s.additional != AdditionalAbsent && s.additional != AdditionalFalse {
      return None;
    }
    var start := 2 + if s.properties == [] then 0 else |s.properties| - 1;
    var total := start;
    for i := 0 to |s.properties|
      invariant match c.PropertiesTotal(s, depth, i)
                case None => c.PropertiesTotal(s, depth, 0) == None
                case Some(rest) => c.PropertiesTotal(s, depth, 0) == Some(total - start + rest)
      invariant total >= start
    {
      var one := WorstCaseBytes(c, s.properties[i].schema, depth);
      if one == None {
        return None;
      }
      total := total + Size(Str(s.properties[i].name)) + 1 + one.value;
    }
    bound := Some(total);
  }
}
