/** The strict schema subset: what the validator accepts and the static worst-case size bound. */
module Schema {
  import opened Outcomes
  import opened Sorting
  import opened Json
  import Utf8
  import Decimal

  datatype JType = TObject | TArray | TString | TInteger | TNumber | TBoolean | TNull | TOther

  /** The `type` keyword: absent, one name, or a list of names. */
  datatype TypeKeyword = AnyType | OneType(t: JType) | Types(ts: seq<JType>)

  /** Known ASCII patterns of the action schemas; any other pattern text is `Unlisted`. */
  datatype Pattern =
    | Sha256Tag      // sha256: and 64 hex digits
    | Hex64          // 64 hex digits
    | Hex7To64       // 7 to 64 hex digits
    | Hex40To64      // 40 to 64 hex digits
    | Slug           // a lower-case identifier of 1 to 64 characters
    | TargetPath     // target.txt, or a path of 1 to 900 characters under target-src/
    | EvidencePath   // the same, or vision.md
    | Unlisted(text: string)

  datatype Reference = Local(name: string) | Foreign(lastPart: string)

  datatype Schemas = NoSchemas | Schemas(list: seq<Schema>)
  datatype MaybeSchema = NoSchema | TheSchema(schema: Schema)
  datatype Additional = AdditionalAbsent | AdditionalFalse | AdditionalTrue | AdditionalSchema(schema: Schema)
  datatype Property = Property(name: string, schema: Schema)
  datatype Clause = Plain(schema: Schema) | Conditional(test: Schema, thenPart: MaybeSchema, elsePart: MaybeSchema)

  datatype Schema = Keywords(
    ref: Option<Reference> := None,
    constant: Option<Value> := None,
    members: Option<seq<Value>> := None,
    types: TypeKeyword := AnyType,
    oneOf: Schemas := NoSchemas,
    anyOf: Schemas := NoSchemas,
    allOf: seq<Clause> := [],
    required: seq<string> := [],
    properties: seq<Property> := [],
    additional: Additional := AdditionalAbsent,
    maxProperties: Option<nat> := None,
    minItems: nat := 0,
    maxItems: Option<nat> := None,
    items: MaybeSchema := NoSchema,
    minLength: nat := 0,
    maxLength: Option<nat> := None,
    pattern: Option<Pattern> := None,
    minimum: Option<int> := None,
    maximum: Option<int> := None)

  type Defs = map<string, Schema>

  // ---------------------------------------------------------------- Python equality

  /** `v == w` as the validator compares: booleans equal the integers 0 and 1. */
  predicate PyEqual(v: Value, w: Value)
    decreases v
  {
    if v.Arr? && w.Arr? then
      |v.items| == |w.items| && forall i | 0 <= i < |v.items| :: PyEqual(v.items[i], w.items[i])
    else if v.Obj? && w.Obj? then
      v.fields.Keys == w.fields.Keys && forall k | k in v.fields :: PyEqual(v.fields[k], w.fields[k])
    else if (v.Bool? || v.Int?) && (w.Bool? || w.Int?) then AsInt(v) == AsInt(w)
    else v == w
  }

  function AsInt(v: Value): int
    requires v.Bool? || v.Int?
  {
    match v
    case Bool(b) => if b then 1 else 0
    case Int(n) => n
  }

  // ---------------------------------------------------------------- pattern matching

  predicate IsHex(c: char) { '0' <= c <= '9' || 'a' <= c <= 'f' }

  predicate IsSlugChar(c: char) { '0' <= c <= '9' || 'a' <= c <= 'z' || c == '.' || c == '_' || c == '-' }

  predicate IsPathChar(c: char) {
    '0' <= c <= '9' || 'a' <= c <= 'z' || 'A' <= c <= 'Z' || c == '.' || c == '_' || c == '-' || c == '/'
  }

  predicate IsHexText(s: string, low: nat, high: nat) {
    low <= |s| <= high && forall i | 0 <= i < |s| :: IsHex(s[i])
  }

  predicate IsTargetPath(s: string) {
    s == "target.txt"
    || ("target-src/" <= s && 12 <= |s| <= 911 && forall i | 11 <= i < |s| :: IsPathChar(s[i]))
  }

  /** `re.fullmatch`; a pattern outside the table is decided by the regular-expression engine. */
  predicate Matches(p: Pattern, s: string, engine: (string, string) -> bool) {
    match p
    case Sha256Tag => "sha256:" <= s && IsHexText(s[7..], 64, 64)
    case Hex64 => IsHexText(s, 64, 64)
    case Hex7To64 => IsHexText(s, 7, 64)
    case Hex40To64 => IsHexText(s, 40, 64)
    case Slug => 1 <= |s| <= 64 && s[0] !in {'.', '_', '-'} && forall i | 0 <= i < |s| :: IsSlugChar(s[i])
    case TargetPath => IsTargetPath(s)
    case EvidencePath => s == "vision.md" || IsTargetPath(s)
    case Unlisted(text) => engine(text, s)
  }

  /** `_PATTERN_MAX_CHARS` */
  function PatternMaxChars(p: Pattern): Option<nat> {
    match p
    case Sha256Tag => Some(71)
    case Hex64 => Some(64)
    case Hex7To64 => Some(64)
    case Hex40To64 => Some(64)
    case Slug => Some(64)
    case TargetPath => Some(911)
    case EvidencePath => Some(911)
    case Unlisted(_) => None
  }

  // ---------------------------------------------------------------- validation

  /** `Abort` is the validator running out of interpreter stack on a reference cycle, or failing to
      find a definition: not a contract error, so no alternative catches it. */
  datatype Verdict = Valid | Invalid | Abort

  function IsType(v: Value, t: JType): bool {
    match t
    case TObject => v.Obj?
    case TArray => v.Arr?
    case TString => v.Str?
    case TInteger => v.Int?
    case TNumber => v.Int?
    case TBoolean => v.Bool?
    case TNull => v.Null?
    case TOther => false
  }

  /** `any(_is_type(value, choice) for choice in choices)`; an unknown type name raises. */
  predicate TypeMatches(v: Value, types: TypeKeyword) {
    match types
    case AnyType => true
    case OneType(t) => IsType(v, t)
    case Types(ts) => exists i :: 0 <= i < |ts| && IsType(v, ts[i]) && TOther !in ts[..i]
  }

  function PropertySchema(properties: seq<Property>, name: string): MaybeSchema {
    if properties == [] then NoSchema
    else if properties[0].name == name then TheSchema(properties[0].schema)
    else PropertySchema(properties[1..], name)
  }

  lemma {:induction false} PropertyIsMember(properties: seq<Property>, name: string)
    ensures match PropertySchema(properties, name)
            case NoSchema => forall p | p in properties :: p.name != name
            case TheSchema(s) => exists p :: p in properties && p.name == name && p.schema == s
  {
    if properties != [] {
      if properties[0].name == name {
        assert properties[0] in properties;
      } else {
        PropertyIsMember(properties[1..], name);
        assert forall p | p in properties :: p == properties[0] || p in properties[1..];
      }
    }
  }

  datatype Checker = Checker(defs: Defs, engine: (string, string) -> bool)
  {
    /** `validate_schema`: the checks in the program's order, the first failure deciding. */
    function Validate(v: Value, s: Schema, depth: nat): Verdict
      decreases depth, s, 9, 0
    {
      match s.ref
      case Some(Foreign(_)) => Invalid
      case Some(Local(name)) =>
        if name !in defs || depth == 0 then Abort else Validate(v, defs[name], depth - 1)
      case None =>
        if s.constant.Some? && !PyEqual(v, s.constant.value) then Invalid
        else if s.members.Some? && !(exists i :: 0 <= i < |s.members.value| && PyEqual(v, s.members.value[i])) then Invalid
        else if !TypeMatches(v, s.types) then Invalid
        else
          var one := OneOf(v, s, depth);
          if one != Valid then one
          else
            var some := AnyOf(v, s, depth);
            if some != Valid then some
            else
              var all := AllOf(v, s, depth, 0);
              if all != Valid then all
              else
                match v
                case Obj(_) => Fields(v, s, depth)
                case Arr(_) => if ItemCountOk(v, s) then Items(v, s, depth, 0) else Invalid
                case Str(text) => if TextOk(text, s) then Valid else Invalid
                case Int(n) => if NumberOk(n, s) then Valid else Invalid
                case _ => Valid
    }

    /** How many alternatives from index `i` on accept the value; `None` when one aborts. */
    function Successes(v: Value, options: seq<Schema>, s: Schema, depth: nat, i: nat): Option<nat>
      requires s.oneOf == Schemas.Schemas(options) && i <= |options|
      decreases depth, s, 1, |options| - i
    {
      if i == |options| then Some(0)
      else match Validate(v, options[i], depth)
        case Abort => None
        case verdict =>
          match Successes(v, options, s, depth, i + 1)
          case None => None
          case Some(n) => Some(if verdict == Valid then n + 1 else n)
    }

    function OneOf(v: Value, s: Schema, depth: nat): Verdict
      decreases depth, s, 2, 0
    {
      match s.oneOf
      case NoSchemas => Valid
      case Schemas(options) =>
        match Successes(v, options, s, depth, 0)
        case None => Abort
        case Some(n) => if n == 1 then Valid else Invalid
    }

    function AnyFrom(v: Value, options: seq<Schema>, s: Schema, depth: nat, i: nat): Verdict
      requires s.anyOf == Schemas.Schemas(options) && i <= |options|
      decreases depth, s, 1, |options| - i
    {
      if i == |options| then Invalid
      else match Validate(v, options[i], depth)
        case Invalid => AnyFrom(v, options, s, depth, i + 1)
        case verdict => verdict
    }

    function AnyOf(v: Value, s: Schema, depth: nat): Verdict
      decreases depth, s, 2, 0
    {
      match s.anyOf
      case NoSchemas => Valid
      case Schemas(options) => AnyFrom(v, options, s, depth, 0)
    }

    function Maybe(v: Value, m: MaybeSchema, s: Schema, depth: nat): Verdict
      requires m.TheSchema? ==> m.schema < s
      decreases depth, s, 1, 0
    {
      match m
      case NoSchema => Valid
      case TheSchema(sub) => Validate(v, sub, depth)
    }

    function ClauseVerdict(v: Value, s: Schema, depth: nat, i: nat): Verdict
      requires i < |s.allOf|
      decreases depth, s, 1, 1
    {
      match s.allOf[i]
      case Plain(sub) => Validate(v, sub, depth)
      case Conditional(test, thenPart, elsePart) =>
        match Validate(v, test, depth)
        case Abort => Abort
        case Valid => Maybe(v, thenPart, s, depth)
        case Invalid => Maybe(v, elsePart, s, depth)
    }

    function AllOf(v: Value, s: Schema, depth: nat, i: nat): Verdict
      requires i <= |s.allOf|
      decreases depth, s, 2, |s.allOf| - i
    {
      if i == |s.allOf| then Valid
      else
        var one := ClauseVerdict(v, s, depth, i);
        if one != Valid then one else AllOf(v, s, depth, i + 1)
    }

    predicate ItemCountOk(v: Value, s: Schema)
      requires v.Arr?
    {
      s.minItems <= |v.items| && (s.maxItems.Some? ==> |v.items| <= s.maxItems.value)
    }

    predicate TextOk(text: string, s: Schema) {
      && s.minLength <= |text|
      && (s.maxLength.Some? ==> |text| <= s.maxLength.value)
      && (s.pattern.Some? ==> Matches(s.pattern.value, text, engine))
    }

    predicate NumberOk(n: int, s: Schema) {
      && (s.minimum.Some? ==> s.minimum.value <= n)
      && (s.maximum.Some? ==> n <= s.maximum.value)
    }

    predicate FieldsOk(v: Value, s: Schema)
      requires v.Obj?
    {
      && (forall name | name in s.required :: name in v.fields)
      && (s.additional == AdditionalFalse ==> forall k | k in v.fields :: PropertySchema(s.properties, k).TheSchema?)
      && (s.maxProperties.Some? ==> |v.fields| <= s.maxProperties.value)
    }

    function Fields(v: Value, s: Schema, depth: nat): Verdict
      requires v.Obj?
      decreases depth, s, 3, 0
    {
      if FieldsOk(v, s) then FieldsFrom(v, s, depth, Keys(v)) else Invalid
    }

    function FieldSchema(s: Schema, name: string): (m: MaybeSchema)
      ensures m.TheSchema? ==> m.schema < s
    {
      PropertyIsMember(s.properties, name);
      match PropertySchema(s.properties, name)
      case TheSchema(sub) => TheSchema(sub)
      case NoSchema => if s.additional.AdditionalSchema? then TheSchema(s.additional.schema) else NoSchema
    }

    function FieldsFrom(v: Value, s: Schema, depth: nat, keys: seq<string>): Verdict
      requires v.Obj? && forall k | k in keys :: k in v.fields
      decreases depth, s, 2, |keys|
    {
      if keys == [] then Valid
      else
        assert keys[0] in keys;
        var one := Maybe(v.fields[keys[0]], FieldSchema(s, keys[0]), s, depth);
        if one != Valid then one else FieldsFrom(v, s, depth, keys[1..])
    }

    function Items(v: Value, s: Schema, depth: nat, i: nat): Verdict
      requires v.Arr? && i <= |v.items|
      decreases depth, s, 2, |v.items| - i
    {
      if i == |v.items| then Valid
      else
        var one := Maybe(v.items[i], s.items, s, depth);
        if one != Valid then one else Items(v, s, depth, i + 1)
    }

    // -------------------------------------------------------------- the static bound

    /** `schema_worst_case_canonical_bytes`; `None` is any of its errors. */
    function WorstCase(s: Schema, depth: nat): Option<nat>
      decreases depth, s, 9, 0
    {
      match s.ref
      case Some(r) =>
        var name := match r case Local(name) => name case Foreign(name) => name;
        if name !in defs || depth == 0 then None else WorstCase(defs[name], depth - 1)
      case None =>
        match s.oneOf
        case Schemas(options) => if options == [] then None else MaxOver(options, s, depth, 0)
        case NoSchemas =>
          if s.constant.Some? then Some(Size(s.constant.value))
          else if s.members.Some? then MaxSize(s.members.value)
          else
            match s.types
            case OneType(TString) =>
              if s.pattern.Some? then
                match PatternMaxChars(s.pattern.value) case None => None case Some(chars) => Some(2 + chars)
              else if s.maxLength == None then None
              else Some(2 + 6 * s.maxLength.value)
            case OneType(TInteger) =>
              if s.minimum == None || s.maximum == None || s.minimum.value > s.maximum.value then None
              else Some(Max(Size(Int(s.minimum.value)), Size(Int(s.maximum.value))))
            case OneType(TBoolean) => Some(5)
            case OneType(TArray) =>
              if s.maxItems == None || s.items == NoSchema then None
              else
                var count := s.maxItems.value;
                (match WorstCase(s.items.schema, depth)
                 case None => None
                 case Some(item) => Some(2 + count * item + (if count == 0 then 0 else count - 1)))
            case OneType(TObject) =>
              if s.additional != AdditionalAbsent && s.additional != AdditionalFalse then None
              else
                (match PropertiesTotal(s, depth, 0)
                 case None => None
                 case Some(total) => Some(2 + (if s.properties == [] then 0 else |s.properties| - 1) + total))
            case _ => None
    }

    function MaxOver(options: seq<Schema>, s: Schema, depth: nat, i: nat): Option<nat>
      requires s.oneOf == Schemas.Schemas(options) && i < |options|
      decreases depth, s, 1, |options| - i
    {
      match WorstCase(options[i], depth)
      case None => None
      case Some(n) =>
        if i + 1 == |options| then Some(n)
        else match MaxOver(options, s, depth, i + 1)
          case None => None
          case Some(m) => Some(Max(n, m))
    }

    function PropertiesTotal(s: Schema, depth: nat, i: nat): Option<nat>
      requires i <= |s.properties|
      decreases depth, s, 1, |s.properties| - i
    {
      if i == |s.properties| then Some(0)
      else match WorstCase(s.properties[i].schema, depth)
        case None => None
        case Some(n) =>
          match PropertiesTotal(s, depth, i + 1)
          case None => None
          case Some(rest) => Some(Size(Str(s.properties[i].name)) + 1 + n + rest)
    }
  }

  function Max(a: nat, b: nat): nat { if a >= b then a else b }

  function MaxSize(values: seq<Value>): Option<nat> {
    if values == [] then None
    else match MaxSize(values[1..])
      case None => Some(Size(values[0]))
      case Some(n) => Some(Max(Size(values[0]), n))
  }
}
