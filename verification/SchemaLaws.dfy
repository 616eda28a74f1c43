/** What the validator accepts, keyword by keyword. */
module SchemaLaws {
  import opened Outcomes
  import opened Sorting
  import opened Json
  import opened Schema
  import opened SchemaBound

  // ---------------------------------------------------------------- the keywords of every value

  /** Alternative `i` accepts the value. */
  predicate AcceptedBy(c: Checker, v: Value, options: seq<Schema>, depth: nat, i: nat) {
    i < |options| && c.Validate(v, options[i], depth) == Valid
  }

  predicate NoneAborts(c: Checker, v: Value, options: seq<Schema>, depth: nat) {
    forall i | 0 <= i < |options| :: c.Validate(v, options[i], depth) != Abort
  }

  /** Exactly one alternative accepts, and none aborts. */
  ghost predicate ExactlyOne(c: Checker, v: Value, options: seq<Schema>, depth: nat) {
    NoneAborts(c, v, options, depth)
    && exists i: nat :: AcceptedBy(c, v, options, depth, i) && forall j: nat | AcceptedBy(c, v, options, depth, j) :: j == i
  }

  /** Some alternative accepts, and none before it aborts. */
  ghost predicate AtLeastOne(c: Checker, v: Value, options: seq<Schema>, depth: nat) {
    exists i: nat :: AcceptedBy(c, v, options, depth, i) && forall j | 0 <= j < i :: c.Validate(v, options[j], depth) != Abort
  }

  /** An absent branch asks for nothing. */
  predicate BranchHolds(c: Checker, v: Value, branch: MaybeSchema, depth: nat) {
    branch.TheSchema? ==> c.Validate(v, branch.schema, depth) == Valid
  }

  /** One member of `allOf`: a schema, or a test with its two branches. */
  predicate ClauseHolds(c: Checker, v: Value, clause: Clause, depth: nat) {
    match clause
    case Plain(s) => c.Validate(v, s, depth) == Valid
    case Conditional(test, thenPart, elsePart) =>
      && c.Validate(v, test, depth) != Abort
      && (c.Validate(v, test, depth) == Valid ==> BranchHolds(c, v, thenPart, depth))
      && (c.Validate(v, test, depth) == Invalid ==> BranchHolds(c, v, elsePart, depth))
  }

  /** Constant, enumeration, type and the three combinators. */
  ghost predicate CommonHold(c: Checker, v: Value, s: Schema, depth: nat) {
    && (s.constant.Some? ==> PyEqual(v, s.constant.value))
    && (s.members.Some? ==> exists i :: 0 <= i < |s.members.value| && PyEqual(v, s.members.value[i]))
    && TypeMatches(v, s.types)
    && (s.oneOf.Schemas? ==> ExactlyOne(c, v, s.oneOf.list, depth))
    && (s.anyOf.Schemas? ==> AtLeastOne(c, v, s.anyOf.list, depth))
    && forall i | 0 <= i < |s.allOf| :: ClauseHolds(c, v, s.allOf[i], depth)
  }

  lemma {:induction false} SuccessesTell(c: Checker, v: Value, options: seq<Schema>, s: Schema, depth: nat, i: nat)
    requires s.oneOf == Schemas.Schemas(options) && i <= |options|
    ensures var n := c.Successes(v, options, s, depth, i);
            && (n == None <==> exists j :: i <= j < |options| && c.Validate(v, options[j], depth) == Abort)
            && (n == Some(0) ==> forall j: nat | i <= j :: !AcceptedBy(c, v, options, depth, j))
            && (n == Some(1) ==>
                  exists k: nat :: (i <= k && AcceptedBy(c, v, options, depth, k)
                                    && forall j: nat | i <= j && AcceptedBy(c, v, options, depth, j) :: j == k))
            && (n.Some? && n.value > 1 ==>
                  exists a: nat, b: nat :: i <= a < b && AcceptedBy(c, v, options, depth, a) && AcceptedBy(c, v, options, depth, b))
            && (n.Some? && n.value > 0 ==> exists a: nat :: i <= a && AcceptedBy(c, v, options, depth, a))
    decreases |options| - i
  {
    hide c.Validate;
    if i < |options| {
      SuccessesTell(c, v, options, s, depth, i + 1);
      var later := c.Successes(v, options, s, depth, i + 1);
      if c.Validate(v, options[i], depth) == Valid {
        assert AcceptedBy(c, v, options, depth, i);
        if later.Some? && later.value > 0 {
          var b: nat :| i + 1 <= b && AcceptedBy(c, v, options, depth, b);
        }
      }
    }
  }

  lemma OneOfTells(c: Checker, v: Value, options: seq<Schema>, s: Schema, depth: nat)
    requires s.oneOf == Schemas.Schemas(options)
    ensures c.OneOf(v, s, depth) == Valid <==> ExactlyOne(c, v, options, depth)
  {
    hide c.Validate, c.Successes;
    hide AcceptedBy;
    SuccessesTell(c, v, options, s, depth, 0);
  }

  lemma {:induction false} AnyFromTells(c: Checker, v: Value, options: seq<Schema>, s: Schema, depth: nat, i: nat)
    requires s.anyOf == Schemas.Schemas(options) && i <= |options|
    ensures c.AnyFrom(v, options, s, depth, i) == Valid <==>
            exists k: nat :: i <= k && AcceptedBy(c, v, options, depth, k) && forall j | i <= j < k :: c.Validate(v, options[j], depth) != Abort
    decreases |options| - i
  {
    hide c.Validate;
    if i < |options| {
      AnyFromTells(c, v, options, s, depth, i + 1);
      if c.Validate(v, options[i], depth) == Valid { assert AcceptedBy(c, v, options, depth, i); }
    }
  }

  lemma AnyOfTells(c: Checker, v: Value, options: seq<Schema>, s: Schema, depth: nat)
    requires s.anyOf == Schemas.Schemas(options)
    ensures c.AnyOf(v, s, depth) == Valid <==> AtLeastOne(c, v, options, depth)
  {
    hide c.Validate, c.AnyFrom;
    hide AcceptedBy;
    AnyFromTells(c, v, options, s, depth, 0);
  }

  lemma ClauseTells(c: Checker, v: Value, s: Schema, depth: nat, i: nat)
    requires i < |s.allOf|
    ensures c.ClauseVerdict(v, s, depth, i) == Valid <==> ClauseHolds(c, v, s.allOf[i], depth)
  {
    hide c.Validate;
  }

  lemma {:induction false} AllOfTells(c: Checker, v: Value, s: Schema, depth: nat, i: nat)
    requires i <= |s.allOf|
    ensures c.AllOf(v, s, depth, i) == Valid <==> forall j | i <= j < |s.allOf| :: ClauseHolds(c, v, s.allOf[j], depth)
    decreases |s.allOf| - i
  {
    hide c.Validate, c.ClauseVerdict;
    hide ClauseHolds;
    if i < |s.allOf| {
      ClauseTells(c, v, s, depth, i);
      AllOfTells(c, v, s, depth, i + 1);
    }
  }

  /** What the keywords of the value's own kind ask, as the validator computes it. */
  function KindVerdict(c: Checker, v: Value, s: Schema, depth: nat): Verdict {
    match v
    case Obj(_) => c.Fields(v, s, depth)
    case Arr(_) => if c.ItemCountOk(v, s) then c.Items(v, s, depth, 0) else Invalid
    case Str(text) => if c.TextOk(text, s) then Valid else Invalid
    case Int(n) => if c.NumberOk(n, s) then Valid else Invalid
    case _ => Valid
  }

  lemma NodeTells(c: Checker, v: Value, s: Schema, depth: nat)
    requires s.ref == None
    ensures c.Validate(v, s, depth) == Valid <==> CommonHold(c, v, s, depth) && KindVerdict(c, v, s, depth) == Valid
  {
    hide PyEqual, TypeMatches, ExactlyOne, AtLeastOne, ClauseHolds;
    hide c.Fields, c.ItemCountOk, c.Items, c.TextOk, c.NumberOk, c.OneOf, c.AnyOf, c.AllOf;
    CombinatorsTell(c, v, s, depth);
  }

  lemma CombinatorsTell(c: Checker, v: Value, s: Schema, depth: nat)
    ensures c.OneOf(v, s, depth) == Valid <==> (s.oneOf.Schemas? ==> ExactlyOne(c, v, s.oneOf.list, depth))
    ensures c.AnyOf(v, s, depth) == Valid <==> (s.anyOf.Schemas? ==> AtLeastOne(c, v, s.anyOf.list, depth))
    ensures c.AllOf(v, s, depth, 0) == Valid <==> forall i | 0 <= i < |s.allOf| :: ClauseHolds(c, v, s.allOf[i], depth)
  {
    hide ExactlyOne, AtLeastOne, ClauseHolds;
    hide c.Validate, c.Successes, c.AnyFrom, c.ClauseVerdict, c.AllOf;
    if s.oneOf.Schemas? { OneOfTells(c, v, s.oneOf.list, s, depth); }
    if s.anyOf.Schemas? { AnyOfTells(c, v, s.anyOf.list, s, depth); }
    AllOfTells(c, v, s, depth, 0);
  }

  // ---------------------------------------------------------------- one law for each kind of value

  /** Property `i` is the first one of this name. */
  predicate FirstNamed(s: Schema, name: string, i: nat) {
    i < |s.properties| && s.properties[i].name == name && forall j | 0 <= j < i :: s.properties[j].name != name
  }

  ghost predicate Declared(s: Schema, name: string) { exists i: nat :: FirstNamed(s, name, i) }

  /** A declared member is valid under its property's schema, any other under the one for additional members, if there
      is one. */
  ghost predicate MemberHolds(c: Checker, v: Value, s: Schema, name: string, depth: nat) {
    && (forall i: nat | FirstNamed(s, name, i) :: c.Validate(v, s.properties[i].schema, depth) == Valid)
    && (!Declared(s, name) && s.additional.AdditionalSchema? ==> c.Validate(v, s.additional.schema, depth) == Valid)
  }

  lemma {:induction false} PropertyTells(properties: seq<Property>, name: string, s: Schema)
    requires s.properties == properties
    ensures forall i: nat | FirstNamed(s, name, i) :: PropertySchema(properties, name) == TheSchema(properties[i].schema)
    ensures PropertySchema(properties, name) == NoSchema <==> !Declared(s, name)
    decreases |properties|
  {
    if properties != [] {
      if properties[0].name == name {
        assert FirstNamed(s, name, 0);
      } else {
        var rest := s.(properties := properties[1..]);
        PropertyTells(properties[1..], name, rest);
        forall i: nat ensures FirstNamed(rest, name, i) <==> FirstNamed(s, name, i + 1) {
          assert forall j | 0 <= j < |properties[1..]| :: properties[1..][j] == properties[j + 1];
        }
        forall i: nat | FirstNamed(s, name, i) ensures i > 0 && FirstNamed(rest, name, i - 1) {
          assert FirstNamed(rest, name, i - 1) <==> FirstNamed(s, name, i - 1 + 1);
        }
        if Declared(rest, name) { var i: nat :| FirstNamed(rest, name, i); assert FirstNamed(s, name, i + 1); }
      }
    }
  }

  lemma MemberTells(c: Checker, v: Value, s: Schema, name: string, depth: nat)
    ensures c.Maybe(v, c.FieldSchema(s, name), s, depth) == Valid <==> MemberHolds(c, v, s, name, depth)
  {
    hide c.Validate;
    hide FirstNamed;
    PropertyTells(s.properties, name, s);
    if Declared(s, name) { var i: nat :| FirstNamed(s, name, i); }
  }

  lemma {:induction false} MembersTell(c: Checker, v: Value, s: Schema, depth: nat, keys: seq<string>)
    requires v.Obj? && forall k | k in keys :: k in v.fields
    ensures c.FieldsFrom(v, s, depth, keys) == Valid <==> forall k | k in keys :: MemberHolds(c, v.fields[k], s, k, depth)
  {
    hide c.Maybe, c.FieldSchema;
    hide MemberHolds;
    if keys != [] {
      assert keys[0] in keys;
      MemberTells(c, v.fields[keys[0]], s, keys[0], depth);
      MembersTell(c, v, s, depth, keys[1..]);
      assert forall k | k in keys :: k == keys[0] || k in keys[1..];
    }
  }

  /** An object is valid exactly when the common keywords hold, every required name is there, no undeclared name is there
      where extra ones are forbidden, there are no more members than allowed, and each member is valid under its schema. */
  lemma ObjectValidIff(c: Checker, fields: map<string, Value>, s: Schema, depth: nat)
    requires s.ref == None
    ensures c.Validate(Obj(fields), s, depth) == Valid <==>
            && CommonHold(c, Obj(fields), s, depth)
            && (forall i | 0 <= i < |s.required| :: s.required[i] in fields)
            && (s.additional == AdditionalFalse ==> forall k | k in fields :: Declared(s, k))
            && (s.maxProperties.Some? ==> |fields| <= s.maxProperties.value)
            && (forall k | k in fields :: MemberHolds(c, fields[k], s, k, depth))
  {
    hide CommonHold, MemberHolds, Declared, Keys;
    hide c.Validate, c.FieldsFrom;
    var v := Obj(fields);
    NodeTells(c, v, s, depth);
    MembersTell(c, v, s, depth, Keys(v));
    assert forall k :: k in fields <==> k in Elements(Keys(v));
    FieldsOkTells(c, v, s);
  }

  lemma {:induction false} ItemsTell(c: Checker, v: Value, s: Schema, depth: nat, i: nat)
    requires v.Arr? && i <= |v.items|
    ensures c.Items(v, s, depth, i) == Valid <==>
            forall j | i <= j < |v.items| :: s.items.TheSchema? ==> c.Validate(v.items[j], s.items.schema, depth) == Valid
    decreases |v.items| - i
  {
    hide c.Validate;
    if i < |v.items| { ItemsTell(c, v, s, depth, i + 1); }
  }

  /** An array: its length is within both bounds and every item is valid under the schema for items. */
  lemma ArrayValidIff(c: Checker, items: seq<Value>, s: Schema, depth: nat)
    requires s.ref == None
    ensures c.Validate(Arr(items), s, depth) == Valid <==>
            && CommonHold(c, Arr(items), s, depth)
            && s.minItems <= |items| && (s.maxItems.Some? ==> |items| <= s.maxItems.value)
            && (s.items.TheSchema? ==> forall i | 0 <= i < |items| :: c.Validate(items[i], s.items.schema, depth) == Valid)
  {
    hide CommonHold;
    hide c.Validate, c.Items;
    NodeTells(c, Arr(items), s, depth);
    ItemsTell(c, Arr(items), s, depth, 0);
  }

  /** A text: its length is within both bounds and it matches the pattern. */
  lemma TextValidIff(c: Checker, text: string, s: Schema, depth: nat)
    requires s.ref == None
    ensures c.Validate(Str(text), s, depth) == Valid <==>
            && CommonHold(c, Str(text), s, depth)
            && s.minLength <= |text| && (s.maxLength.Some? ==> |text| <= s.maxLength.value)
            && (s.pattern.Some? ==> Matches(s.pattern.value, text, c.engine))
  {
    hide CommonHold, Matches;
    hide c.Validate;
    NodeTells(c, Str(text), s, depth);
  }

  /** An integer is within both bounds; booleans and null have no keywords of their own. */
  lemma ScalarValidIff(c: Checker, v: Value, s: Schema, depth: nat)
    requires s.ref == None && (v.Int? || v.Bool? || v.Null?)
    ensures c.Validate(v, s, depth) == Valid <==>
            && CommonHold(c, v, s, depth)
            && (v.Int? && s.minimum.Some? ==> s.minimum.value <= v.n) && (v.Int? && s.maximum.Some? ==> v.n <= s.maximum.value)
  {
    hide CommonHold;
    hide c.Validate;
    NodeTells(c, v, s, depth);
  }

  /** A reference is the definition it names, a foreign one accepts nothing. */
  lemma ReferenceValidIff(c: Checker, v: Value, s: Schema, depth: nat)
    requires s.ref.Some?
    ensures c.Validate(v, s, depth) == Valid <==>
            s.ref.value.Local? && s.ref.value.name in c.defs && depth > 0
            && c.Validate(v, c.defs[s.ref.value.name], depth - 1) == Valid
  {
  }

  // ---------------------------------------------------------------- types

  /** The one type that a value has; an integer is a number as well. */
  function TypeOf(v: Value): JType {
    match v
    case Null => TNull
    case Bool(_) => TBoolean
    case Int(_) => TInteger
    case Str(_) => TString
    case Arr(_) => TArray
    case Obj(_) => TObject
  }

  /** A type keyword accepts a value exactly when it names the value's type, or a number for an integer; in a list of
      names, before any unknown one. */
  lemma TypeIff(v: Value, types: TypeKeyword)
    ensures types.OneType? ==> (TypeMatches(v, types) <==> types.t == TypeOf(v) || (types.t == TNumber && v.Int?))
    ensures types.Types? ==>
              (TypeMatches(v, types) <==>
               exists i :: 0 <= i < |types.ts| && TypeMatches(v, OneType(types.ts[i])) && forall j | 0 <= j < i :: types.ts[j] != TOther)
    ensures types.AnyType? ==> TypeMatches(v, types)
  {
    if types.Types? {
      var ts := types.ts;
      forall i | 0 <= i < |ts| ensures TOther !in ts[..i] <==> forall j | 0 <= j < i :: ts[j] != TOther {
        assert forall j | 0 <= j < i :: ts[..i][j] == ts[j];
      }
    }
  }

  // ---------------------------------------------------------------- when validation aborts

  /** An alternative aborts before any accepts. */
  predicate AnyAborts(c: Checker, v: Value, options: seq<Schema>, depth: nat) {
    exists i :: 0 <= i < |options| && c.Validate(v, options[i], depth) == Abort
                && forall j | 0 <= j < i :: c.Validate(v, options[j], depth) == Invalid
  }

  predicate BranchAborts(c: Checker, v: Value, branch: MaybeSchema, depth: nat) {
    branch.TheSchema? && c.Validate(v, branch.schema, depth) == Abort
  }

  predicate ClauseAborts(c: Checker, v: Value, clause: Clause, depth: nat) {
    match clause
    case Plain(s) => c.Validate(v, s, depth) == Abort
    case Conditional(test, thenPart, elsePart) =>
      || c.Validate(v, test, depth) == Abort
      || (c.Validate(v, test, depth) == Valid && BranchAborts(c, v, thenPart, depth))
      || (c.Validate(v, test, depth) == Invalid && BranchAborts(c, v, elsePart, depth))
  }

  /** A member of `allOf` aborts and all before it hold. */
  predicate AllAborts(c: Checker, v: Value, clauses: seq<Clause>, depth: nat) {
    exists i :: 0 <= i < |clauses| && ClauseAborts(c, v, clauses[i], depth)
                && forall j | 0 <= j < i :: ClauseHolds(c, v, clauses[j], depth)
  }

  lemma {:induction false} AnyFromAborts(c: Checker, v: Value, options: seq<Schema>, s: Schema, depth: nat, i: nat)
    requires s.anyOf == Schemas.Schemas(options) && i <= |options|
    ensures c.AnyFrom(v, options, s, depth, i) == Abort <==>
            exists k :: i <= k < |options| && c.Validate(v, options[k], depth) == Abort
                        && forall j | i <= j < k :: c.Validate(v, options[j], depth) == Invalid
    decreases |options| - i
  {
    hide c.Validate;
    if i < |options| { AnyFromAborts(c, v, options, s, depth, i + 1); }
  }

  lemma ClauseAbortsTells(c: Checker, v: Value, s: Schema, depth: nat, i: nat)
    requires i < |s.allOf|
    ensures c.ClauseVerdict(v, s, depth, i) == Abort <==> ClauseAborts(c, v, s.allOf[i], depth)
  {
    hide c.Validate;
  }

  lemma {:induction false} AllOfAborts(c: Checker, v: Value, s: Schema, depth: nat, i: nat)
    requires i <= |s.allOf|
    ensures c.AllOf(v, s, depth, i) == Abort <==>
            exists k :: i <= k < |s.allOf| && ClauseAborts(c, v, s.allOf[k], depth)
                        && forall j | i <= j < k :: ClauseHolds(c, v, s.allOf[j], depth)
    decreases |s.allOf| - i
  {
    hide c.Validate, c.ClauseVerdict;
    hide ClauseHolds, ClauseAborts;
    if i < |s.allOf| {
      ClauseTells(c, v, s, depth, i);
      ClauseAbortsTells(c, v, s, depth, i);
      AllOfAborts(c, v, s, depth, i + 1);
    }
  }

  lemma CombinatorsAbort(c: Checker, v: Value, s: Schema, depth: nat)
    ensures c.OneOf(v, s, depth) == Abort <==> s.oneOf.Schemas? && !NoneAborts(c, v, s.oneOf.list, depth)
    ensures c.AnyOf(v, s, depth) == Abort <==> s.anyOf.Schemas? && AnyAborts(c, v, s.anyOf.list, depth)
    ensures c.AllOf(v, s, depth, 0) == Abort <==> AllAborts(c, v, s.allOf, depth)
  {
    hide AcceptedBy, ClauseHolds, ClauseAborts;
    hide c.Validate, c.Successes, c.AnyFrom, c.ClauseVerdict, c.AllOf;
    if s.oneOf.Schemas? { SuccessesTell(c, v, s.oneOf.list, s, depth, 0); }
    if s.anyOf.Schemas? { AnyFromAborts(c, v, s.anyOf.list, s, depth, 0); }
    AllOfAborts(c, v, s, depth, 0);
  }

  /** The member aborts under its property's schema, or under the one for additional members. */
  ghost predicate MemberAborts(c: Checker, v: Value, s: Schema, name: string, depth: nat) {
    || (exists i: nat :: FirstNamed(s, name, i) && c.Validate(v, s.properties[i].schema, depth) == Abort)
    || (!Declared(s, name) && s.additional.AdditionalSchema? && c.Validate(v, s.additional.schema, depth) == Abort)
  }

  lemma MemberAbortTells(c: Checker, v: Value, s: Schema, name: string, depth: nat)
    ensures c.Maybe(v, c.FieldSchema(s, name), s, depth) == Abort <==> MemberAborts(c, v, s, name, depth)
  {
    hide c.Validate;
    hide FirstNamed;
    PropertyTells(s.properties, name, s);
    if Declared(s, name) { var i: nat :| FirstNamed(s, name, i); }
  }

  /** In the order of the keys, a member aborts and all before it hold. */
  lemma {:induction false} MembersAbort(c: Checker, v: Value, s: Schema, depth: nat, keys: seq<string>)
    requires v.Obj? && forall k | k in keys :: k in v.fields
    ensures c.FieldsFrom(v, s, depth, keys) == Abort <==>
            exists i :: 0 <= i < |keys| && keys[i] in v.fields && MemberAborts(c, v.fields[keys[i]], s, keys[i], depth)
                        && forall j | 0 <= j < i :: keys[j] in v.fields && MemberHolds(c, v.fields[keys[j]], s, keys[j], depth)
  {
    hide c.Maybe, c.FieldSchema;
    hide MemberHolds, MemberAborts;
    if keys != [] {
      assert keys[0] in keys;
      var rest := keys[1..];
      MemberTells(c, v.fields[keys[0]], s, keys[0], depth);
      MemberAbortTells(c, v.fields[keys[0]], s, keys[0], depth);
      MembersAbort(c, v, s, depth, rest);
      assert forall i | 1 <= i < |keys| :: keys[i] == rest[i - 1];
      if i :| 0 <= i < |rest| && rest[i] in v.fields && MemberAborts(c, v.fields[rest[i]], s, rest[i], depth)
              && forall j | 0 <= j < i :: rest[j] in v.fields && MemberHolds(c, v.fields[rest[j]], s, rest[j], depth) {
        assert keys[i + 1] == rest[i];
      }
    }
  }

  lemma {:induction false} ItemsAbort(c: Checker, v: Value, s: Schema, depth: nat, i: nat)
    requires v.Arr? && i <= |v.items|
    ensures c.Items(v, s, depth, i) == Abort <==>
            s.items.TheSchema? && exists k :: i <= k < |v.items| && c.Validate(v.items[k], s.items.schema, depth) == Abort
                                              && forall j | i <= j < k :: c.Validate(v.items[j], s.items.schema, depth) == Valid
    decreases |v.items| - i
  {
    hide c.Validate;
    if i < |v.items| { ItemsAbort(c, v, s, depth, i + 1); }
  }

  /** Constant, enumeration and type hold. */
  predicate TypeAndConstantHold(v: Value, s: Schema) {
    && (s.constant.Some? ==> PyEqual(v, s.constant.value))
    && (s.members.Some? ==> exists i :: 0 <= i < |s.members.value| && PyEqual(v, s.members.value[i]))
    && TypeMatches(v, s.types)
  }

  /** A node without a reference aborts exactly when its constant, enumeration and type hold and an abort comes before any
      refusal: among the alternatives of `oneOf`, then of `anyOf`, then in `allOf`, and last among members or items. */
  lemma AbortsIff(c: Checker, v: Value, s: Schema, depth: nat)
    requires s.ref == None
    ensures c.Validate(v, s, depth) == Abort <==>
            && TypeAndConstantHold(v, s)
            && var one := s.oneOf.Schemas? ==> ExactlyOne(c, v, s.oneOf.list, depth);
               var some := s.anyOf.Schemas? ==> AtLeastOne(c, v, s.anyOf.list, depth);
               var all := forall i | 0 <= i < |s.allOf| :: ClauseHolds(c, v, s.allOf[i], depth);
               || (s.oneOf.Schemas? && !NoneAborts(c, v, s.oneOf.list, depth))
               || (one && s.anyOf.Schemas? && AnyAborts(c, v, s.anyOf.list, depth))
               || (one && some && AllAborts(c, v, s.allOf, depth))
               || (one && some && all && KindVerdict(c, v, s, depth) == Abort)
  {
    hide PyEqual, TypeMatches, ExactlyOne, AtLeastOne, ClauseHolds, NoneAborts, AnyAborts, AllAborts;
    hide c.Fields, c.ItemCountOk, c.Items, c.TextOk, c.NumberOk, c.OneOf, c.AnyOf, c.AllOf;
    CombinatorsTell(c, v, s, depth);
    CombinatorsAbort(c, v, s, depth);
  }

  lemma FieldsOkTells(c: Checker, v: Value, s: Schema)
    requires v.Obj?
    ensures c.FieldsOk(v, s) <==>
            && (forall i | 0 <= i < |s.required| :: s.required[i] in v.fields)
            && (s.additional == AdditionalFalse ==> forall k | k in v.fields :: Declared(s, k))
            && (s.maxProperties.Some? ==> |v.fields| <= s.maxProperties.value)
  {
    hide Declared;
    forall k ensures PropertySchema(s.properties, k).TheSchema? <==> Declared(s, k) { PropertyTells(s.properties, k, s); }
    assert (forall name | name in s.required :: name in v.fields) <==> (forall i | 0 <= i < |s.required| :: s.required[i] in v.fields);
  }

  /** The last case: an item that aborts behind valid ones in an array of allowed length, or a member of an object. */
  lemma KindAborts(c: Checker, v: Value, s: Schema, depth: nat)
    ensures v.Arr? ==>
              (KindVerdict(c, v, s, depth) == Abort <==>
               s.minItems <= |v.items| && (s.maxItems.Some? ==> |v.items| <= s.maxItems.value) && s.items.TheSchema?
               && exists k :: 0 <= k < |v.items| && c.Validate(v.items[k], s.items.schema, depth) == Abort
                              && forall j | 0 <= j < k :: c.Validate(v.items[j], s.items.schema, depth) == Valid)
    ensures v.Obj? ==>
              (KindVerdict(c, v, s, depth) == Abort <==>
               && (forall i | 0 <= i < |s.required| :: s.required[i] in v.fields)
               && (s.additional == AdditionalFalse ==> forall k | k in v.fields :: Declared(s, k))
               && (s.maxProperties.Some? ==> |v.fields| <= s.maxProperties.value)
               && exists i :: 0 <= i < |Keys(v)| && Keys(v)[i] in v.fields && MemberAborts(c, v.fields[Keys(v)[i]], s, Keys(v)[i], depth)
                              && forall j | 0 <= j < i :: Keys(v)[j] in v.fields && MemberHolds(c, v.fields[Keys(v)[j]], s, Keys(v)[j], depth))
    ensures !v.Arr? && !v.Obj? ==> KindVerdict(c, v, s, depth) != Abort
  {
    hide c.Validate, c.FieldsFrom, c.Items, c.FieldSchema;
    hide Keys, MemberHolds, MemberAborts, Declared;
    if v.Arr? { ItemsAbort(c, v, s, depth, 0); }
    if v.Obj? {
      MembersAbort(c, v, s, depth, Keys(v));
      FieldsOkTells(c, v, s);
    }
  }

  /** A missing required name is refused whatever else the object holds. */
  lemma MissingNameIsRefused(c: Checker, fields: map<string, Value>, s: Schema, depth: nat, name: string)
    requires s.ref == None && name in s.required && name !in fields
    ensures c.Validate(Obj(fields), s, depth) != Valid
  {
    hide c.Validate;
    hide CommonHold, MemberHolds;
    ObjectValidIff(c, fields, s, depth);
    var i :| 0 <= i < |s.required| && s.required[i] == name;
  }
}
