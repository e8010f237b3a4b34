// Filter templates: the check made when a query template is stored, and the
// resolution made when it is run.
module FilterTemplates {
  import opened Wrappers
  import opened Decimals
  import opened Substitution

  datatype FieldType =
    | TypeBoolean
    | TypeDate
    | TypeNumeric
    | TypeString
    | TypeMap(underlyingType: FieldType)

  // A nil default is Nil.
  datatype VarDecl = VarDecl(ty: FieldType, default: Value)

  type VarDecls = map<Bytes, VarDecl>

  type Vars = map<Bytes, Value>

  // time.ParseTime accepting a string.
  type DateParser = Bytes -> bool

  datatype FilterError =
    | InvalidFieldName
    | UnknownField
    | UnexpectedIndexing
    | UnexpectedOperator
    | ExpectedArray
    | ExpectedMapField
    | ExpectedVariable
    | MissingVariableError
    | WrongType
    | NotAnInteger
    | UnresolvableType
    | TemplateError(error: SubstitutionError)

  // Schemas (schema.go, resources.go).

  datatype Field = Field(name: Bytes, aliases: set<Bytes>, ty: FieldType)

  // Fields in the order of one iteration over the map of fields.
  type Schema = seq<Field>

  predicate MatchKey(f: Field, key: Bytes) {
    f.name == key || key in f.aliases
  }

  function GetFieldByNameOrAlias(schema: Schema, name: Bytes): Option<Field> {
    if schema == [] then None
    else if MatchKey(schema[0], name) then Some(schema[0])
    else GetFieldByNameOrAlias(schema[1..], name)
  }

  predicate IsNameChar(b: Byte) {
    'a' <= b <= 'z' || b == '_'
  }

  predicate IsIndexChar(b: Byte) {
    'a' <= b <= 'z' || 'A' <= b <= 'Z' || '0' <= b <= '9' || b == '_' || b == '/'
  }

  function NameLength(s: Bytes): (n: nat)
    ensures n <= |s|
  {
    if s == [] || !IsNameChar(s[0]) then 0 else 1 + NameLength(s[1..])
  }

  // ^([a-z_]+)(?:\[([a-zA-Z0-9_/]+)\])?$
  function ParseAccess(input: Bytes): Option<(Bytes, Bytes)> {
    var n := NameLength(input);
    if n == 0 then None
    else if n == |input| then Some((input, []))
    else if && n + 2 < |input| && input[n] == '[' && input[|input| - 1] == ']'
            && forall i :: n < i < |input| - 1 ==> IsIndexChar(input[i])
    then Some((input[..n], input[n + 1..|input| - 1]))
    else None
  }

  function GetFieldType(schema: Schema, access: Bytes): Result<FieldType, FilterError> {
    match ParseAccess(access)
    case None => Err(InvalidFieldName)
    case Some((key, index)) =>
      match GetFieldByNameOrAlias(schema, key)
      case None => Err(UnknownField)
      case Some(field) =>
        if index == [] then Ok(field.ty)
        else if field.ty.TypeMap? then Ok(field.ty.underlyingType)
        else Err(UnexpectedIndexing)
  }

  datatype ResourceKind = TransactionKind | AccountKind | LogKind | VolumeKind

  function GetResourceSchema(kind: ResourceKind): Schema {
    match kind
    case AccountKind =>
      [Field("address", {}, TypeString), Field("first_usage", {}, TypeDate),
       Field("balance", {}, TypeMap(TypeNumeric)), Field("metadata", {}, TypeMap(TypeString)),
       Field("insertion_date", {}, TypeDate), Field("updated_at", {}, TypeDate)]
    case LogKind =>
      [Field("date", {}, TypeDate), Field("id", {}, TypeNumeric), Field("type", {}, TypeString)]
    case TransactionKind =>
      [Field("reverted", {}, TypeBoolean), Field("account", {}, TypeString), Field("source", {}, TypeString),
       Field("destination", {}, TypeString), Field("timestamp", {}, TypeDate),
       Field("metadata", {}, TypeMap(TypeString)), Field("id", {}, TypeNumeric), Field("reference", {}, TypeString),
       Field("inserted_at", {}, TypeDate), Field("updated_at", {}, TypeDate), Field("reverted_at", {}, TypeDate)]
    case VolumeKind =>
      [Field("address", {"account"}, TypeString), Field("balance", {}, TypeMap(TypeNumeric)),
       Field("first_usage", {}, TypeDate), Field("metadata", {}, TypeMap(TypeString))]
  }

  // No key matches two fields, so the order of the iteration does not matter.
  ghost predicate Unambiguous(schema: Schema) {
    forall f, g, key :: f in schema && g in schema && MatchKey(f, key) && MatchKey(g, key) ==> f == g
  }

  lemma {:induction false} LookupIgnoresOrder(schema: Schema, key: Bytes, f: Field)
    requires Unambiguous(schema)
    ensures GetFieldByNameOrAlias(schema, key) == Some(f) <==> f in schema && MatchKey(f, key)
  {
    if schema != [] {
      assert Unambiguous(schema[1..]);
      LookupIgnoresOrder(schema[1..], key, f);
      assert schema[0] in schema;
    }
  }

  // Length and first letter tell the fields of a resource apart.
  function Shape(name: Bytes): (nat, Byte) {
    (|name|, if name == [] then ' ' else name[0])
  }

  function Shapes(kind: ResourceKind): seq<(nat, Byte)> {
    match kind
    case AccountKind => [(7, 'a'), (11, 'f'), (7, 'b'), (8, 'm'), (14, 'i'), (10, 'u')]
    case LogKind => [(4, 'd'), (2, 'i'), (4, 't')]
    case TransactionKind =>
      [(8, 'r'), (7, 'a'), (6, 's'), (11, 'd'), (9, 't'), (8, 'm'), (2, 'i'), (9, 'r'), (11, 'i'), (10, 'u'), (11, 'r')]
    case VolumeKind => [(7, 'a'), (7, 'b'), (11, 'f'), (8, 'm')]
  }

  lemma {:induction false} SameShape(kind: ResourceKind, f: Field, key: Bytes)
    requires f in GetResourceSchema(kind) && MatchKey(f, key)
    ensures Shape(key) == Shape(f.name)
  {
    if kind.VolumeKind? && key in f.aliases {
      assert key == "account";
    }
  }

  lemma {:induction false} ShapeAt(kind: ResourceKind, i: nat)
    requires i < |GetResourceSchema(kind)|
    ensures i < |Shapes(kind)| && Shape(GetResourceSchema(kind)[i].name) == Shapes(kind)[i]
  {
  }

  lemma {:induction false} ShapesApart(kind: ResourceKind, i: nat, j: nat)
    requires i < |Shapes(kind)| && j < |Shapes(kind)| && i != j
    ensures Shapes(kind)[i] != Shapes(kind)[j]
  {
  }

  lemma {:induction false} ResourceSchemasUnambiguous(kind: ResourceKind)
    ensures Unambiguous(GetResourceSchema(kind))
  {
    var schema := GetResourceSchema(kind);
    forall f, g, key | f in schema && g in schema && MatchKey(f, key) && MatchKey(g, key)
      ensures f == g
    {
      SameShape(kind, f, key);
      SameShape(kind, g, key);
      var i :| 0 <= i < |schema| && schema[i] == f;
      var j :| 0 <= j < |schema| && schema[j] == g;
      ShapeAt(kind, i);
      ShapeAt(kind, j);
      if i != j {
        ShapesApart(kind, i, j);
      }
    }
  }

  // Types of values (variables.go).

  predicate IsIntegral(f: real) {
    f.Floor as real == f
  }

  predicate ValidValueType(expected: FieldType, v: Value, isDate: DateParser) {
    match expected
    case TypeBoolean => v.Nil? || v.Bool?
    case TypeDate => v.Nil? || (v.Str? && isDate(v.s))
    case TypeNumeric =>
      v.Nil? || (v.Number? && ParseInt(v.text).Some?) || (v.Float? && IsIntegral(v.f)) || v.BigInt?
    case TypeString => v.Nil? || v.Str?
    case TypeMap(_) => false
  }

  predicate ValidVarDeclarations(decls: VarDecls, isDate: DateParser) {
    forall name :: name in decls ==> ValidValueType(decls[name].ty, decls[name].default, isDate)
  }

  // Filters. A filter is the list of its leaves in the order of Walk.

  datatype Leaf = Leaf(operator: string, key: Bytes, value: Value)

  const COMPARISONS := {"$match", "$like", "$lt", "$gt", "$lte", "$gte"}

  // ^\${([a-z_]+)}$
  function ExtractVariableName(s: Bytes): Option<Bytes> {
    if && 3 < |s| && s[..2] == "${" && s[|s| - 1] == '}'
       && forall i :: 2 <= i < |s| - 1 ==> IsNameChar(s[i])
    then Some(s[2..|s| - 1])
    else None
  }

  predicate ValidVarRef(expected: FieldType, s: Bytes, decls: VarDecls) {
    match ExtractVariableName(s)
    case None => false
    case Some(name) => name in decls && decls[name].ty == expected
  }

  predicate ValidStringTemplate(s: Bytes, decls: VarDecls) {
    match Parse(s, [])
    case Err(_) => false
    case Ok((_, names)) => forall name :: name in names ==> name in decls
  }

  predicate ValidValue(expected: FieldType, v: Value, decls: VarDecls, isDate: DateParser) {
    if v.Str? then
      if expected != TypeString then ValidVarRef(expected, v.s, decls) else ValidStringTemplate(v.s, decls)
    else ValidValueType(expected, v, isDate)
  }

  predicate ValidLeaf(schema: Schema, leaf: Leaf, decls: VarDecls, isDate: DateParser) {
    match GetFieldType(schema, leaf.key)
    case Err(_) => false
    case Ok(ty) =>
      if leaf.operator == "$in" then
        leaf.value.Array? && forall v :: v in leaf.value.elems ==> ValidValue(ty, v, decls, isDate)
      else if leaf.operator == "$exists" then
        ty.TypeMap? && ValidValue(ty.underlyingType, leaf.value, decls, isDate)
      else
        leaf.operator in COMPARISONS && ValidValue(ty, leaf.value, decls, isDate)
  }

  // The walk of ValidateFilterBody.
  method ValidateFilterBody(schema: Schema, filter: seq<Leaf>, decls: VarDecls, isDate: DateParser) returns (ok: bool)
    ensures ok <==> forall leaf :: leaf in filter ==> ValidLeaf(schema, leaf, decls, isDate)
  {
    for i := 0 to |filter|
      invariant forall j :: 0 <= j < i ==> ValidLeaf(schema, filter[j], decls, isDate)
    {
      if !ValidLeaf(schema, filter[i], decls, isDate) {
        return false;
      }
    }
    return true;
  }

  // Resolution.

  // The type parameter of extractVariable.
  datatype GoType = GoBool | GoString | GoNumber | GoFloat

  predicate HasGoType(v: Value, t: GoType) {
    match t
    case GoBool => v.Bool?
    case GoString => v.Str?
    case GoNumber => v.Number?
    case GoFloat => v.Float?
  }

  function ExtractVariable(t: GoType, s: Bytes, vars: Vars): (r: Result<Value, FilterError>)
    ensures r.Ok? ==> HasGoType(r.value, t)
    ensures r.Ok? ==>
              var name := ExtractVariableName(s);
              name.Some? && name.value in vars && r.value == vars[name.value]
  {
    match ExtractVariableName(s)
    case None => Err(ExpectedVariable)
    case Some(name) =>
      if name !in vars then Err(MissingVariableError)
      else if HasGoType(vars[name], t) then Ok(vars[name])
      else Err(WrongType)
  }

  function ResolveNumeric(s: Bytes, vars: Vars): Result<Value, FilterError> {
    match ExtractVariable(GoNumber, s, vars)
    case Ok(v) =>
      (match ParseInt(v.text)
       case Some(i) => Ok(BigInt(i))
       case None => Err(NotAnInteger))
    case Err(e) =>
      match ExtractVariable(GoFloat, s, vars)
      case Err(_) => Err(e)
      case Ok(v) => if IsIntegral(v.f) then Ok(BigInt(v.f.Floor)) else Err(NotAnInteger)
  }

  function ResolveValue(ty: FieldType, s: Bytes, vars: Vars): Result<Value, FilterError> {
    match ty
    case TypeString =>
      (match Replace(s, vars)
       case Err(e) => Err(TemplateError(e))
       case Ok(text) => Ok(Str(text)))
    case TypeBoolean => ExtractVariable(GoBool, s, vars)
    case TypeDate => ExtractVariable(GoString, s, vars)
    case TypeNumeric => ResolveNumeric(s, vars)
    case TypeMap(_) => Err(UnresolvableType)
  }

  // Only strings are resolved; other values stay.
  function ResolveIfString(ty: FieldType, v: Value, vars: Vars): Result<Value, FilterError> {
    if v.Str? then ResolveValue(ty, v.s, vars) else Ok(v)
  }

  function ResolveElems(ty: FieldType, elems: seq<Value>, vars: Vars): Result<seq<Value>, FilterError> {
    if elems == [] then Ok([])
    else
      match ResolveIfString(ty, elems[0], vars)
      case Err(e) => Err(e)
      case Ok(v) =>
        Joined([v], ResolveElems(ty, elems[1..], vars))
  }

  function ResolveFilter(operator: string, ty: FieldType, value: Value, vars: Vars): Result<Value, FilterError> {
    if operator == "$in" then
      if !value.Array? then Err(ExpectedArray)
      else
        match ResolveElems(ty, value.elems, vars)
        case Err(e) => Err(e)
        case Ok(vs) => Ok(Array(vs))
    else if operator == "$exists" then
      if ty.TypeMap? then ResolveIfString(ty.underlyingType, value, vars) else Err(ExpectedMapField)
    else if operator in COMPARISONS then ResolveIfString(ty, value, vars)
    else Err(UnexpectedOperator)
  }

  function ResolveLeaf(schema: Schema, leaf: Leaf, vars: Vars): Result<Leaf, FilterError> {
    match GetFieldType(schema, leaf.key)
    case Err(e) => Err(e)
    case Ok(ty) =>
      match ResolveFilter(leaf.operator, ty, leaf.value, vars)
      case Err(e) => Err(e)
      case Ok(v) => Ok(leaf.(value := v))
  }

  // Non-nil defaults, overridden by what the caller binds for declared names.
  function EffectiveVars(decls: VarDecls, callVars: Vars): Vars {
    map name | name in decls && (name in callVars || decls[name].default != Nil) ::
      if name in callVars then callVars[name] else decls[name].default
  }

  predicate AcceptedCallVars(decls: VarDecls, callVars: Vars, isDate: DateParser) {
    forall name :: name in callVars && name in decls ==> ValidValueType(decls[name].ty, callVars[name], isDate)
  }

  function ResolveAll(schema: Schema, filter: seq<Leaf>, vars: Vars): Result<seq<Leaf>, FilterError> {
    if filter == [] then Ok([])
    else
      match ResolveLeaf(schema, filter[0], vars)
      case Err(e) => Err(e)
      case Ok(leaf) =>
        Joined([leaf], ResolveAll(schema, filter[1..], vars))
  }

  // Overwrites the strings of the array in place, up to the first failure.
  method ResolveArray(ty: FieldType, values: array<Value>, vars: Vars) returns (error: Option<FilterError>)
    modifies values
    ensures match ResolveElems(ty, old(values[..]), vars)
            case Err(e) => error == Some(e)
            case Ok(vs) => error == None && values[..] == vs
  {
    ghost var was := values[..];
    JoinedNothing(ResolveElems(ty, was, vars));
    for idx := 0 to values.Length
      invariant values[idx..] == was[idx..]
      invariant ResolveElems(ty, was, vars) == Joined(values[..idx], ResolveElems(ty, was[idx..], vars))
    {
      assert was[idx..][0] == was[idx] && was[idx..][1..] == was[idx + 1..];
      assert values[idx..][0] == was[idx..][0];
      var resolved := ResolveIfString(ty, values[idx], vars);
      if resolved.Err? {
        return Some(resolved.error);
      }
      JoinedTwice(values[..idx], resolved.value, ResolveElems(ty, was[idx + 1..], vars));
      ghost var before := values[..];
      values[idx] := resolved.value;
      assert values[..idx + 1] == before[..idx] + [resolved.value];
      assert values[idx + 1..] == before[idx + 1..] == was[idx + 1..];
    }
    assert was[values.Length..] == [];
    assert values[..values.Length] + [] == values[..];
    return None;
  }

  function Joined<T>(done: seq<T>, rest: Result<seq<T>, FilterError>): Result<seq<T>, FilterError> {
    match rest
    case Err(e) => Err(e)
    case Ok(vs) => Ok(done + vs)
  }

  lemma {:induction false} JoinedTwice<T>(done: seq<T>, v: T, rest: Result<seq<T>, FilterError>)
    ensures Joined(done, Joined([v], rest)) == Joined(done + [v], rest)
  {
    if rest.Ok? {
      assert done + ([v] + rest.value) == done + [v] + rest.value;
    }
  }

  lemma {:induction false} JoinedNothing<T>(rest: Result<seq<T>, FilterError>)
    ensures Joined([], rest) == rest
  {
    if rest.Ok? {
      assert [] + rest.value == rest.value;
    }
  }

  // The builder's leaves are resolved in place, in the order of Walk.
  method ResolveFilterTemplate(
      schema: Schema, builder: array<Leaf>, decls: VarDecls, callVars: Vars, isDate: DateParser)
    returns (error: Option<FilterError>)
    modifies builder
    ensures if !AcceptedCallVars(decls, callVars, isDate) then error == Some(WrongType)
            else
              match ResolveAll(schema, old(builder[..]), EffectiveVars(decls, callVars))
              case Err(e) => error == Some(e)
              case Ok(leaves) => error == None && builder[..] == leaves
  {
    var bound := BindVars(decls, callVars, isDate);
    if bound.Err? {
      return Some(bound.error);
    }
    var vars := bound.value;
    ghost var was := builder[..];
    JoinedNothing(ResolveAll(schema, was, vars));
    for i := 0 to builder.Length
      invariant builder[i..] == was[i..]
      invariant ResolveAll(schema, was, vars) == Joined(builder[..i], ResolveAll(schema, was[i..], vars))
    {
      assert was[i..][0] == was[i] && was[i..][1..] == was[i + 1..];
      assert builder[i..][0] == was[i..][0];
      var resolved := ResolveLeafInPlace(schema, builder[i], vars);
      if resolved.Err? {
        return Some(resolved.error);
      }
      JoinedTwice(builder[..i], resolved.value, ResolveAll(schema, was[i + 1..], vars));
      ghost var before := builder[..];
      builder[i] := resolved.value;
      assert builder[..i + 1] == before[..i] + [resolved.value];
      assert builder[i + 1..] == before[i + 1..] == was[i + 1..];
    }
    assert was[builder.Length..] == [];
    assert builder[..builder.Length] + [] == builder[..];
    return None;
  }

  method ResolveLeafInPlace(schema: Schema, leaf: Leaf, vars: Vars) returns (r: Result<Leaf, FilterError>)
    ensures r == ResolveLeaf(schema, leaf, vars)
  {
    var ty := GetFieldType(schema, leaf.key);
    if ty.Err? {
      return Err(ty.error);
    }
    if leaf.operator == "$in" && leaf.value.Array? {
      var elems := leaf.value.elems;
      var values := new Value[|elems|](i requires 0 <= i < |elems| => elems[i]);
      assert values[..] == elems;
      var error := ResolveArray(ty.value, values, vars);
      if error.Some? {
        return Err(error.value);
      }
      return Ok(leaf.(value := Array(values[..])));
    }
    var resolved := ResolveFilter(leaf.operator, ty.value, leaf.value, vars);
    return if resolved.Err? then Err(resolved.error) else Ok(leaf.(value := resolved.value));
  }

  // The two loops that fill `vars`, over the maps in any order.
  method BindVars(decls: VarDecls, callVars: Vars, isDate: DateParser) returns (r: Result<Vars, FilterError>)
    ensures r == if AcceptedCallVars(decls, callVars, isDate) then Ok(EffectiveVars(decls, callVars))
                 else Err(WrongType)
    ensures r.Ok? <==> forall name :: name in decls.Keys * callVars.Keys ==>
                         ValidValueType(decls[name].ty, callVars[name], isDate)
    ensures r.Ok? ==> forall name ::
                        && (name in r.value <==> name in decls && (name in callVars || decls[name].default != Nil))
                        && (name in r.value ==>
                              r.value[name] == if name in callVars then callVars[name] else decls[name].default)
  {
    var vars: Vars := map[];
    var todo := decls.Keys;
    while todo != {}
      invariant todo <= decls.Keys
      invariant forall k :: k in vars <==> k in decls && k !in todo && decls[k].default != Nil
      invariant forall k :: k in vars ==> vars[k] == decls[k].default
      decreases todo
    {
      var k :| k in todo;
      todo := todo - {k};
      if decls[k].default != Nil {
        vars := vars[k := decls[k].default];
      }
    }
    todo := callVars.Keys;
    while todo != {}
      invariant todo <= callVars.Keys
      invariant forall k :: k in vars <==> k in decls && (decls[k].default != Nil || (k in callVars && k !in todo))
      invariant forall k :: k in vars ==>
                  vars[k] == if k in callVars && k !in todo then callVars[k] else decls[k].default
      invariant forall k :: k in callVars && k !in todo && k in decls ==>
                  ValidValueType(decls[k].ty, callVars[k], isDate)
      decreases todo
    {
      var k :| k in todo;
      todo := todo - {k};
      if k in decls {
        if !ValidValueType(decls[k].ty, callVars[k], isDate) {
          return Err(WrongType);
        }
        vars := vars[k := callVars[k]];
      }
    }
    assert vars == EffectiveVars(decls, callVars);
    return Ok(vars);
  }
}
