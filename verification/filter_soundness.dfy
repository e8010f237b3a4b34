// The two phases agree: what passes the static check resolves, and what it resolves
// to has the type the check announced.
module FilterSoundness {
  import opened Wrappers
  import opened Decimals
  import opened Substitution
  import opened TemplateGrammar
  import opened FilterTemplates

  // A bound value that resolution can put in the place of a reference. Validation
  // also accepts nil and *big.Int, which it cannot.
  predicate Usable(v: Value) {
    !v.Nil? && !v.BigInt?
  }

  // The variables that resolving a value at a type refers to.
  function References(ty: FieldType, v: Value): set<Bytes> {
    if !v.Str? then {}
    else if ty == TypeString then
      (match Parse(v.s, [])
       case Err(_) => {}
       case Ok((_, names)) => set n <- names)
    else
      match ExtractVariableName(v.s)
      case None => {}
      case Some(name) => {name}
  }

  function LeafReferences(schema: Schema, leaf: Leaf): set<Bytes> {
    match GetFieldType(schema, leaf.key)
    case Err(_) => {}
    case Ok(ty) =>
      if leaf.operator == "$in" then
        if leaf.value.Array? then set v <- leaf.value.elems, n <- References(ty, v) :: n else {}
      else if leaf.operator == "$exists" then
        if ty.TypeMap? then References(ty.underlyingType, leaf.value) else {}
      else References(ty, leaf.value)
  }

  predicate Bound(names: set<Bytes>, vars: Vars) {
    forall n :: n in names ==> n in vars && Usable(vars[n])
  }

  // The variables hold values of their declared types.
  predicate WellTyped(decls: VarDecls, vars: Vars, isDate: DateParser) {
    forall n :: n in vars ==> n in decls && ValidValueType(decls[n].ty, vars[n], isDate)
  }

  lemma {:induction false} EffectiveVarsWellTyped(decls: VarDecls, callVars: Vars, isDate: DateParser)
    requires ValidVarDeclarations(decls, isDate) && AcceptedCallVars(decls, callVars, isDate)
    ensures WellTyped(decls, EffectiveVars(decls, callVars), isDate)
  {
  }

  // A string template is filled in exactly when all its variables are bound.

  lemma {:induction false} PrintableIffUsable(ty: FieldType, v: Value, isDate: DateParser)
    requires ValidValueType(ty, v, isDate)
    ensures JsonToString(v).Ok? <==> Usable(v)
  {
  }

  lemma {:induction false} FillsIff(strs: seq<Bytes>, names: seq<Bytes>, vars: Vars)
    requires |names| <= |strs| + 1
    ensures Fill(strs, names, vars).Ok? <==> forall n :: n in names ==> Lookup(n, vars).Ok?
  {
    if strs != [] {
      if names == [] {
        FillsIff(strs[1..], [], vars);
      } else {
        FillsIff(strs[1..], names[1..], vars);
        assert forall n :: n in names <==> n == names[0] || n in names[1..];
      }
    } else if names != [] {
      assert names == [names[0]];
    }
  }

  lemma {:induction false} OneLiteralPerVariable(s: Bytes)
    requires Parse(s, []).Ok?
    ensures |Parse(s, []).value.1| <= |Parse(s, []).value.0|
  {
    TokensOfAccepted(s, []);
    ListsSize(Tokens(s), []);
  }

  lemma {:induction false} StringResolvesIff(s: Bytes, decls: VarDecls, vars: Vars, isDate: DateParser)
    requires ValidStringTemplate(s, decls) && WellTyped(decls, vars, isDate)
    ensures ResolveValue(TypeString, s, vars).Ok? <==> Bound(References(TypeString, Str(s)), vars)
  {
    var (strs, names) := Parse(s, []).value;
    OneLiteralPerVariable(s);
    FillsIff(strs, names, vars);
    forall n | n in names && n in vars
      ensures Lookup(n, vars).Ok? <==> Usable(vars[n])
    {
      PrintableIffUsable(decls[n].ty, vars[n], isDate);
    }
  }

  lemma {:induction false} VarRefResolvesIff(ty: FieldType, s: Bytes, decls: VarDecls, vars: Vars, isDate: DateParser)
    requires ty != TypeString && ValidVarRef(ty, s, decls) && WellTyped(decls, vars, isDate)
    requires forall n :: n in decls ==> !decls[n].ty.TypeMap?
    ensures ResolveValue(ty, s, vars).Ok? <==> Bound(References(ty, Str(s)), vars)
  {
    var name := ExtractVariableName(s).value;
    if name in vars {
      assert ValidValueType(ty, vars[name], isDate);
    }
  }

  lemma {:induction false} ValueResolvesIff(ty: FieldType, v: Value, decls: VarDecls, vars: Vars, isDate: DateParser)
    requires ValidVarDeclarations(decls, isDate) && WellTyped(decls, vars, isDate)
    requires ValidValue(ty, v, decls, isDate)
    ensures ResolveIfString(ty, v, vars).Ok? <==> Bound(References(ty, v), vars)
  {
    if v.Str? {
      if ty == TypeString {
        StringResolvesIff(v.s, decls, vars, isDate);
      } else {
        VarRefResolvesIff(ty, v.s, decls, vars, isDate);
      }
    }
  }

  // What a value of a filter stands for under a binding of the variables: itself, or
  // for a string, the text it spells or the value of the variable it names.
  ghost predicate Means(ty: FieldType, v: Value, vars: Vars, r: Value) {
    if !v.Str? then r == v
    else if ty.TypeString? then
      r.Str? && exists ts :: WellFormed(ts) && Print(ts) == v.s && Instantiate(ts, vars) == Ok(r.s)
    else
      && ExtractVariableName(v.s).Some?
      && var name := ExtractVariableName(v.s).value;
         && name in vars
         && if !ty.TypeNumeric? then r == vars[name]
            else if vars[name].Number? then r.BigInt? && ParseInt(vars[name].text) == Some(r.i)
            else vars[name].Float? && r.BigInt? && r.i as real == vars[name].f
  }

  lemma {:induction false} ValueMeans(ty: FieldType, v: Value, vars: Vars)
    requires ResolveIfString(ty, v, vars).Ok?
    ensures Means(ty, v, vars, ResolveIfString(ty, v, vars).value)
  {
    if v.Str? && ty.TypeString? {
      TokensOfAccepted(v.s, []);
      ReplaceInstantiates(Tokens(v.s), vars);
    }
  }

  // A resolved value: of the class of its type, and standing for the original.
  ghost predicate ResolvedAs(ty: FieldType, v: Value, vars: Vars, r: Value, isDate: DateParser) {
    ValidValueType(ty, r, isDate) && Means(ty, v, vars, r)
  }

  lemma {:induction false} ValueResolvedAs(ty: FieldType, v: Value, decls: VarDecls, vars: Vars, isDate: DateParser)
    requires WellTyped(decls, vars, isDate) && ValidValue(ty, v, decls, isDate)
    requires ResolveIfString(ty, v, vars).Ok?
    ensures ResolvedAs(ty, v, vars, ResolveIfString(ty, v, vars).value, isDate)
  {
    ValueMeans(ty, v, vars);
    if v.Str? && ty != TypeString {
      var name := ExtractVariableName(v.s).value;
      if name in vars {
        assert ValidValueType(ty, vars[name], isDate);
      }
    }
  }

  lemma {:induction false} ElemsResolveIff(ty: FieldType, elems: seq<Value>, decls: VarDecls, vars: Vars,
                                           isDate: DateParser)
    requires ValidVarDeclarations(decls, isDate) && WellTyped(decls, vars, isDate)
    requires forall v :: v in elems ==> ValidValue(ty, v, decls, isDate)
    ensures ResolveElems(ty, elems, vars).Ok? <==> forall v :: v in elems ==> Bound(References(ty, v), vars)
    ensures ResolveElems(ty, elems, vars).Ok? ==>
              && |ResolveElems(ty, elems, vars).value| == |elems|
              && forall i :: 0 <= i < |elems| ==>
                   ResolvedAs(ty, elems[i], vars, ResolveElems(ty, elems, vars).value[i], isDate)
  {
    if elems != [] {
      ValueResolvesIff(ty, elems[0], decls, vars, isDate);
      ElemsResolveIff(ty, elems[1..], decls, vars, isDate);
      assert forall v :: v in elems <==> v == elems[0] || v in elems[1..];
      if ResolveIfString(ty, elems[0], vars).Ok? {
        ValueResolvedAs(ty, elems[0], decls, vars, isDate);
      }
    }
  }

  // A resolved leaf keeps operator and key; its value - each element of an `$in`, the
  // value of an `$exists` at the type of the map's elements - is resolved.
  ghost predicate LeafResolvedAs(schema: Schema, leaf: Leaf, vars: Vars, r: Leaf, isDate: DateParser) {
    && r.operator == leaf.operator && r.key == leaf.key
    && match GetFieldType(schema, leaf.key)
       case Err(_) => false
       case Ok(ty) =>
         if leaf.operator == "$in" then
           && leaf.value.Array? && r.value.Array?
           && |r.value.elems| == |leaf.value.elems|
           && forall i :: 0 <= i < |leaf.value.elems| ==>
                ResolvedAs(ty, leaf.value.elems[i], vars, r.value.elems[i], isDate)
         else if leaf.operator == "$exists" then
           ty.TypeMap? && ResolvedAs(ty.underlyingType, leaf.value, vars, r.value, isDate)
         else leaf.operator in COMPARISONS && ResolvedAs(ty, leaf.value, vars, r.value, isDate)
  }

  lemma {:induction false} LeafResolvesIff(schema: Schema, leaf: Leaf, decls: VarDecls, vars: Vars, isDate: DateParser)
    requires ValidVarDeclarations(decls, isDate) && WellTyped(decls, vars, isDate)
    requires ValidLeaf(schema, leaf, decls, isDate)
    ensures ResolveLeaf(schema, leaf, vars).Ok? <==> Bound(LeafReferences(schema, leaf), vars)
    ensures ResolveLeaf(schema, leaf, vars).Ok? ==>
              LeafResolvedAs(schema, leaf, vars, ResolveLeaf(schema, leaf, vars).value, isDate)
  {
    var ty := GetFieldType(schema, leaf.key).value;
    if leaf.operator == "$in" {
      ElemsResolveIff(ty, leaf.value.elems, decls, vars, isDate);
      ElemsBound(ty, leaf.value.elems, vars);
    } else {
      var at := if leaf.operator == "$exists" then ty.underlyingType else ty;
      ValueResolvesIff(at, leaf.value, decls, vars, isDate);
      if ResolveIfString(at, leaf.value, vars).Ok? {
        ValueResolvedAs(at, leaf.value, decls, vars, isDate);
      }
    }
  }

  lemma {:induction false} ElemsBound(ty: FieldType, elems: seq<Value>, vars: Vars)
    ensures Bound(set v <- elems, n <- References(ty, v) :: n, vars)
            <==> forall v :: v in elems ==> Bound(References(ty, v), vars)
  {
    if Bound(set v <- elems, n <- References(ty, v) :: n, vars) {
      forall v | v in elems
        ensures Bound(References(ty, v), vars)
      {
        forall n | n in References(ty, v)
          ensures n in vars && Usable(vars[n])
        {
          assert n in (set v <- elems, n <- References(ty, v) :: n);
        }
      }
    }
  }

  // Leaf i is the first that does not resolve.
  predicate FailsAt(schema: Schema, filter: seq<Leaf>, vars: Vars, i: nat, e: FilterError) {
    && i < |filter| && ResolveLeaf(schema, filter[i], vars) == Err(e)
    && forall j :: 0 <= j < i ==> ResolveLeaf(schema, filter[j], vars).Ok?
  }

  predicate EachResolves(schema: Schema, filter: seq<Leaf>, vars: Vars, leaves: seq<Leaf>) {
    |leaves| == |filter| && forall i :: 0 <= i < |filter| ==> ResolveLeaf(schema, filter[i], vars) == Ok(leaves[i])
  }

  ghost predicate FailsFirst(schema: Schema, filter: seq<Leaf>, vars: Vars, e: FilterError) {
    exists i: nat :: FailsAt(schema, filter, vars, i, e)
  }

  lemma {:induction false} FailsAtOnce(schema: Schema, filter: seq<Leaf>, vars: Vars)
    requires filter != [] && ResolveLeaf(schema, filter[0], vars).Err?
    ensures FailsFirst(schema, filter, vars, ResolveLeaf(schema, filter[0], vars).error)
  {
    var i: nat, e := 0, ResolveLeaf(schema, filter[0], vars).error;
    assert FailsAt(schema, filter, vars, i, e);
  }

  lemma {:induction false} FailsLater(schema: Schema, filter: seq<Leaf>, vars: Vars, e: FilterError)
    requires filter != [] && ResolveLeaf(schema, filter[0], vars).Ok? && FailsFirst(schema, filter[1..], vars, e)
    ensures FailsFirst(schema, filter, vars, e)
  {
    var i: nat :| FailsAt(schema, filter[1..], vars, i, e);
    forall j | 0 < j <= i + 1
      ensures filter[j] == filter[1..][j - 1]
    {
    }
    assert FailsAt(schema, filter, vars, i + 1, e);
  }

  lemma {:induction false} ResolvesLater(schema: Schema, filter: seq<Leaf>, vars: Vars, first: Leaf, rest: seq<Leaf>)
    requires filter != [] && ResolveLeaf(schema, filter[0], vars) == Ok(first)
    requires EachResolves(schema, filter[1..], vars, rest)
    ensures EachResolves(schema, filter, vars, [first] + rest)
  {
    forall i | 0 < i < |filter|
      ensures filter[i] == filter[1..][i - 1]
    {
    }
  }

  // The first failure decides; without one, each leaf is resolved where it stands.
  lemma {:induction false} FirstFailureDecides(schema: Schema, filter: seq<Leaf>, vars: Vars)
    ensures var r := ResolveAll(schema, filter, vars);
            if r.Ok? then EachResolves(schema, filter, vars, r.value) else FailsFirst(schema, filter, vars, r.error)
  {
    if filter == [] {
    } else if ResolveLeaf(schema, filter[0], vars).Err? {
      FailsAtOnce(schema, filter, vars);
    } else {
      FirstFailureDecides(schema, filter[1..], vars);
      var first, rest := ResolveLeaf(schema, filter[0], vars).value, ResolveAll(schema, filter[1..], vars);
      if rest.Err? {
        FailsLater(schema, filter, vars, rest.error);
      } else {
        ResolvesLater(schema, filter, vars, first, rest.value);
      }
    }
  }

  lemma {:induction false} FilterResolvesIff(schema: Schema, filter: seq<Leaf>, decls: VarDecls, vars: Vars,
                                             isDate: DateParser)
    requires ValidVarDeclarations(decls, isDate) && WellTyped(decls, vars, isDate)
    requires forall leaf :: leaf in filter ==> ValidLeaf(schema, leaf, decls, isDate)
    ensures ResolveAll(schema, filter, vars).Ok?
            <==> forall leaf :: leaf in filter ==> Bound(LeafReferences(schema, leaf), vars)
    ensures ResolveAll(schema, filter, vars).Ok? ==>
              var resolved := ResolveAll(schema, filter, vars).value;
              && |resolved| == |filter|
              && forall i :: 0 <= i < |filter| ==> LeafResolvedAs(schema, filter[i], vars, resolved[i], isDate)
  {
    if filter != [] {
      assert filter[0] in filter;
      LeafResolvesIff(schema, filter[0], decls, vars, isDate);
      FilterResolvesIff(schema, filter[1..], decls, vars, isDate);
      assert forall leaf :: leaf in filter <==> leaf == filter[0] || leaf in filter[1..];
    }
  }

  // Main results, for a template that was accepted when stored.

  // It resolves if and only if the caller's values are accepted for the declared
  // variables and every variable that the filter refers to has a usable value.
  lemma {:induction false} ResolvesIff(schema: Schema, filter: seq<Leaf>, decls: VarDecls, callVars: Vars,
                                       isDate: DateParser)
    requires ValidVarDeclarations(decls, isDate)
    requires forall leaf :: leaf in filter ==> ValidLeaf(schema, leaf, decls, isDate)
    requires AcceptedCallVars(decls, callVars, isDate)
    ensures ResolveAll(schema, filter, EffectiveVars(decls, callVars)).Ok?
            <==> forall leaf :: leaf in filter ==> Bound(LeafReferences(schema, leaf), EffectiveVars(decls, callVars))
  {
    EffectiveVarsWellTyped(decls, callVars, isDate);
    FilterResolvesIff(schema, filter, decls, EffectiveVars(decls, callVars), isDate);
  }

  // Progress: the references of a valid leaf are declared, so binding every declared
  // variable to a usable value is enough.
  lemma {:induction false} Progress(schema: Schema, filter: seq<Leaf>, decls: VarDecls, callVars: Vars,
                                    isDate: DateParser)
    requires ValidVarDeclarations(decls, isDate)
    requires forall leaf :: leaf in filter ==> ValidLeaf(schema, leaf, decls, isDate)
    requires AcceptedCallVars(decls, callVars, isDate)
    requires forall name :: name in decls ==>
               Usable(if name in callVars then callVars[name] else decls[name].default)
    ensures ResolveAll(schema, filter, EffectiveVars(decls, callVars)).Ok?
  {
    ResolvesIff(schema, filter, decls, callVars, isDate);
    forall leaf | leaf in filter
      ensures Bound(LeafReferences(schema, leaf), EffectiveVars(decls, callVars))
    {
      ReferencesDeclared(schema, leaf, decls, isDate);
    }
  }

  lemma {:induction false} ReferencesDeclared(schema: Schema, leaf: Leaf, decls: VarDecls, isDate: DateParser)
    requires ValidLeaf(schema, leaf, decls, isDate)
    ensures LeafReferences(schema, leaf) <= decls.Keys
  {
  }

  // Preservation: every leaf is resolved to values that are nil or of the class of
  // their field, and that stand for what the template says.
  lemma {:induction false} Preservation(schema: Schema, filter: seq<Leaf>, decls: VarDecls, callVars: Vars,
                                        isDate: DateParser)
    requires ValidVarDeclarations(decls, isDate)
    requires forall leaf :: leaf in filter ==> ValidLeaf(schema, leaf, decls, isDate)
    requires AcceptedCallVars(decls, callVars, isDate)
    requires ResolveAll(schema, filter, EffectiveVars(decls, callVars)).Ok?
    ensures var vars := EffectiveVars(decls, callVars);
            var resolved := ResolveAll(schema, filter, vars).value;
            && |resolved| == |filter|
            && forall i :: 0 <= i < |filter| ==> LeafResolvedAs(schema, filter[i], vars, resolved[i], isDate)
  {
    EffectiveVarsWellTyped(decls, callVars, isDate);
    FilterResolvesIff(schema, filter, decls, EffectiveVars(decls, callVars), isDate);
  }

  // A declared variable without a default, bound to nil, is accepted and does not resolve.
  lemma {:induction false} NilDoesNotResolve(isDate: DateParser)
    ensures var schema, leaf := GetResourceSchema(LogKind), Leaf("$match", "id", Str("${v}"));
            var decls: VarDecls, callVars: Vars := map["v" := VarDecl(TypeNumeric, Nil)], map["v" := Nil];
            && ValidVarDeclarations(decls, isDate) && ValidLeaf(schema, leaf, decls, isDate)
            && AcceptedCallVars(decls, callVars, isDate)
            && ResolveAll(schema, [leaf], EffectiveVars(decls, callVars)).Err?
  {
    var schema, leaf := GetResourceSchema(LogKind), Leaf("$match", "id", Str("${v}"));
    var decls: VarDecls, callVars: Vars := map["v" := VarDecl(TypeNumeric, Nil)], map["v" := Nil];
    IdIsNumeric();
    var s: Bytes := "${v}";
    assert s[..2] == "${" && s[2..3] == "v";
    assert ExtractVariableName(s) == Some("v");
    assert LeafReferences(schema, leaf) == {"v"};
    assert leaf in [leaf];
    ResolvesIff(schema, [leaf], decls, callVars, isDate);
  }

  lemma {:induction false} IdIsNumeric()
    ensures GetFieldType(GetResourceSchema(LogKind), "id") == Ok(TypeNumeric)
  {
    var schema, key: Bytes := GetResourceSchema(LogKind), "id";
    ResourceSchemasUnambiguous(LogKind);
    var field := Field("id", {}, TypeNumeric);
    assert schema[1] == field;
    LookupIgnoresOrder(schema, key, field);
    assert key[1..][1..] == [];
    assert NameLength(key[1..]) == 1;
    assert NameLength(key) == 2;
  }
}
