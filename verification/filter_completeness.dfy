// The static check of filters refuses nothing that is safe: a leaf is accepted exactly when
// it resolves to values of its field's type under every binding of the declared variables.
module FilterCompleteness {
  import opened Wrappers
  import opened Decimals
  import opened Substitution
  import opened TemplateGrammar
  import opened FilterTemplates
  import opened FilterSoundness

  // A leaf whose values, already resolved, have the type of its field.
  predicate LeafTyped(schema: Schema, leaf: Leaf, isDate: DateParser) {
    match GetFieldType(schema, leaf.key)
    case Err(_) => false
    case Ok(ty) =>
      if leaf.operator == "$in" then
        leaf.value.Array? && AllTyped(ty, leaf.value.elems, isDate)
      else if leaf.operator == "$exists" then
        ty.TypeMap? && ValidValueType(ty.underlyingType, leaf.value, isDate)
      else ValidValueType(ty, leaf.value, isDate)
  }

  predicate AllTyped(ty: FieldType, values: seq<Value>, isDate: DateParser) {
    forall v :: v in values ==> ValidValueType(ty, v, isDate)
  }

  predicate Safe(schema: Schema, leaf: Leaf, vars: Vars, isDate: DateParser) {
    && ResolveLeaf(schema, leaf, vars).Ok?
    && LeafTyped(schema, ResolveLeaf(schema, leaf, vars).value, isDate)
  }

  predicate BindsAll(decls: VarDecls, vars: Vars, isDate: DateParser) {
    WellTyped(decls, vars, isDate) && vars.Keys == decls.Keys && forall n :: n in vars ==> Usable(vars[n])
  }

  // One binding that tells every ill-typed leaf: a date where a date is declared, and a
  // text that is none where a string is.
  function Example(ty: FieldType, date: Bytes, text: Bytes): Value {
    match ty
    case TypeBoolean => Bool(true)
    case TypeDate => Str(date)
    case TypeNumeric => Number("1")
    case TypeString => Str(text)
    case TypeMap(_) => Nil
  }

  function Examples(decls: VarDecls, date: Bytes, text: Bytes): Vars {
    map n | n in decls :: Example(decls[n].ty, date, text)
  }

  lemma {:induction false} ExamplesBindAll(decls: VarDecls, date: Bytes, text: Bytes, isDate: DateParser)
    requires ValidVarDeclarations(decls, isDate) && isDate(date)
    ensures BindsAll(decls, Examples(decls, date, text), isDate)
  {
    assert ParseInt("1").Some?;
  }

  // One value.

  lemma {:induction false} TemplateSafeIff(s: Bytes, decls: VarDecls, vars: Vars, isDate: DateParser)
    requires BindsAll(decls, vars, isDate)
    ensures ResolveValue(TypeString, s, vars).Ok? <==> ValidStringTemplate(s, decls)
    ensures ResolveValue(TypeString, s, vars).Ok? ==> ResolveValue(TypeString, s, vars).value.Str?
  {
    if Parse(s, []).Ok? {
      var (strs, names) := Parse(s, []).value;
      OneLiteralPerVariable(s);
      FillsIff(strs, names, vars);
      forall n | n in names
        ensures Lookup(n, vars).Ok? <==> n in decls
      {
        if n in decls {
          assert n in vars.Keys;
          PrintableIffUsable(decls[n].ty, vars[n], isDate);
        }
      }
    }
  }

  lemma {:induction false} ValueSafeIff(
      ty: FieldType, v: Value, decls: VarDecls, date: Bytes, text: Bytes, isDate: DateParser)
    requires ValidVarDeclarations(decls, isDate) && isDate(date) && !isDate(text)
    ensures var r := ResolveIfString(ty, v, Examples(decls, date, text));
            ValidValue(ty, v, decls, isDate) <==> r.Ok? && ValidValueType(ty, r.value, isDate)
  {
    var vars := Examples(decls, date, text);
    ExamplesBindAll(decls, date, text, isDate);
    if v.Str? {
      if ty == TypeString {
        TemplateSafeIff(v.s, decls, vars, isDate);
      } else {
        RefSafeIff(ty, v.s, decls, date, text, isDate);
      }
    }
  }

  lemma {:induction false} RefSafeIff(
      ty: FieldType, s: Bytes, decls: VarDecls, date: Bytes, text: Bytes, isDate: DateParser)
    requires ty != TypeString
    requires ValidVarDeclarations(decls, isDate) && isDate(date) && !isDate(text)
    ensures var r := ResolveValue(ty, s, Examples(decls, date, text));
            ValidVarRef(ty, s, decls) <==> r.Ok? && ValidValueType(ty, r.value, isDate)
  {
    assert ParseInt("1").Some?;
    var name := ExtractVariableName(s);
    if name.Some? && name.value in decls {
      assert ValidValueType(decls[name.value].ty, decls[name.value].default, isDate);
      assert Examples(decls, date, text)[name.value] == Example(decls[name.value].ty, date, text);
    }
  }

  lemma {:induction false} ElemsSafeIff(
      ty: FieldType, elems: seq<Value>, decls: VarDecls, date: Bytes, text: Bytes, isDate: DateParser)
    requires ValidVarDeclarations(decls, isDate) && isDate(date) && !isDate(text)
    ensures var r := ResolveElems(ty, elems, Examples(decls, date, text));
            (forall v :: v in elems ==> ValidValue(ty, v, decls, isDate))
            <==> r.Ok? && AllTyped(ty, r.value, isDate)
  {
    if elems != [] {
      var vars := Examples(decls, date, text);
      ValueSafeIff(ty, elems[0], decls, date, text, isDate);
      ElemsSafeIff(ty, elems[1..], decls, date, text, isDate);
      assert forall v :: v in elems <==> v == elems[0] || v in elems[1..];
      var rest := ResolveElems(ty, elems[1..], vars);
      if rest.Ok? && ResolveIfString(ty, elems[0], vars).Ok? {
        var first, all := ResolveIfString(ty, elems[0], vars).value, ResolveElems(ty, elems, vars).value;
        assert all == [first] + rest.value;
        assert forall v :: v in all <==> v == first || v in rest.value;
      }
    }
  }

  lemma {:induction false} LeafSafeIff(
      schema: Schema, leaf: Leaf, decls: VarDecls, date: Bytes, text: Bytes, isDate: DateParser)
    requires ValidVarDeclarations(decls, isDate) && isDate(date) && !isDate(text)
    ensures ValidLeaf(schema, leaf, decls, isDate) <==> Safe(schema, leaf, Examples(decls, date, text), isDate)
  {
    if GetFieldType(schema, leaf.key).Ok? {
      var ty := GetFieldType(schema, leaf.key).value;
      if leaf.operator == "$in" {
        if leaf.value.Array? {
          ElemsSafeIff(ty, leaf.value.elems, decls, date, text, isDate);
        }
      } else {
        var at := if leaf.operator == "$exists" && ty.TypeMap? then ty.underlyingType else ty;
        ValueSafeIff(at, leaf.value, decls, date, text, isDate);
      }
    }
  }

  // Main result. Some text must be a date, and some text none.
  lemma {:induction false} AcceptedIffSafe(
      schema: Schema, leaf: Leaf, decls: VarDecls, date: Bytes, text: Bytes, isDate: DateParser)
    requires ValidVarDeclarations(decls, isDate) && isDate(date) && !isDate(text)
    ensures ValidLeaf(schema, leaf, decls, isDate)
            <==> forall vars :: BindsAll(decls, vars, isDate) ==> Safe(schema, leaf, vars, isDate)
  {
    LeafSafeIff(schema, leaf, decls, date, text, isDate);
    ExamplesBindAll(decls, date, text, isDate);
    if ValidLeaf(schema, leaf, decls, isDate) {
      forall vars | BindsAll(decls, vars, isDate)
        ensures Safe(schema, leaf, vars, isDate)
      {
        LeafResolvesIff(schema, leaf, decls, vars, isDate);
        ReferencesDeclared(schema, leaf, decls, isDate);
        assert forall n :: n in LeafReferences(schema, leaf) ==> n in vars.Keys;
      }
    }
  }
}
