// What a filter's field names and a template's variables stand for.
module FilterAccess {
  import opened Wrappers
  import opened Decimals
  import opened Substitution
  import opened TemplateGrammar
  import opened FilterTemplates

  // Field names, as they are written: a name, or a name and an index. Their characters by
  // code point: 95 is the underscore, 47 the slash.

  predicate IsLower(b: Byte) {
    97 <= b as int <= 122
  }

  predicate IsFieldName(key: Bytes) {
    key != [] && forall b :: b in key ==> IsLower(b) || b as int == 95
  }

  predicate IsIndex(index: Bytes) {
    && index != []
    && forall b :: b in index ==>
         IsLower(b) || 65 <= b as int <= 90 || 48 <= b as int <= 57 || b as int == 95 || b as int == 47
  }

  lemma {:induction false} NameChars(b: Byte)
    ensures IsNameChar(b) <==> IsLower(b) || b as int == 95
    ensures IsIndexChar(b) <==>
              IsLower(b) || 65 <= b as int <= 90 || 48 <= b as int <= 57 || b as int == 95 || b as int == 47
  {
    assert b as int == 95 ==> b == 95 as char;
    assert b as int == 47 ==> b == 47 as char;
  }

  lemma {:induction false} NameOf(key: Bytes)
    ensures IsFieldName(key) <==> key != [] && forall i :: 0 <= i < |key| ==> IsNameChar(key[i])
    ensures IsIndex(key) <==> key != [] && forall i :: 0 <= i < |key| ==> IsIndexChar(key[i])
  {
    forall i | 0 <= i < |key|
      ensures IsNameChar(key[i]) <==> IsLower(key[i]) || key[i] as int == 95
    {
      NameChars(key[i]);
    }
    forall b | b in key
      ensures IsIndexChar(b) <==>
                IsLower(b) || 65 <= b as int <= 90 || 48 <= b as int <= 57 || b as int == 95 || b as int == 47
    {
      NameChars(b);
    }
  }

  function PrintAccess(key: Bytes, index: Option<Bytes>): Bytes {
    if index.None? then key else key + "[" + index.value + "]"
  }

  predicate IsAccess(key: Bytes, index: Option<Bytes>) {
    IsFieldName(key) && (index.Some? ==> IsIndex(index.value))
  }

  lemma {:induction false} NameLengthOf(key: Bytes, rest: Bytes)
    requires forall i :: 0 <= i < |key| ==> IsNameChar(key[i])
    requires rest != [] ==> !IsNameChar(rest[0])
    ensures NameLength(key + rest) == |key|
    decreases |key|
  {
    if key == [] {
      assert key + rest == rest;
    } else {
      assert (key + rest)[1..] == key[1..] + rest;
      NameLengthOf(key[1..], rest);
    }
  }

  lemma {:induction false} BareAccess(key: Bytes)
    requires IsFieldName(key)
    ensures ParseAccess(key) == Some((key, []))
  {
    NameOf(key);
    assert key + [] == key;
    NameLengthOf(key, []);
  }

  lemma {:induction false} IndexedParts(key: Bytes, index: Bytes)
    ensures var s := key + "[" + index + "]"; var n := |key|;
            && |s| == n + |index| + 2 && s[n] == '[' && s[|s| - 1] == ']'
            && s[..n] == key && s[n + 1..|s| - 1] == index
            && s == key + ("[" + index + "]")
  {
  }

  lemma {:induction false} IndexedAccess(key: Bytes, index: Bytes)
    requires IsFieldName(key) && IsIndex(index)
    ensures ParseAccess(key + "[" + index + "]") == Some((key, index))
  {
    var s, n := key + "[" + index + "]", |key|;
    IndexedParts(key, index);
    NameOf(key);
    NameOf(index);
    NameLengthOf(key, "[" + index + "]");
    forall i | n < i < |s| - 1
      ensures IsIndexChar(s[i])
    {
      assert s[i] == index[i - n - 1];
    }
  }

  // The parser reads back exactly the written names.
  lemma {:induction false} AccessReadBack(key: Bytes, index: Option<Bytes>)
    requires IsAccess(key, index)
    ensures ParseAccess(PrintAccess(key, index)) == Some((key, if index.Some? then index.value else []))
  {
    match index
    case None => BareAccess(key);
    case Some(i) => IndexedAccess(key, i);
  }

  lemma {:induction false} NameLengthChars(s: Bytes)
    ensures forall i :: 0 <= i < NameLength(s) ==> IsNameChar(s[i])
  {
    if s != [] && IsNameChar(s[0]) {
      NameLengthChars(s[1..]);
      assert forall i :: 0 < i < NameLength(s) ==> s[i] == s[1..][i - 1];
    }
  }

  lemma {:induction false} AccessIsPrinted(s: Bytes)
    requires ParseAccess(s).Some?
    ensures var (key, index) := ParseAccess(s).value;
            var i := if index == [] then None else Some(index);
            IsAccess(key, i) && PrintAccess(key, i) == s
  {
    var n := NameLength(s);
    NameLengthChars(s);
    NameOf(s[..n]);
    if n < |s| {
      var index := s[n + 1..|s| - 1];
      assert forall i :: 0 <= i < |index| ==> index[i] == s[n + 1 + i];
      NameOf(index);
      assert s == s[..n] + "[" + index + "]";
    }
  }

  // A value refers to a variable exactly when it is a name between "${" and "}".
  lemma {:induction false} VariableNameIff(s: Bytes, name: Bytes)
    ensures ExtractVariableName(s) == Some(name) <==> IsFieldName(name) && s == "${" + name + "}"
  {
    var written := "${" + name + "}";
    NameOf(name);
    assert written[..2] == "${" && written[2..|written| - 1] == name;
    if ExtractVariableName(s) == Some(name) {
      assert forall i :: 0 <= i < |name| ==> name[i] == s[i + 2];
      assert s == s[..2] + name + [s[|s| - 1]];
    }
  }

  // Main result, for a schema whose fields do not clash: a name without an index has the
  // type of its field; with an index, the type of the elements of its field, if that is a map.
  lemma {:induction false} FieldTypeIff(schema: Schema, key: Bytes, index: Option<Bytes>, t: FieldType)
    requires Unambiguous(schema) && IsAccess(key, index)
    ensures GetFieldType(schema, PrintAccess(key, index)) == Ok(t)
            <==> exists f :: f in schema && MatchKey(f, key) && f.ty == (if index.None? then t else TypeMap(t))
  {
    AccessReadBack(key, index);
    var found := GetFieldByNameOrAlias(schema, key);
    if found.Some? {
      LookupIgnoresOrder(schema, key, found.value);
    }
    forall f | f in schema && MatchKey(f, key)
      ensures found == Some(f)
    {
      LookupIgnoresOrder(schema, key, f);
    }
  }

  // Nothing else has a type.
  lemma {:induction false} TypedNamesArePrinted(schema: Schema, access: Bytes)
    requires GetFieldType(schema, access).Ok?
    ensures exists key, index :: IsAccess(key, index) && PrintAccess(key, index) == access
  {
    AccessIsPrinted(access);
  }

  // The texts of variables.

  predicate InInt64(f: real) {
    -0x8000_0000_0000_0000 as real <= f < 0x8000_0000_0000_0000 as real
  }

  // The text of a reference alone, for each class of value the variable may be bound to.
  ghost predicate IsTextOf(r: Result<Bytes, SubstitutionError>, v: Value) {
    match v
    case Str(s) => r == Ok(s)
    case Number(text) => r == Ok(text)
    case Bool(b) => r.Ok? && (b <==> r.value == "true") && (!b <==> r.value == "false")
    case Float(f) =>
      if !IsIntegral(f) then r == Err(DecimalNumber)
      else r.Ok? && ParseInt(r.value).Some?
           && if InInt64(f) then ParseInt(r.value).value as real == f
              else ParseInt(r.value).value == -0x8000_0000_0000_0000
    case Nil => r == Err(UnexpectedVariableType)
    case BigInt(_) => r == Err(UnexpectedVariableType)
    case Array(_) => r == Err(UnexpectedVariableType)
    case Object(_) => r == Err(UnexpectedVariableType)
  }

  lemma {:induction false} VariableText(x: Bytes, braced: bool, vars: map<Bytes, Value>)
    requires IsIdent(x)
    ensures var r := Replace(Print([Var(x, braced)]), vars);
            if x in vars then IsTextOf(r, vars[x]) else r == Err(MissingVariable(x))
  {
    var ts := [Var(x, braced)];
    assert ts[1..] == [];
    ReplaceInstantiates(ts, vars);
    if x in vars {
      TextOfValue(vars[x]);
      if JsonToString(vars[x]).Ok? {
        assert JsonToString(vars[x]).value + [] == JsonToString(vars[x]).value;
      }
    }
  }

  lemma {:induction false} TextOfValue(v: Value)
    ensures IsTextOf(JsonToString(v), v)
  {
    if v.Float? {
      ParseFormatted(ToInt64(v.f));
    } else if v.Bool? {
      assert |"true"| == 4 && |"false"| == 5;
    }
  }

  // What a reference is resolved to, where no text is wanted: by the type of the field and
  // the class of the value it is bound to.
  ghost predicate IsValueOf(r: Result<Value, FilterError>, ty: FieldType, v: Value) {
    if ty.TypeMap? then r == Err(UnresolvableType)
    else if (ty.TypeBoolean? && v.Bool?) || (ty.TypeDate? && v.Str?) then r == Ok(v)
    else if ty.TypeNumeric? && v.Number? then
      r == match ParseInt(v.text) case Some(i) => Ok(BigInt(i)) case None => Err(NotAnInteger)
    else if ty.TypeNumeric? && v.Float? then
      if IsIntegral(v.f) then r.Ok? && r.value.BigInt? && r.value.i as real == v.f else r == Err(NotAnInteger)
    else r == Err(WrongType)
  }

  lemma {:induction false} ReferenceValue(ty: FieldType, name: Bytes, vars: Vars)
    requires ty != TypeString && IsFieldName(name)
    ensures var r := ResolveValue(ty, "${" + name + "}", vars);
            if ty.TypeMap? || name in vars then IsValueOf(r, ty, if name in vars then vars[name] else Nil)
            else r == Err(MissingVariableError)
  {
    VariableNameIff("${" + name + "}", name);
  }

  // A value is accepted for a type exactly if it is nil, or a reference bound to it resolves
  // at that type - which for dates must be one - or it is a big integer.
  lemma {:induction false} AcceptedValueIff(ty: FieldType, v: Value, name: Bytes, isDate: DateParser)
    requires IsFieldName(name) && !ty.TypeMap?
    ensures ValidValueType(ty, v, isDate)
            <==> || v.Nil?
                 || (if ty.TypeString? then v.Str?
                     else if ty.TypeNumeric? && v.BigInt? then true
                     else ResolveValue(ty, "${" + name + "}", map[name := v]).Ok? && (ty.TypeDate? ==> isDate(v.s)))
  {
    if !ty.TypeString? {
      ReferenceValue(ty, name, map[name := v]);
    }
  }

  // ASCII text without references stands for itself.

  lemma {:induction false} PlainParse(s: Bytes, current: Bytes)
    requires IsAscii(s) && '$' !in s
    ensures Parse(s, current) == Ok((if current + s == [] then [] else [current + s], []))
    decreases |s|
  {
    if s == [] {
      assert current + s == current;
    } else {
      assert s[0] in s && Encode(s[0]) == [s[0]];
      PlainParse(s[1..], current + [s[0]]);
      assert current + [s[0]] + s[1..] == current + s;
    }
  }

  lemma {:induction false} PlainText(s: Bytes, vars: map<Bytes, Value>)
    requires IsAscii(s) && '$' !in s
    ensures Parse(s, []) == Ok((if s == [] then [] else [s], [])) && Replace(s, vars) == Ok(s)
  {
    PlainParse(s, []);
    assert [] + s == s;
    if s != [] {
      assert [s][1..] == [] && s + [] == s;
      assert Fill([], [], vars) == Ok([]);
      assert Fill([s], [], vars) == Ok(s);
    }
  }

  // A comparison of a string field with such a text is accepted, and stays as it is.
  lemma {:induction false} PlainComparison(
      schema: Schema, leaf: Leaf, decls: VarDecls, vars: Vars, isDate: DateParser)
    requires GetFieldType(schema, leaf.key) == Ok(TypeString) && leaf.operator in COMPARISONS
    requires leaf.value.Str? && IsAscii(leaf.value.s) && '$' !in leaf.value.s
    ensures ValidLeaf(schema, leaf, decls, isDate) && ResolveLeaf(schema, leaf, vars) == Ok(leaf)
  {
    PlainText(leaf.value.s, vars);
    assert leaf.operator != "$in" && leaf.operator != "$exists";
  }

  // So a filter on one key of a map of strings is accepted, and compares that key's text.
  lemma {:induction false} MapByKey(
      schema: Schema, key: Bytes, index: Bytes, leaf: Leaf, decls: VarDecls, vars: Vars, isDate: DateParser)
    requires Unambiguous(schema) && IsAccess(key, Some(index))
    requires exists f :: f in schema && MatchKey(f, key) && f.ty == TypeMap(TypeString)
    requires leaf.key == PrintAccess(key, Some(index)) && leaf.operator in COMPARISONS
    requires leaf.value.Str? && IsAscii(leaf.value.s) && '$' !in leaf.value.s
    ensures ValidLeaf(schema, leaf, decls, isDate) && ResolveLeaf(schema, leaf, vars) == Ok(leaf)
  {
    FieldTypeIff(schema, key, Some(index), TypeString);
    PlainComparison(schema, leaf, decls, vars, isDate);
  }

  // As is metadata[color], for every resource that has metadata.
  lemma {:induction false} MetadataIsMap(kind: ResourceKind, key: Bytes)
    requires !kind.LogKind? && key == "metadata"
    ensures Unambiguous(GetResourceSchema(kind)) && IsAccess(key, Some("color"))
    ensures exists f :: f in GetResourceSchema(kind) && MatchKey(f, key) && f.ty == TypeMap(TypeString)
  {
    ResourceSchemasUnambiguous(kind);
    var schema, f := GetResourceSchema(kind), Field("metadata", {}, TypeMap(TypeString));
    assert schema[if kind.TransactionKind? then 5 else 3] == f;
    assert MatchKey(f, key);
  }
}
