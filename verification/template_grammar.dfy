// What ParseTemplate accepts, as a grammar; and what ReplaceVariables does to it.
module TemplateGrammar {
  import opened Wrappers
  import opened Substitution

  // A template is a list of tokens.
  datatype Token = Literal(b: Byte) | Var(name: Bytes, braced: bool)

  function Text(t: Token): Bytes {
    match t
    case Literal(b) => [b]
    case Var(name, braced) => if braced then "${" + name + "}" else "$" + name
  }

  function Print(ts: seq<Token>): Bytes {
    if ts == [] then [] else Text(ts[0]) + Print(ts[1..])
  }

  // An unbraced name ends where no identifier character follows.
  predicate WellFormed(ts: seq<Token>) {
    ts == [] || (
      && WellFormed(ts[1..])
      && match ts[0]
         case Literal(b) => b != '$'
         case Var(name, braced) =>
           IsIdent(name) && (braced || ts[1..] == [] || ts[1].Var? || !IsVarTailChar(ts[1].b)))
  }

  // The literals and names of a token list, as ParseTemplate reports them.
  function Lists(ts: seq<Token>, current: Bytes): (seq<Bytes>, seq<Bytes>)
    decreases |ts|
  {
    if ts == [] then (if current == [] then [] else [current], [])
    else match ts[0]
      case Literal(b) => Lists(ts[1..], current + Encode(b))
      case Var(name, _) =>
        var (strs, vars) := Lists(ts[1..], []);
        ([current] + strs, [name] + vars)
  }

  // An identifier by code points: letters 97 to 122, then also digits 48 to 57 and underscore 95.
  lemma {:induction false} IdentIff(name: Bytes)
    ensures IsIdent(name) <==>
              && name != [] && 97 <= name[0] as int <= 122
              && forall i :: 0 < i < |name| ==>
                   97 <= name[i] as int <= 122 || 48 <= name[i] as int <= 57 || name[i] as int == 95
  {
    forall i | 0 < i < |name|
      ensures IsVarTailChar(name[i]) <==>
                97 <= name[i] as int <= 122 || 48 <= name[i] as int <= 57 || name[i] as int == 95
    {
      assert name[i] as int == 95 ==> name[i] == 95 as char;
    }
  }

  // What `string(b)` makes of a byte is the UTF-8 of that code point (section 3 of RFC 3629).
  lemma {:induction false} EncodeIsUTF8(b: Byte)
    ensures var e := Encode(b);
            if b as int < 128 then e == [b]
            else
              && |e| == 2 && 0xC2 <= e[0] as int <= 0xC3 && 0x80 <= e[1] as int <= 0xBF
              && 64 * (e[0] as int - 0xC0) + (e[1] as int - 0x80) == b as int
  {
    assert b as int == 64 * (b as int / 64) + b as int % 64;
  }

  // Every well-formed token list is read back from its text.

  lemma {:induction false} IdentEnds(name: Bytes, rest: Bytes)
    requires IsIdent(name) && (rest == [] || !IsVarTailChar(rest[0]))
    ensures VarIdent(name + rest) == Ok((name, rest))
  {
    var s := name + rest;
    assert forall i :: 0 <= i < |name| - 1 ==> s[1..][i] == name[i + 1];
    assert rest != [] ==> s[1..][|name| - 1] == rest[0];
    TailLengthIs(s[1..], |name| - 1);
    assert s[..|name|] == name && s[|name|..] == rest;
  }

  lemma {:induction false} BracedText(name: Bytes, rest: Bytes)
    ensures var s: Bytes := "{" + name + "}" + rest; s[0] == '{' && s[1..] == name + ("}" + rest)
    ensures ("}" + rest)[0] == '}' && ("}" + rest)[1..] == rest
  {
  }

  lemma {:induction false} BracedReadBack(name: Bytes, rest: Bytes)
    requires IsIdent(name)
    ensures SimpleVar("{" + name + "}" + rest) == Ok((name, rest))
  {
    BracedText(name, rest);
    IdentEnds(name, "}" + rest);
  }

  lemma {:induction false} UnbracedReadBack(name: Bytes, rest: Bytes)
    requires IsIdent(name) && (rest == [] || !IsVarTailChar(rest[0]))
    ensures SimpleVar(name + rest) == Ok((name, rest))
  {
    IdentEnds(name, rest);
  }

  lemma {:induction false} DollarText(name: Bytes, braced: bool, rest: Bytes)
    ensures ['$'] + (if braced then "{" + name + "}" + rest else name + rest) == Text(Var(name, braced)) + rest
  {
  }

  lemma {:induction false} VarReadBack(name: Bytes, braced: bool, rest: Bytes)
    requires IsIdent(name) && (braced || rest == [] || !IsVarTailChar(rest[0]))
    ensures var s := Text(Var(name, braced)) + rest;
            s[0] == '$' && SimpleVar(s[1..]) == Ok((name, rest))
  {
    DollarText(name, braced, rest);
    var tail: Bytes := if braced then "{" + name + "}" + rest else name + rest;
    assert (['$'] + tail)[1..] == tail;
    if braced {
      BracedReadBack(name, rest);
    } else {
      UnbracedReadBack(name, rest);
    }
  }

  lemma {:induction false} ParsePrinted(ts: seq<Token>, current: Bytes)
    requires WellFormed(ts)
    ensures Parse(Print(ts), current) == Ok(Lists(ts, current))
    decreases |ts|
  {
    if ts != [] {
      var rest := Print(ts[1..]);
      match ts[0]
      case Literal(b) =>
        assert Print(ts)[1..] == rest;
        ParsePrinted(ts[1..], current + Encode(b));
      case Var(name, braced) =>
        if ts[1..] != [] {
          assert rest[0] == Text(ts[1])[0];
        }
        VarReadBack(name, braced, rest);
        ParsePrinted(ts[1..], []);
    }
  }

  // Every accepted text is the text of a well-formed token list.

  function Tokens(s: Bytes): seq<Token>
    decreases |s|
  {
    if s == [] then []
    else if s[0] != '$' then [Literal(s[0])] + Tokens(s[1..])
    else
      match SimpleVar(s[1..])
      case Err(_) => []
      case Ok((name, rest)) => [Var(name, s[1] == '{')] + Tokens(rest)
  }

  lemma {:induction false} ReferenceText(s: Bytes)
    requires SimpleVar(s).Ok?
    ensures var (name, rest) := SimpleVar(s).value;
            && s != [] && IsIdent(name)
            && s == (if s[0] == '{' then "{" + name + "}" + rest else name + rest)
            && (s[0] == '{' || rest == [] || !IsVarTailChar(rest[0]))
  {
    var (name, rest) := SimpleVar(s).value;
    if s[0] == '{' {
      assert s == ['{'] + s[1..];
    }
  }

  lemma {:induction false} FirstToken(s: Bytes)
    requires s != [] && s[0] != '$'
    ensures Tokens(s) != [] && Tokens(s)[0] == Literal(s[0]) && Tokens(s)[1..] == Tokens(s[1..])
  {
  }

  lemma {:induction false} VarFirst(t: Token, ts: seq<Token>, rest: Bytes)
    requires t.Var? && IsIdent(t.name) && WellFormed(ts) && Print(ts) == rest
    requires t.braced || rest == [] || !IsVarTailChar(rest[0])
    ensures WellFormed([t] + ts) && Print([t] + ts) == Text(t) + rest
  {
    assert ([t] + ts)[1..] == ts;
    if ts != [] && ts[0].Literal? {
      assert Print(ts) == [ts[0].b] + Print(ts[1..]);
    }
  }

  lemma {:induction false} ReferenceIsText(s: Bytes, name: Bytes, rest: Bytes)
    requires s != [] && s[0] == '$' && SimpleVar(s[1..]) == Ok((name, rest))
    ensures IsIdent(name) && 1 < |s| && s == Text(Var(name, s[1] == '{')) + rest
    ensures s[1] == '{' || rest == [] || !IsVarTailChar(rest[0])
  {
    ReferenceText(s[1..]);
    assert s == ['$'] + s[1..];
    DollarText(name, s[1] == '{', rest);
  }

  lemma {:induction false} TokensOfReference(s: Bytes, current: Bytes)
    requires s != [] && s[0] == '$' && SimpleVar(s[1..]).Ok?
    requires var rest := SimpleVar(s[1..]).value.1;
             && WellFormed(Tokens(rest)) && Print(Tokens(rest)) == rest
             && Parse(rest, []) == Ok(Lists(Tokens(rest), []))
    ensures WellFormed(Tokens(s)) && Print(Tokens(s)) == s
    ensures Parse(s, current) == Ok(Lists(Tokens(s), current))
  {
    var (name, rest) := SimpleVar(s[1..]).value;
    ReferenceIsText(s, name, rest);
    var t := Var(name, s[1] == '{');
    VarFirst(t, Tokens(rest), rest);
    assert ([t] + Tokens(rest))[1..] == Tokens(rest);
  }

  lemma {:induction false} TokensOfAccepted(s: Bytes, current: Bytes)
    requires Parse(s, current).Ok?
    ensures WellFormed(Tokens(s)) && Print(Tokens(s)) == s
    ensures Parse(s, current) == Ok(Lists(Tokens(s), current))
    decreases |s|
  {
    if s == [] {
    } else if s[0] != '$' {
      TokensOfAccepted(s[1..], current + Encode(s[0]));
      FirstToken(s);
    } else {
      TokensOfAccepted(SimpleVar(s[1..]).value.1, []);
      TokensOfReference(s, current);
    }
  }

  // ParseTemplate accepts exactly the texts of the grammar, and reports their lists.
  lemma {:induction false} AcceptsTheGrammar(s: Bytes)
    ensures Parse(s, []).Ok? <==> exists ts :: WellFormed(ts) && Print(ts) == s
    ensures forall ts :: WellFormed(ts) && Print(ts) == s ==> Parse(s, []) == Ok(Lists(ts, []))
  {
    forall ts | WellFormed(ts) && Print(ts) == s
      ensures Parse(s, []) == Ok(Lists(ts, []))
    {
      ParsePrinted(ts, []);
    }
    if Parse(s, []).Ok? {
      TokensOfAccepted(s, []);
    }
  }

  // What it rejects, where and why.

  // What follows a dollar sign is no reference: no name follows it, or its opening bracket,
  // or no closing bracket follows the name.
  predicate Breaks(s: Bytes, name: Bytes, e: ParsingError) {
    var braced := s != [] && s[0] == '{';
    && s == (if braced then "{" else "") + name + e.rest
    && if name == [] then e.expecting == "a lowercase char" && (e.rest == [] || !IsVarHeadChar(e.rest[0]))
       else
         && braced && IsIdent(name) && e.expecting == "'}'"
         && (e.rest == [] || (!IsVarTailChar(e.rest[0]) && e.rest[0] != '}'))
  }

  lemma {:induction false} BrokenBreaks(s: Bytes) returns (name: Bytes)
    requires SimpleVar(s).Err?
    ensures Breaks(s, name, SimpleVar(s).error)
  {
    name := [];
    if s != [] && s[0] == '{' {
      assert s == "{" + s[1..];
      if VarIdent(s[1..]).Ok? {
        name := VarIdent(s[1..]).value.0;
        assert s == "{" + name + VarIdent(s[1..]).value.1;
      } else {
        assert s == "{" + [] + s[1..];
      }
    } else {
      assert s == "" + [] + s;
    }
  }

  lemma {:induction false} NameBreaks(s: Bytes, name: Bytes, e: ParsingError)
    requires Breaks(s, name, e) && name != []
    ensures SimpleVar(s) == Err(e)
  {
    assert s[1..] == name + e.rest;
    IdentEnds(name, e.rest);
  }

  lemma {:induction false} BreaksIsBroken(s: Bytes, name: Bytes, e: ParsingError)
    requires Breaks(s, name, e)
    ensures SimpleVar(s) == Err(e)
  {
    if name != [] {
      NameBreaks(s, name, e);
    } else if s != [] && s[0] == '{' {
      assert s[1..] == e.rest;
    } else {
      assert s == e.rest;
    }
  }

  // A template, and what is no reference behind a dollar sign.
  function UpTo(ts: seq<Token>, rest: Bytes): Bytes {
    Print(ts) + "$" + rest
  }

  lemma {:induction false} UpToStep(t: Token, ts: seq<Token>, rest: Bytes)
    ensures UpTo([t] + ts, rest) == Text(t) + UpTo(ts, rest)
  {
    assert ([t] + ts)[1..] == ts;
  }

  lemma {:induction false} UpToFirst(ts: seq<Token>, rest: Bytes)
    ensures UpTo(ts, rest)[0] == if ts == [] then '$' else Text(ts[0])[0]
  {
  }

  lemma {:induction false} ParseUpTo(ts: seq<Token>, current: Bytes, rest: Bytes)
    requires WellFormed(ts) && SimpleVar(rest).Err?
    ensures Parse(UpTo(ts, rest), current) == Err(SimpleVar(rest).error)
    decreases |ts|
  {
    if ts == [] {
      assert UpTo([], rest)[1..] == rest;
    } else {
      var behind := UpTo(ts[1..], rest);
      assert [ts[0]] + ts[1..] == ts;
      UpToStep(ts[0], ts[1..], rest);
      match ts[0]
      case Literal(b) =>
        assert ([b] + behind)[1..] == behind;
        ParseUpTo(ts[1..], current + Encode(b), rest);
      case Var(name, braced) =>
        UpToFirst(ts[1..], rest);
        VarReadBack(name, braced, behind);
        ParseUpTo(ts[1..], [], rest);
    }
  }

  lemma {:induction false} LiteralBefore(b: Byte, ts: seq<Token>, rest: Bytes)
    requires b != '$' && WellFormed(ts)
    ensures WellFormed([Literal(b)] + ts) && UpTo([Literal(b)] + ts, rest) == [b] + UpTo(ts, rest)
  {
    assert ([Literal(b)] + ts)[1..] == ts;
    UpToStep(Literal(b), ts, rest);
  }

  lemma {:induction false} VarBefore(s: Bytes, name: Bytes, ts: seq<Token>, rest: Bytes)
    requires s != [] && s[0] == '$' && SimpleVar(s[1..]) == Ok((name, UpTo(ts, rest))) && WellFormed(ts)
    ensures 1 < |s| && WellFormed([Var(name, s[1] == '{')] + ts) && s == UpTo([Var(name, s[1] == '{')] + ts, rest)
  {
    ReferenceIsText(s, name, UpTo(ts, rest));
    UpToFirst(ts, rest);
    VarFirst(Var(name, s[1] == '{'), ts, Print(ts));
    UpToStep(Var(name, s[1] == '{'), ts, rest);
  }

  lemma {:induction false} RejectedUpTo(s: Bytes, current: Bytes) returns (ts: seq<Token>, rest: Bytes)
    requires Parse(s, current).Err?
    ensures WellFormed(ts) && s == UpTo(ts, rest) && SimpleVar(rest) == Err(Parse(s, current).error)
    decreases |s|
  {
    assert s == [s[0]] + s[1..];
    if s[0] != '$' {
      ts, rest := RejectedUpTo(s[1..], current + Encode(s[0]));
      LiteralBefore(s[0], ts, rest);
      ts := [Literal(s[0])] + ts;
    } else if SimpleVar(s[1..]).Err? {
      ts, rest := [], s[1..];
    } else {
      var (name, behind) := SimpleVar(s[1..]).value;
      ts, rest := RejectedUpTo(behind, []);
      VarBefore(s, name, ts, rest);
      ts := [Var(name, s[1] == '{')] + ts;
    }
  }

  // An error is reported exactly for the first reference that breaks, behind a well-formed
  // template, with what is left of the text there.
  lemma {:induction false} RejectedIff(s: Bytes, e: ParsingError)
    ensures Parse(s, []) == Err(e)
            <==> exists ts, name, rest :: WellFormed(ts) && s == UpTo(ts, rest) && Breaks(rest, name, e)
  {
    if Parse(s, []) == Err(e) {
      var ts, rest := RejectedUpTo(s, []);
      var name := BrokenBreaks(rest);
    }
    forall ts, name, rest | WellFormed(ts) && s == UpTo(ts, rest) && Breaks(rest, name, e)
      ensures Parse(s, []) == Err(e)
    {
      BreaksIsBroken(rest, name, e);
      ParseUpTo(ts, [], rest);
    }
  }

  // What a template stands for: its literals as they are, each reference replaced by
  // the text of its variable.
  function Instantiate(ts: seq<Token>, vars: map<Bytes, Value>): Result<Bytes, SubstitutionError> {
    if ts == [] then Ok([])
    else match ts[0]
      case Literal(b) => Behind(Encode(b), Instantiate(ts[1..], vars))
      case Var(name, _) =>
        match Lookup(name, vars)
        case Err(e) => Err(e)
        case Ok(text) => Behind(text, Instantiate(ts[1..], vars))
  }

  lemma {:induction false} FillInstantiates(ts: seq<Token>, current: Bytes, vars: map<Bytes, Value>)
    ensures var (strs, names) := Lists(ts, current);
            Fill(strs, names, vars) == Behind(current, Instantiate(ts, vars))
    decreases |ts|
  {
    if ts == [] {
      assert [current][1..] == [] && current + [] == current;
    } else {
      match ts[0]
      case Literal(b) =>
        FillInstantiates(ts[1..], current + Encode(b), vars);
        BehindTwice(current, Encode(b), Instantiate(ts[1..], vars));
      case Var(name, _) =>
        var (strs, names) := Lists(ts[1..], []);
        assert ([name] + names)[1..] == names && ([current] + strs)[1..] == strs;
        FillInstantiates(ts[1..], [], vars);
        if Lookup(name, vars).Ok? {
          var text := Lookup(name, vars).value;
          BehindTwice(current + text, [], Instantiate(ts[1..], vars));
          BehindTwice(current, text, Instantiate(ts[1..], vars));
          assert current + text + [] == current + text;
        }
    }
  }

  // ReplaceVariables computes it.
  lemma {:induction false} ReplaceInstantiates(ts: seq<Token>, vars: map<Bytes, Value>)
    requires WellFormed(ts)
    ensures Replace(Print(ts), vars) == Instantiate(ts, vars)
  {
    ParsePrinted(ts, []);
    FillInstantiates(ts, [], vars);
    if Instantiate(ts, vars).Ok? {
      assert [] + Instantiate(ts, vars).value == Instantiate(ts, vars).value;
    }
  }

  // Normal form: replacing every variable x by the text `${x}`.

  predicate BindsToItself(vars: map<Bytes, Value>, names: seq<Bytes>) {
    forall n :: n in names ==> n in vars && vars[n] == Str("${" + n + "}")
  }

  predicate IsAscii(s: Bytes) {
    forall i :: 0 <= i < |s| ==> s[i] < '\U{80}'
  }

  function Literals(s: Bytes): seq<Token> {
    if s == [] then [] else [Literal(s[0])] + Literals(s[1..])
  }

  // Bytes above ASCII come back re-encoded.
  function Normalize(ts: seq<Token>): seq<Token> {
    if ts == [] then []
    else match ts[0]
      case Literal(b) => Literals(Encode(b)) + Normalize(ts[1..])
      case Var(name, _) => [Var(name, true)] + Normalize(ts[1..])
  }

  lemma {:induction false} LiteralsFirst(s: Bytes, ts: seq<Token>)
    requires s != []
    ensures (Literals(s) + ts)[0] == Literal(s[0]) && (Literals(s) + ts)[1..] == Literals(s[1..]) + ts
  {
    var rest := Literals(s[1..]) + ts;
    assert Literals(s) + ts == [Literal(s[0])] + rest;
    assert ([Literal(s[0])] + rest)[1..] == rest;
  }

  lemma {:induction false} PrintFirst(ts: seq<Token>)
    requires ts != [] && ts[0].Literal?
    ensures Print(ts) == [ts[0].b] + Print(ts[1..])
  {
  }

  lemma {:induction false} Rejoined(s: Bytes, rest: Bytes)
    requires s != []
    ensures [s[0]] + (s[1..] + rest) == s + rest
  {
  }

  lemma {:induction false} PrintLiterals(s: Bytes, ts: seq<Token>)
    ensures Print(Literals(s) + ts) == s + Print(ts)
    decreases |s|
  {
    if s == [] {
      assert Literals(s) + ts == ts;
    } else {
      LiteralsFirst(s, ts);
      PrintLiterals(s[1..], ts);
      PrintFirst(Literals(s) + ts);
      Rejoined(s, Print(ts));
    }
  }

  lemma {:induction false} LiteralsWellFormed(s: Bytes, ts: seq<Token>)
    requires (forall i :: 0 <= i < |s| ==> s[i] != '$') && WellFormed(ts)
    ensures WellFormed(Literals(s) + ts)
    decreases |s|
  {
    if s == [] {
      assert Literals(s) + ts == ts;
    } else {
      LiteralsFirst(s, ts);
      LiteralsWellFormed(s[1..], ts);
    }
  }

  lemma {:induction false} NormalizeWellFormed(ts: seq<Token>)
    requires WellFormed(ts)
    ensures WellFormed(Normalize(ts))
  {
    if ts != [] {
      NormalizeWellFormed(ts[1..]);
      match ts[0]
      case Literal(b) => LiteralsWellFormed(Encode(b), Normalize(ts[1..]));
      case Var(name, _) => assert Normalize(ts)[1..] == Normalize(ts[1..]);
    }
  }

  // Filling in the names' own references prints the normal form.
  lemma {:induction false} InstantiateToItself(ts: seq<Token>, vars: map<Bytes, Value>)
    requires forall t :: t in ts && t.Var? ==> t.name in vars && vars[t.name] == Str("${" + t.name + "}")
    ensures Instantiate(ts, vars) == Ok(Print(Normalize(ts)))
    decreases |ts|
  {
    if ts != [] {
      assert ts[0] in ts && forall t :: t in ts[1..] ==> t in ts;
      InstantiateToItself(ts[1..], vars);
      match ts[0]
      case Literal(b) => PrintLiterals(Encode(b), Normalize(ts[1..]));
      case Var(name, _) => assert Normalize(ts)[1..] == Normalize(ts[1..]);
    }
  }

  lemma {:induction false} NamesAreVars(ts: seq<Token>, current: Bytes)
    ensures forall t :: t in ts && t.Var? ==> t.name in Lists(ts, current).1
    decreases |ts|
  {
    if ts != [] {
      assert forall t :: t in ts <==> t == ts[0] || t in ts[1..];
      match ts[0]
      case Literal(b) => NamesAreVars(ts[1..], current + Encode(b));
      case Var(_, _) => NamesAreVars(ts[1..], []);
    }
  }

  lemma {:induction false} FillIsPrint(ts: seq<Token>, vars: map<Bytes, Value>)
    requires BindsToItself(vars, Lists(ts, []).1)
    ensures var (strs, names) := Lists(ts, []); Fill(strs, names, vars) == Ok(Print(Normalize(ts)))
  {
    FillInstantiates(ts, [], vars);
    NamesAreVars(ts, []);
    InstantiateToItself(ts, vars);
    assert [] + Print(Normalize(ts)) == Print(Normalize(ts));
  }

  predicate AsciiLiterals(ts: seq<Token>) {
    forall t :: t in ts && t.Literal? ==> t.b < '\U{80}'
  }

  lemma {:induction false} NormalizeKeepsAscii(ts: seq<Token>, current: Bytes)
    requires AsciiLiterals(ts)
    ensures Lists(Normalize(ts), current) == Lists(ts, current)
    ensures Normalize(Normalize(ts)) == Normalize(ts)
    decreases |ts|
  {
    if ts != [] {
      assert forall t :: t in ts[1..] ==> t in ts;
      assert ts[0] in ts;
      match ts[0]
      case Literal(b) =>
        assert Literals([b]) == [Literal(b)];
        assert Normalize(ts)[1..] == Normalize(ts[1..]);
        NormalizeKeepsAscii(ts[1..], current + [b]);
      case Var(name, _) =>
        assert Normalize(ts)[1..] == Normalize(ts[1..]);
        NormalizeKeepsAscii(ts[1..], []);
    }
  }

  // Sizes tell a re-encoded text from the original.

  function Size(strs: seq<Bytes>): nat {
    if strs == [] then 0 else |strs[0]| + Size(strs[1..])
  }

  function LiteralSize(ts: seq<Token>): nat {
    if ts == [] then 0
    else (match ts[0] case Literal(b) => |Encode(b)| case Var(_, _) => 0) + LiteralSize(ts[1..])
  }

  lemma {:induction false} ListsSize(ts: seq<Token>, current: Bytes)
    ensures Size(Lists(ts, current).0) == |current| + LiteralSize(ts)
    ensures |Lists(ts, current).1| <= |Lists(ts, current).0| <= |Lists(ts, current).1| + 1
    decreases |ts|
  {
    if ts != [] {
      match ts[0]
      case Literal(b) => ListsSize(ts[1..], current + Encode(b));
      case Var(name, _) =>
        ListsSize(ts[1..], []);
        assert Lists(ts, current).0[1..] == Lists(ts[1..], []).0;
    }
  }

  lemma {:induction false} LiteralSizeOfEncoding(b: Byte, ts: seq<Token>)
    ensures LiteralSize(Literals(Encode(b)) + ts) == (if b < '\U{80}' then 1 else 4) + LiteralSize(ts)
  {
    var s := Encode(b);
    LiteralsFirst(s, ts);
    if b < '\U{80}' {
      assert Literals(s[1..]) + ts == ts;
    } else {
      LiteralsFirst(s[1..], ts);
      assert Literals(s[1..][1..]) + ts == ts;
    }
  }

  lemma {:induction false} NormalizeSize(ts: seq<Token>)
    ensures LiteralSize(ts) <= LiteralSize(Normalize(ts))
    ensures LiteralSize(ts) == LiteralSize(Normalize(ts)) ==> AsciiLiterals(ts)
  {
    if ts != [] {
      NormalizeSize(ts[1..]);
      match ts[0]
      case Literal(b) => LiteralSizeOfEncoding(b, Normalize(ts[1..]));
      case Var(_, _) => assert Normalize(ts)[1..] == Normalize(ts[1..]);
    }
  }

  lemma {:induction false} NamesOfLiterals(s: Bytes, ts: seq<Token>, current: Bytes, other: Bytes)
    ensures Lists(Literals(s) + ts, current).1 == Lists(ts, other).1
    decreases |s|
  {
    if s == [] {
      assert Literals(s) + ts == ts;
      NamesIgnoreCurrent(ts, current, other);
    } else {
      LiteralsFirst(s, ts);
      NamesOfLiterals(s[1..], ts, current + Encode(s[0]), other);
    }
  }

  lemma {:induction false} NamesIgnoreCurrent(ts: seq<Token>, current: Bytes, other: Bytes)
    ensures Lists(ts, current).1 == Lists(ts, other).1
    decreases |ts|
  {
    if ts != [] && ts[0].Literal? {
      NamesIgnoreCurrent(ts[1..], current + Encode(ts[0].b), other + Encode(ts[0].b));
    }
  }

  lemma {:induction false} NormalizeKeepsNames(ts: seq<Token>, current: Bytes)
    ensures Lists(Normalize(ts), current).1 == Lists(ts, current).1
    decreases |ts|
  {
    if ts != [] {
      match ts[0]
      case Literal(b) =>
        NormalizeKeepsNames(ts[1..], current + Encode(b));
        NamesOfLiterals(Encode(b), Normalize(ts[1..]), current, current + Encode(b));
      case Var(_, _) =>
        NormalizeKeepsNames(ts[1..], []);
        assert Normalize(ts)[1..] == Normalize(ts[1..]);
    }
  }

  lemma {:induction false} AsciiConcat(a: Bytes, b: Bytes)
    ensures IsAscii(a + b) <==> IsAscii(a) && IsAscii(b)
  {
    assert forall i :: 0 <= i < |a| ==> (a + b)[i] == a[i];
    assert forall i :: 0 <= i < |b| ==> (a + b)[|a| + i] == b[i];
  }

  lemma {:induction false} AsciiText(t: Token)
    requires t.Literal? || IsIdent(t.name)
    ensures IsAscii(Text(t)) <==> (t.Literal? ==> t.b < '\U{80}')
  {
    if t.Literal? {
      assert Text(t)[0] == t.b;
    }
  }

  lemma {:induction false} PrintAscii(ts: seq<Token>)
    requires WellFormed(ts)
    ensures IsAscii(Print(ts)) <==> AsciiLiterals(ts)
  {
    if ts != [] {
      PrintAscii(ts[1..]);
      AsciiConcat(Text(ts[0]), Print(ts[1..]));
      AsciiText(ts[0]);
      assert forall t :: t in ts <==> t == ts[0] || t in ts[1..];
    }
  }

  // Main result. A template that ParseTemplate accepts has one literal per variable,
  // or one more; filling in `${x}` for x gives a text with the same variables; and
  // that text is a normal form - same literals, unchanged by a second round - if and
  // only if the template is ASCII.
  lemma {:induction false} NormalForm(s: Bytes, vars: map<Bytes, Value>)
    requires Parse(s, []).Ok? && BindsToItself(vars, Parse(s, []).value.1)
    ensures var (strs, names) := Parse(s, []).value; |names| <= |strs| <= |names| + 1
    ensures Replace(s, vars).Ok?
    ensures var t := Replace(s, vars).value;
            && Parse(t, []).Ok? && Parse(t, []).value.1 == Parse(s, []).value.1
            && Replace(t, vars).Ok?
            && (Parse(t, []) == Parse(s, []) <==> IsAscii(s))
            && (Replace(t, vars).value == t <==> IsAscii(s))
  {
    var ts := Tokens(s);
    TokensOfAccepted(s, []);
    ListsSize(ts, []);
    var normal := Normalize(ts);
    FillIsPrint(ts, vars);
    NormalizeWellFormed(ts);
    ParsePrinted(normal, []);
    NormalizeKeepsNames(ts, []);
    FillIsPrint(normal, vars);
    var t := Replace(s, vars).value;
    assert t == Print(normal);
    PrintAscii(ts);
    if IsAscii(s) {
      NormalizeKeepsAscii(ts, []);
    } else {
      NormalizeSize(ts);
      NormalizeSize(normal);
      ListsSize(normal, []);
      NotFixed(ts);
    }
  }

  // A text with other bytes grows when its normal form is taken, and again after.
  lemma {:induction false} NotFixed(ts: seq<Token>)
    requires WellFormed(ts) && !AsciiLiterals(ts)
    ensures Print(Normalize(Normalize(ts))) != Print(Normalize(ts))
  {
    var normal := Normalize(ts);
    NormalizeWellFormed(ts);
    NormalizeWellFormed(normal);
    ParsePrinted(normal, []);
    ParsePrinted(Normalize(normal), []);
    ListsSize(normal, []);
    ListsSize(Normalize(normal), []);
    NormalizeSize(ts);
    NormalizeSize(normal);
    NormalizeNotAscii(ts);
  }

  lemma {:induction false} NormalizeNotAscii(ts: seq<Token>)
    requires !AsciiLiterals(ts)
    ensures !AsciiLiterals(Normalize(ts))
  {
    match ts[0]
    case Literal(b) =>
      if b < '\U{80}' {
        assert forall t :: t in ts <==> t == ts[0] || t in ts[1..];
        NormalizeNotAscii(ts[1..]);
        assert forall t :: t in Normalize(ts[1..]) ==> t in Normalize(ts);
      } else {
        LiteralsFirst(Encode(b), Normalize(ts[1..]));
        assert Literal(Encode(b)[0]) in Normalize(ts);
      }
    case Var(name, _) =>
      assert forall t :: t in ts <==> t == ts[0] || t in ts[1..];
      NormalizeNotAscii(ts[1..]);
      assert forall t :: t in Normalize(ts[1..]) ==> t in Normalize(ts);
  }

  // One byte above ASCII: its normal form is two bytes, and not a fixed point.
  lemma {:induction false} OneByteGrows()
    ensures var s: Bytes := ['\U{80}'];
            && Parse(s, []).Ok? && Parse(s, []).value.1 == []
            && Replace(s, map[]) == Ok(['\U{C2}', '\U{80}'])
            && Replace(['\U{C2}', '\U{80}'], map[]) != Ok(['\U{C2}', '\U{80}'])
            && Parse(['\U{C2}', '\U{80}'], []) != Parse(s, [])
  {
    var s: Bytes := ['\U{80}'];
    assert s[1..] == [];
    assert [] + Encode(s[0]) == ['\U{C2}', '\U{80}'];
    assert Parse(s, []) == Ok(([['\U{C2}', '\U{80}']], []));
    assert Fill([['\U{C2}', '\U{80}']], [], map[]) == Ok(['\U{C2}', '\U{80}']) by {
      assert [['\U{C2}', '\U{80}']][1..] == [];
      assert ['\U{C2}', '\U{80}'] + [] == ['\U{C2}', '\U{80}'];
    }
    NormalForm(s, map[]);
  }
}
