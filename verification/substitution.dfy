// Templates: text with `$name` and `${name}` references. The parser is the
// hand-written one; a grammar of tokens says independently what it accepts.
module Substitution {
  import opened Wrappers
  import opened Decimals

  // A Go string is a sequence of bytes.
  type Byte = c: char | c as int < 256
  type Bytes = seq<Byte>

  // What a decoded JSON document, or a caller, may put behind Go's `any`.
  datatype Value =
    | Nil
    | Bool(b: bool)
    | Str(s: Bytes)
    | Number(text: Bytes)           // json.Number
    | Float(f: real)                // float64
    | BigInt(i: int)                // *big.Int
    | Array(elems: seq<Value>)
    | Object(members: map<Bytes, Value>)

  predicate IsVarHeadChar(b: Byte) {
    'a' <= b <= 'z'
  }

  predicate IsVarTailChar(b: Byte) {
    IsVarHeadChar(b) || '0' <= b <= '9' || b == '_'
  }

  predicate IsIdent(name: Bytes) {
    name != [] && IsVarHeadChar(name[0]) && forall i :: 0 < i < |name| ==> IsVarTailChar(name[i])
  }

  // The parser state at the point of failure, and what was missing there.
  datatype ParsingError = ParsingError(rest: Bytes, expecting: string)

  type Parsed = Result<(seq<Bytes>, seq<Bytes>), ParsingError>

  // The specification reads what is left of the input.

  function TailLength(s: Bytes): (n: nat)
    ensures n <= |s|
    ensures forall i :: 0 <= i < n ==> IsVarTailChar(s[i])
    ensures n < |s| ==> !IsVarTailChar(s[n])
  {
    if s == [] || !IsVarTailChar(s[0]) then 0 else 1 + TailLength(s[1..])
  }

  // A reference and what follows it.
  type Reference = Result<(Bytes, Bytes), ParsingError>

  function VarIdent(s: Bytes): (r: Reference)
    ensures r.Ok? ==> IsIdent(r.value.0) && s == r.value.0 + r.value.1
  {
    if s == [] || !IsVarHeadChar(s[0]) then Err(ParsingError(s, "a lowercase char"))
    else
      var n := 1 + TailLength(s[1..]);
      assert forall i :: 0 < i < n ==> s[i] == s[1..][i - 1];
      Ok((s[..n], s[n..]))
  }

  function BracketVar(s: Bytes): (r: Reference)
    ensures r.Ok? ==> IsIdent(r.value.0) && s == r.value.0 + "}" + r.value.1
  {
    match VarIdent(s)
    case Err(e) => Err(e)
    case Ok((name, rest)) =>
      if rest != [] && rest[0] == '}' then Ok((name, rest[1..])) else Err(ParsingError(rest, "'}'"))
  }

  function SimpleVar(s: Bytes): (r: Reference)
    ensures r.Ok? ==> |r.value.1| < |s|
  {
    if s != [] && s[0] == '{' then BracketVar(s[1..]) else VarIdent(s)
  }

  // `string(b)` of a byte is the UTF-8 encoding of the code point b.
  function Encode(b: Byte): Bytes {
    if b < '\U{80}' then [b]
    else [(0xC0 + b as int / 0x40) as char, (0x80 + b as int % 0x40) as char]
  }

  function Parse(s: Bytes, current: Bytes): Parsed
    decreases |s|
  {
    if s == [] then Ok((if current == [] then [] else [current], []))
    else if s[0] != '$' then Parse(s[1..], current + Encode(s[0]))
    else
      match SimpleVar(s[1..])
      case Err(e) => Err(e)
      case Ok((name, rest)) =>
        Prepend([current], [name], Parse(rest, []))
  }

  // The parser.
  class ParserState {
    const str: Bytes
    var index: nat

    ghost predicate Valid()
      reads this
    {
      index <= |str|
    }

    ghost function Rest(): Bytes
      requires Valid()
      reads this
    {
      str[index..]
    }

    constructor (str: Bytes)
      ensures this.str == str && Valid() && Rest() == str
    {
      this.str := str;
      this.index := 0;
    }

    predicate IsEOF()
      reads this
    {
      |str| <= index
    }

    method Consume() returns (ch: Byte)
      requires Valid() && !IsEOF()
      modifies this
      ensures Valid() && ch == old(Rest())[0] && Rest() == old(Rest())[1..] && index == old(index) + 1
    {
      ch := str[index];
      index := index + 1;
    }

    // Consumes the next byte if `pred` accepts it.
    method TryConsuming(pred: Byte -> bool) returns (ch: Option<Byte>)
      requires Valid()
      modifies this
      ensures Valid()
      ensures ch == if old(Rest()) != [] && pred(old(Rest())[0]) then Some(old(Rest())[0]) else None
      ensures Rest() == if ch.Some? then old(Rest())[1..] else old(Rest())
      ensures index == old(index) + if ch.Some? then 1 else 0
      ensures ch == if old(index) < |str| && pred(str[old(index)]) then Some(str[old(index)]) else None
    {
      if IsEOF() || !pred(str[index]) {
        return None;
      }
      var b := Consume();
      return Some(b);
    }

    method ParseVarIdent() returns (name: Result<Bytes, ParsingError>)
      requires Valid()
      modifies this
      ensures Valid()
      ensures match VarIdent(old(Rest()))
              case Err(e) => name == Err(e)
              case Ok((n, rest)) => name == Ok(n) && Rest() == rest
    {
      var ch := TryConsuming(IsVarHeadChar);
      if ch.None? {
        return Err(ParsingError(str[index..], "a lowercase char"));
      }
      ghost var start := old(index);
      var sb := ConsumeTail(ch.value, start);
      IdentAhead(str, start, index);
      return Ok(sb);
    }

    // The loop of parseVarIdent, after the first character.
    method ConsumeTail(head: Byte, ghost start: nat) returns (sb: Bytes)
      requires Valid() && index == start + 1 && str[start] == head
      modifies this
      ensures Valid() && start < index && sb == str[start..index]
      ensures forall i :: start < i < index ==> IsVarTailChar(str[i])
      ensures index < |str| ==> !IsVarTailChar(str[index])
    {
      sb := [head];
      while true
        invariant Valid() && start < index
        invariant sb == str[start..index]
        invariant forall i :: start < i < index ==> IsVarTailChar(str[i])
        decreases |str| - index
      {
        var ch := TryConsuming(IsVarTailChar);
        if ch.None? {
          break;
        }
        sb := sb + [ch.value];
      }
    }

    method ParseBracketVar() returns (name: Result<Bytes, ParsingError>)
      requires Valid()
      modifies this
      ensures Valid()
      ensures match BracketVar(old(Rest()))
              case Err(e) => name == Err(e)
              case Ok((n, rest)) => name == Ok(n) && Rest() == rest
    {
      name := ParseVarIdent();
      if name.Err? {
        return;
      }
      var closing := TryConsuming(b => b == '}');
      if closing.None? {
        return Err(ParsingError(str[index..], "'}'"));
      }
    }

    method ParseSimpleVar() returns (name: Result<Bytes, ParsingError>)
      requires Valid()
      modifies this
      ensures Valid()
      ensures match SimpleVar(old(Rest()))
              case Err(e) => name == Err(e)
              case Ok((n, rest)) => name == Ok(n) && Rest() == rest
    {
      var opening := TryConsuming(b => b == '{');
      if opening.Some? {
        name := ParseBracketVar();
      } else {
        name := ParseVarIdent();
      }
    }
  }

  // An identifier of str is what VarIdent reads from its start.
  lemma {:induction false} IdentAhead(str: Bytes, start: nat, end: nat)
    requires start < end <= |str| && IsVarHeadChar(str[start])
    requires forall i :: start < i < end ==> IsVarTailChar(str[i])
    requires end < |str| ==> !IsVarTailChar(str[end])
    ensures VarIdent(str[start..]) == Ok((str[start..end], str[end..]))
  {
    var s := str[start..];
    assert forall i :: 0 <= i < |s[1..]| ==> s[1..][i] == str[start + 1 + i];
    TailLengthIs(s[1..], end - start - 1);
    assert s[..end - start] == str[start..end] && s[end - start..] == str[end..];
  }

  lemma {:induction false} TailLengthIs(s: Bytes, n: nat)
    requires n <= |s|
    requires forall i :: 0 <= i < n ==> IsVarTailChar(s[i])
    requires n < |s| ==> !IsVarTailChar(s[n])
    ensures TailLength(s) == n
  {
    if n != 0 {
      TailLengthIs(s[1..], n - 1);
    }
  }

  // What has been read already, in front of what is still to be read.
  function Prepend(strs: seq<Bytes>, vars: seq<Bytes>, rest: Parsed): Parsed {
    match rest
    case Err(e) => Err(e)
    case Ok((ss, vs)) => Ok((strs + ss, vars + vs))
  }

  lemma {:induction false} PrependNothing(rest: Parsed)
    ensures Prepend([], [], rest) == rest
  {
    if rest.Ok? {
      assert [] + rest.value.0 == rest.value.0;
      assert [] + rest.value.1 == rest.value.1;
    }
  }

  lemma {:induction false} ParseEnd(strs: seq<Bytes>, vars: seq<Bytes>, current: Bytes)
    ensures Prepend(strs, vars, Parse([], current)) == Ok((if current == [] then strs else strs + [current], vars))
  {
    assert strs + [] == strs && vars + [] == vars;
  }

  lemma {:induction false} PrependTwice(strs: seq<Bytes>, vars: seq<Bytes>, str: Bytes, name: Bytes, rest: Parsed)
    ensures Prepend(strs, vars, Prepend([str], [name], rest)) == Prepend(strs + [str], vars + [name], rest)
  {
    if rest.Ok? {
      assert strs + ([str] + rest.value.0) == strs + [str] + rest.value.0;
      assert vars + ([name] + rest.value.1) == vars + [name] + rest.value.1;
    }
  }

  method ParseTemplate(str: Bytes) returns (r: Parsed)
    ensures r == Parse(str, [])
  {
    var p := new ParserState(str);
    var strs: seq<Bytes>, vars: seq<Bytes>, currentStr: Bytes := [], [], [];
    PrependNothing(Parse(str, []));
    while !p.IsEOF()
      invariant p.Valid() && fresh(p)
      invariant Parse(str, []) == Prepend(strs, vars, Parse(p.Rest(), currentStr))
      decreases |p.Rest()|
    {
      var b := p.Consume();
      if b == '$' {
        var name := p.ParseSimpleVar();
        if name.Err? {
          return Err(name.error);
        }
        PrependTwice(strs, vars, currentStr, name.value, Parse(p.Rest(), []));
        strs := strs + [currentStr];
        currentStr := [];
        vars := vars + [name.value];
      } else {
        currentStr := currentStr + Encode(b);
      }
    }
    assert p.Rest() == [];
    ParseEnd(strs, vars, currentStr);
    if currentStr != [] {
      strs := strs + [currentStr];
    }
    return Ok((strs, vars));
  }

  // Substitution.

  datatype SubstitutionError =
    | ParsingFailed(error: ParsingError)
    | MissingVariable(name: Bytes)
    | DecimalNumber
    | UnexpectedVariableType

  // int64(v). Out of range, the result that amd64 gives.
  function ToInt64(f: real): int {
    if -0x8000_0000_0000_0000 as real <= f < 0x8000_0000_0000_0000 as real then f.Floor else -0x8000_0000_0000_0000
  }

  function JsonToString(value: Value): Result<Bytes, SubstitutionError> {
    match value
    case Float(f) => if f.Floor as real != f then Err(DecimalNumber) else Ok(FormatInt(ToInt64(f)))
    case Number(text) => Ok(text)
    case Str(s) => Ok(s)
    case Bool(b) => Ok(if b then "true" else "false")
    case _ => Err(UnexpectedVariableType)
  }

  function Lookup(name: Bytes, vars: map<Bytes, Value>): Result<Bytes, SubstitutionError> {
    if name in vars then JsonToString(vars[name]) else Err(MissingVariable(name))
  }

  function Behind(text: Bytes, rest: Result<Bytes, SubstitutionError>): Result<Bytes, SubstitutionError> {
    match rest
    case Err(e) => Err(e)
    case Ok(t) => Ok(text + t)
  }

  // Literals and variable texts in turn.
  function Fill(strs: seq<Bytes>, refs: seq<Bytes>, vars: map<Bytes, Value>): Result<Bytes, SubstitutionError> {
    if strs == [] then
      if refs == [] then Ok([]) else Lookup(refs[0], vars)
    else if refs == [] then Behind(strs[0], Fill(strs[1..], [], vars))
    else
      match Lookup(refs[0], vars)
      case Err(e) => Err(e)
      case Ok(text) => Behind(strs[0] + text, Fill(strs[1..], refs[1..], vars))
  }

  function Replace(s: Bytes, vars: map<Bytes, Value>): Result<Bytes, SubstitutionError> {
    match Parse(s, [])
    case Err(e) => Err(ParsingFailed(e))
    case Ok((strs, refs)) => Fill(strs, refs, vars)
  }

  lemma {:induction false} BehindTwice(a: Bytes, b: Bytes, rest: Result<Bytes, SubstitutionError>)
    ensures Behind(a, Behind(b, rest)) == Behind(a + b, rest)
  {
    if rest.Ok? {
      assert a + (b + rest.value) == a + b + rest.value;
    }
  }

  function Drop<T>(s: seq<T>, n: nat): seq<T> {
    if n <= |s| then s[n..] else []
  }

  method ReplaceVariables(s: Bytes, vars: map<Bytes, Value>) returns (r: Result<Bytes, SubstitutionError>)
    ensures r == Replace(s, vars)
  {
    var parsed := ParseTemplate(s);
    if parsed.Err? {
      return Err(ParsingFailed(parsed.error));
    }
    var (strs, varRefs) := parsed.value;
    var buf: Bytes := [];
    assert Behind([], Fill(strs, varRefs, vars)) == Fill(strs, varRefs, vars) by {
      if Fill(strs, varRefs, vars).Ok? {
        assert [] + Fill(strs, varRefs, vars).value == Fill(strs, varRefs, vars).value;
      }
    }
    for i := 0 to |strs| + 1
      invariant i <= |strs| ==> Replace(s, vars) == Behind(buf, Fill(strs[i..], Drop(varRefs, i), vars))
      invariant i == |strs| + 1 ==> Replace(s, vars) == Ok(buf)
    {
      ghost var before, rest, refs := buf, strs[i..], Drop(varRefs, i);
      if i < |strs| {
        buf := buf + strs[i];
      }
      if i < |varRefs| {
        var text := Lookup(varRefs[i], vars);
        if text.Err? {
          return text;
        }
        buf := buf + text.value;
      }
      FillStep(before, rest, refs, vars);
      assert Drop(refs, 1) == Drop(varRefs, i + 1);
      assert i < |strs| ==> rest[1..] == strs[i + 1..];
      assert before + [] == before && buf + [] == buf;
    }
    return Ok(buf);
  }

  // One turn of the loop.
  lemma {:induction false} FillStep(before: Bytes, strs: seq<Bytes>, refs: seq<Bytes>, vars: map<Bytes, Value>)
    ensures var literal := if strs == [] then [] else strs[0];
            match if refs == [] then Ok([]) else Lookup(refs[0], vars)
            case Err(e) => Behind(before, Fill(strs, refs, vars)) == Err(e)
            case Ok(text) =>
              Behind(before, Fill(strs, refs, vars))
              == if strs == [] then Ok(before + literal + text)
                 else Behind(before + literal + text, Fill(strs[1..], Drop(refs, 1), vars))
  {
    if strs != [] {
      var rest := Fill(strs[1..], Drop(refs, 1), vars);
      if refs == [] {
        BehindTwice(before, strs[0], rest);
        assert before + strs[0] + [] == before + strs[0];
      } else if Lookup(refs[0], vars).Ok? {
        var text := Lookup(refs[0], vars).value;
        BehindTwice(before, strs[0] + text, rest);
        assert before + (strs[0] + text) == before + strs[0] + text;
      }
    } else {
      assert before + [] == before;
    }
  }
}
