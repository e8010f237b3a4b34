// The values of the machine as text, and back.
module ValueTexts {
  import opened Wrappers
  import opened Decimals
  import opened Allotments
  import Charts
  import ChartLookup

  datatype Type =
    | TypeAccount | TypeAsset | TypeNumber | TypeString | TypeMonetary
    | TypePortion | TypeAllotment | TypeAmount | TypeFunding

  // None stands for a nil integer.
  datatype Value =
    | AccountAddress(address: string)
    | Asset(name: string)
    | Number(number: Option<int>)
    | String(text: string)
    | Monetary(asset: string, amount: Option<int>)
    | PortionValue(portion: Portion)
    | OtherValue(kind: Type)

  function GetType(v: Value): Type {
    match v
    case AccountAddress(_) => TypeAccount
    case Asset(_) => TypeAsset
    case Number(_) => TypeNumber
    case String(_) => TypeString
    case Monetary(_, _) => TypeMonetary
    case PortionValue(_) => TypePortion
    case OtherValue(kind) => kind
  }

  // NilReceiver: asking a nil number for its type panics.
  datatype ValueError = InvalidType | InvalidText | NilReceiver

  // Cutting at the first occurrence of a character.
  function CutAt(s: string, c: char): Option<(string, string)> {
    if s == "" then None
    else if s[0] == c then Some(("", s[1..]))
    else
      match CutAt(s[1..], c)
      case None => None
      case Some((left, right)) => Some(([s[0]] + left, right))
  }

  lemma {:induction false} CutAtJoined(left: string, c: char, right: string)
    requires c !in left
    ensures CutAt(left + [c] + right, c) == Some((left, right))
  {
    var s := left + [c] + right;
    if left == "" {
      assert s[1..] == right;
    } else {
      assert left[0] in left && c !in left[1..];
      assert s[1..] == left[1..] + [c] + right;
      CutAtJoined(left[1..], c, right);
      assert [left[0]] + left[1..] == left;
    }
  }

  lemma {:induction false} CutAtRebuilds(s: string, c: char)
    ensures CutAt(s, c).Some? ==> s == CutAt(s, c).value.0 + [c] + CutAt(s, c).value.1
  {
    if s != "" && s[0] != c {
      CutAtRebuilds(s[1..], c);
      if CutAt(s[1..], c).Some? {
        var (left, right) := CutAt(s[1..], c).value;
        assert s == [s[0]] + s[1..];
        assert [s[0]] + (left + [c] + right) == [s[0]] + left + [c] + right;
      }
    }
  }

  lemma {:induction false} NeverCut(s: string, c: char)
    requires c !in s
    ensures CutAt(s, c).None?
  {
    if s != "" {
      assert s[0] in s;
      NeverCut(s[1..], c);
    }
  }

  // Patterns.

  predicate IsAccountAddress(s: string) {
    forall p :: p in ChartLookup.Split(s) ==> Charts.IsName(p)
  }

  predicate IsUpper(c: char) {
    'A' <= c <= 'Z'
  }

  predicate AllUpper(s: string) {
    forall i :: 0 <= i < |s| ==> IsUpper(s[i])
  }

  // A letter, then up to 16 letters or digits.
  predicate IsAssetCode(s: string) {
    && 1 <= |s| <= 17 && IsUpper(s[0])
    && forall i :: 0 <= i < |s| ==> IsUpper(s[i]) || IsDigit(s[i])
  }

  predicate IsAssetHead(s: string) {
    match CutAt(s, '_')
    case None => IsAssetCode(s)
    case Some((code, suffix)) => IsAssetCode(code) && 1 <= |suffix| <= 16 && AllUpper(suffix)
  }

  predicate IsAsset(s: string) {
    match CutAt(s, '/')
    case None => IsAssetHead(s)
    case Some((head, precision)) => IsAssetHead(head) && 1 <= |precision| <= 6 && AllDigits(precision)
  }

  // The same, as what can be written: a code, an optional suffix behind an underscore and
  // an optional precision behind a slash, with the characters by code point.

  predicate Capital(c: char) {
    65 <= c as int <= 90
  }

  predicate Figure(c: char) {
    48 <= c as int <= 57
  }

  predicate AreAssetParts(code: string, suffix: string, precision: string) {
    && 1 <= |code| <= 17 && Capital(code[0]) && (forall i :: 0 <= i < |code| ==> Capital(code[i]) || Figure(code[i]))
    && |suffix| <= 16 && (forall i :: 0 <= i < |suffix| ==> Capital(suffix[i]))
    && |precision| <= 6 && (forall i :: 0 <= i < |precision| ==> Figure(precision[i]))
  }

  function AssetHead(code: string, suffix: string): string {
    code + if suffix == "" then "" else "_" + suffix
  }

  function AssetText(code: string, suffix: string, precision: string): string {
    AssetHead(code, suffix) + if precision == "" then "" else "/" + precision
  }

  lemma {:induction false} HeadWritten(code: string, suffix: string)
    requires AreAssetParts(code, suffix, "")
    ensures IsAssetHead(AssetHead(code, suffix)) && '/' !in AssetHead(code, suffix)
  {
    if suffix == "" {
      assert AssetHead(code, suffix) == code;
      NeverCut(code, '_');
    } else {
      assert ['_'] == "_";
      assert AssetHead(code, suffix) == code + "_" + suffix;
      CutAtJoined(code, '_', suffix);
    }
  }

  lemma {:induction false} AssetWritten(code: string, suffix: string, precision: string)
    requires AreAssetParts(code, suffix, precision)
    ensures IsAsset(AssetText(code, suffix, precision))
  {
    var head := AssetHead(code, suffix);
    HeadWritten(code, suffix);
    if precision == "" {
      assert AssetText(code, suffix, precision) == head;
      NeverCut(head, '/');
    } else {
      assert ['/'] == "/";
      assert AssetText(code, suffix, precision) == head + "/" + precision;
      CutAtJoined(head, '/', precision);
    }
  }

  lemma {:induction false} HeadParts(s: string) returns (code: string, suffix: string)
    requires IsAssetHead(s)
    ensures AreAssetParts(code, suffix, "") && s == AssetHead(code, suffix)
  {
    CutAtRebuilds(s, '_');
    match CutAt(s, '_')
    case None => code, suffix := s, "";
    case Some((left, right)) =>
      code, suffix := left, right;
      assert ['_'] == "_";
      assert s == left + ("_" + right);
  }

  lemma {:induction false} AssetIff(s: string)
    ensures IsAsset(s)
            <==> exists code, suffix, precision ::
                   AreAssetParts(code, suffix, precision) && s == AssetText(code, suffix, precision)
  {
    if IsAsset(s) {
      CutAtRebuilds(s, '/');
      match CutAt(s, '/')
      case None =>
        var code, suffix := HeadParts(s);
        assert AreAssetParts(code, suffix, "") && s == AssetText(code, suffix, "");
      case Some((left, right)) =>
        var code, suffix := HeadParts(left);
        assert ['/'] == "/";
        assert AreAssetParts(code, suffix, right) && s == AssetText(code, suffix, right);
    } else {
      forall code, suffix, precision | AreAssetParts(code, suffix, precision)
        ensures s != AssetText(code, suffix, precision)
      {
        AssetWritten(code, suffix, precision);
      }
    }
  }

  // Names with single colons between them, with the characters by code point: 58 is the colon.

  predicate AddressChar(c: char) {
    97 <= c as int <= 122 || Capital(c) || Figure(c) || c as int == 95 || c as int == 45
  }

  predicate AddressAt(s: string, i: nat)
    requires i < |s|
  {
    AddressChar(s[i]) || (s[i] as int == 58 && 0 < i < |s| - 1 && AddressChar(s[i - 1]))
  }

  predicate IsAddressText(s: string) {
    s != "" && forall i :: 0 <= i < |s| ==> AddressAt(s, i)
  }

  lemma {:induction false} AddressChars(c: char)
    ensures Charts.IsNameChar(c) <==> AddressChar(c)
    ensures c as int == 58 <==> c == ':'
  {
    assert c as int == 95 ==> c == 95 as char;
    assert c as int == 45 ==> c == 45 as char;
    assert c as int == 58 ==> c == 58 as char;
  }

  // Behind a first name character: the end, or an address, maybe behind a colon.
  lemma {:induction false} AddressStep(s: string)
    requires s != ""
    ensures IsAddressText(s) <==>
              && AddressChar(s[0])
              && (|s| == 1 || IsAddressText(if s[1] == ':' then s[2..] else s[1..]))
  {
    var skip := if |s| > 1 && s[1] == ':' then 2 else 1;
    var rest := s[skip..];
    forall i | 0 <= i < |rest|
      ensures rest[i] == s[i + skip] && (i > 0 ==> (AddressAt(rest, i) <==> AddressAt(s, i + skip)))
    {
    }
    assert AddressAt(s, 0) <==> AddressChar(s[0]);
    if |s| > 1 {
      AddressChars(s[1]);
      if IsAddressText(s) {
        assert AddressAt(s, 1) && AddressAt(s, skip);
        forall i | 0 <= i < |rest|
          ensures AddressAt(rest, i)
        {
          assert AddressAt(s, i + skip);
        }
      }
      if AddressChar(s[0]) && IsAddressText(rest) {
        assert AddressAt(rest, 0);
        forall i | 0 <= i < |s|
          ensures AddressAt(s, i)
        {
          assert i > skip ==> AddressAt(rest, i - skip);
        }
      }
    }
  }

  lemma {:induction false} NameStep(c: char, s: string)
    ensures Charts.IsName([c] + s) <==> Charts.IsNameChar(c) && (s == "" || Charts.IsName(s))
  {
    var t := [c] + s;
    assert t[0] == c && forall i :: 0 < i < |t| ==> t[i] == s[i - 1];
    assert forall i :: 0 <= i < |s| ==> s[i] == t[i + 1];
  }

  lemma {:induction false} AccountIff(s: string)
    ensures IsAccountAddress(s) <==> IsAddressText(s)
    decreases |s|
  {
    if s == "" {
      assert "" in ChartLookup.Split(s);
    } else {
      AddressChars(s[0]);
      AddressStep(s);
      if s[0] == ':' {
        assert ChartLookup.Split(s)[0] == "";
        assert "" in ChartLookup.Split(s);
      } else {
        AccountStep(s);
        if |s| > 1 {
          AddressChars(s[1]);
          AccountIff(if s[1] == ':' then s[2..] else s[1..]);
        }
      }
    }
  }

  lemma {:induction false} AccountStep(s: string)
    requires s != "" && s[0] != ':'
    ensures IsAccountAddress(s) <==>
              && Charts.IsNameChar(s[0])
              && (|s| == 1 || IsAccountAddress(if s[1] == ':' then s[2..] else s[1..]))
  {
    var parts, rest := ChartLookup.Split(s), ChartLookup.Split(s[1..]);
    assert parts == [[s[0]] + rest[0]] + rest[1..];
    NameStep(s[0], rest[0]);
    assert forall p :: p in parts <==> p == [s[0]] + rest[0] || p in rest[1..];
    assert forall p :: p in rest <==> p == rest[0] || p in rest[1..];
    if |s| > 1 && s[1] == ':' {
      assert s[1..][1..] == s[2..] && rest == [""] + ChartLookup.Split(s[2..]);
      assert rest[1..] == ChartLookup.Split(s[2..]);
    }
  }

  lemma {:induction false} HeadHasNoSpace(s: string)
    requires IsAssetHead(s)
    ensures ' ' !in s
  {
    CutAtRebuilds(s, '_');
  }

  lemma {:induction false} AssetHasNoSpace(s: string)
    requires IsAsset(s)
    ensures ' ' !in s
  {
    CutAtRebuilds(s, '/');
    if CutAt(s, '/').Some? {
      HeadHasNoSpace(CutAt(s, '/').value.0);
    } else {
      HeadHasNoSpace(s);
    }
  }

  // Integers as JSON: null is nil, and no zero leads a longer numeral.

  predicate IsJSONSpace(c: char) {
    c == ' ' || c == '\t' || c == '\r' || c == '\n'
  }

  function TrimLeft(s: string): string {
    if s != "" && IsJSONSpace(s[0]) then TrimLeft(s[1..]) else s
  }

  function TrimRight(s: string): string {
    if s != "" && IsJSONSpace(s[|s| - 1]) then TrimRight(s[..|s| - 1]) else s
  }

  predicate IsNumeral(s: string) {
    s != "" && AllDigits(s) && (s[0] == '0' ==> |s| == 1)
  }

  function ParseJSONInt(data: string): Option<Option<int>> {
    var s := TrimRight(TrimLeft(data));
    if s == "null" then Some(None)
    else if IsNumeral(s) then Some(Some(NatValue(s)))
    else if s != "" && s[0] == '-' && IsNumeral(s[1..]) then Some(Some(-(NatValue(s[1..]) as int)))
    else None
  }

  // The same, as what can be written: a number of section 6 of RFC 8259 without fraction and
  // exponent, between spaces, by code point.

  predicate AreSpaces(s: string) {
    forall i :: 0 <= i < |s| ==> s[i] as int == 32 || s[i] as int == 9 || s[i] as int == 13 || s[i] as int == 10
  }

  function SignedText(negative: bool, digits: string): string {
    (if negative then "-" else "") + digits
  }

  predicate IsIntegerText(negative: bool, digits: string, n: int) {
    && digits != "" && AllDigits(digits) && (|digits| > 1 ==> digits[0] as int != 48)
    && n == if negative then -(NatValue(digits) as int) else NatValue(digits)
  }

  lemma {:induction false} SpaceChars(c: char)
    ensures IsJSONSpace(c) <==> c as int == 32 || c as int == 9 || c as int == 13 || c as int == 10
  {
    assert c as int == 32 ==> c == 32 as char;
    assert c as int == 9 ==> c == 9 as char;
    assert c as int == 13 ==> c == 13 as char;
    assert c as int == 10 ==> c == 10 as char;
  }

  lemma {:induction false} TrimmedLeft(s: string) returns (left: string)
    ensures AreSpaces(left) && s == left + TrimLeft(s)
  {
    left := "";
    if s != "" && IsJSONSpace(s[0]) {
      SpaceChars(s[0]);
      left := TrimmedLeft(s[1..]);
      left := [s[0]] + left;
      assert s == [s[0]] + s[1..];
    }
  }

  lemma {:induction false} TrimmedRight(s: string) returns (right: string)
    ensures AreSpaces(right) && s == TrimRight(s) + right
  {
    right := "";
    if s != "" && IsJSONSpace(s[|s| - 1]) {
      SpaceChars(s[|s| - 1]);
      right := TrimmedRight(s[..|s| - 1]);
      right := right + [s[|s| - 1]];
      assert s == s[..|s| - 1] + [s[|s| - 1]];
    }
  }

  lemma {:induction false} TrimsLeft(left: string, s: string)
    requires AreSpaces(left) && s != "" && !IsJSONSpace(s[0])
    ensures TrimLeft(left + s) == s
  {
    if left == "" {
      assert left + s == s;
    } else {
      SpaceChars(left[0]);
      assert (left + s)[1..] == left[1..] + s;
      TrimsLeft(left[1..], s);
    }
  }

  lemma {:induction false} TrimsRight(s: string, right: string)
    requires AreSpaces(right) && s != "" && !IsJSONSpace(s[|s| - 1])
    ensures TrimRight(s + right) == s
  {
    if right == "" {
      assert s + right == s;
    } else {
      var t := s + right;
      SpaceChars(right[|right| - 1]);
      assert t[..|t| - 1] == s + right[..|right| - 1] && t[|t| - 1] == right[|right| - 1];
      TrimsRight(s, right[..|right| - 1]);
    }
  }

  // The integers that are read.
  lemma {:induction false} JSONIntRead(left: string, negative: bool, digits: string, right: string, n: int)
    requires AreSpaces(left) && AreSpaces(right) && IsIntegerText(negative, digits, n)
    ensures ParseJSONInt(left + SignedText(negative, digits) + right) == Some(Some(n))
  {
    var s := SignedText(negative, digits);
    assert IsDigit(digits[0]) && IsDigit(digits[|digits| - 1]) && s[|s| - 1] == digits[|digits| - 1];
    assert negative ==> s[0] == '-' && s[1..] == digits;
    assert !negative ==> s == digits;
    assert s[0] != 'n';
    assert left + s + right == left + (s + right);
    TrimsLeft(left, s + right);
    TrimsRight(s, right);
  }

  // And no others.
  lemma {:induction false} JSONIntIsText(data: string, n: int)
    returns (left: string, negative: bool, digits: string, right: string)
    requires ParseJSONInt(data) == Some(Some(n))
    ensures AreSpaces(left) && AreSpaces(right) && IsIntegerText(negative, digits, n)
    ensures data == left + SignedText(negative, digits) + right
  {
    left := TrimmedLeft(data);
    right := TrimmedRight(TrimLeft(data));
    var s := TrimRight(TrimLeft(data));
    negative := s[0] == '-';
    digits := if negative then s[1..] else s;
    assert digits[0] as int == 48 ==> digits[0] == 48 as char;
    assert s == SignedText(negative, digits);
  }

  // Fractions in lowest terms, as big.Rat keeps them.

  function Gcd(a: nat, b: nat): (g: nat)
    ensures 0 < a || 0 < b ==> 0 < g
    decreases b
  {
    if b == 0 then a else Gcd(b, a % b)
  }

  lemma {:induction false} Grows(d: int, x: int)
    requires 0 <= d
    ensures 1 <= x ==> d <= d * x
    ensures x <= -1 ==> d * x <= -d
  {
    if 1 <= x {
      assert d * x == d + d * (x - 1);
    } else if x <= -1 {
      assert d * x == -d + d * (x + 1);
    }
  }

  lemma {:induction false} DivisionUnique(n: nat, d: nat, q: nat, r: nat)
    requires n == d * q + r && r < d
    ensures n / d == q && n % d == r
  {
    var p, s := n / d, n % d;
    assert d * (p - q) == d * p - d * q == r - s;
    Grows(d, p - q);
  }

  lemma {:induction false} GcdScales(k: nat, a: nat, b: nat)
    requires 0 < k
    ensures Gcd(k * a, k * b) == k * Gcd(a, b)
    decreases b
  {
    if b != 0 {
      var q, r := a / b, a % b;
      assert 0 < k * b && k * r < k * b;
      assert k * (b * q + r) == (k * b) * q + k * r;
      DivisionUnique(k * a, k * b, q, k * r);
      GcdScales(k, b, r);
    }
  }

  lemma {:induction false} GcdDivides(a: nat, b: nat) returns (m: nat, n: nat)
    ensures a == Gcd(a, b) * m && b == Gcd(a, b) * n
    decreases b
  {
    if b == 0 {
      m, n := 1, 0;
    } else {
      var k;
      n, k := GcdDivides(b, a % b);
      m := n * (a / b) + k;
      CommonFactor(a / b, Gcd(a, b), n, k);
    }
  }

  lemma {:induction false} CommonFactor(q: nat, g: nat, m: nat, n: nat)
    ensures (g * m) * q + g * n == g * (m * q + n)
  {
    assert (g * m) * q == g * (m * q);
  }

  lemma {:induction false} FactorPositive(g: nat, n: nat)
    requires 0 < g * n
    ensures 0 < n
  {
  }

  lemma {:induction false} GcdQuotients(a: nat, b: nat)
    requires 0 < b
    ensures var g := Gcd(a, b); a == g * (a / g) && b == g * (b / g) && 0 < b / g
  {
    var g := Gcd(a, b);
    var m, n := GcdDivides(a, b);
    DivisionUnique(a, g, m, 0);
    DivisionUnique(b, g, n, 0);
    FactorPositive(g, n);
  }

  predicate IsLowest(r: Rat) {
    0 <= r.num && Gcd(r.num, r.den) == 1
  }

  function Reduce(a: nat, b: nat): (r: Rat)
    requires 0 < b
  {
    GcdQuotients(a, b);
    var g := Gcd(a, b);
    Rat(a / g, b / g)
  }

  // The reduced fraction is the same number, in lowest terms, which it keeps.
  lemma {:induction false} Reduces(a: nat, b: nat)
    requires 0 < b
    ensures IsLowest(Reduce(a, b)) && Reduce(a, b).num * b == a * Reduce(a, b).den
    ensures Gcd(a, b) == 1 ==> Reduce(a, b) == Rat(a, b)
  {
    var g := Gcd(a, b);
    GcdQuotients(a, b);
    QuotientsCoprime(a, b, g, a / g, b / g);
    Cross(a, b, g, a / g, b / g);
    if g == 1 {
      assert a / 1 == a && b / 1 == b;
    }
  }

  lemma {:induction false} QuotientsCoprime(a: nat, b: nat, g: nat, p: nat, q: nat)
    requires 0 < g && g == Gcd(a, b) && a == g * p && b == g * q
    ensures Gcd(p, q) == 1
  {
    GcdScales(g, p, q);
    Cancel(g, Gcd(p, q));
  }

  lemma {:induction false} Cancel(g: nat, x: nat)
    requires 0 < g && g == g * x
    ensures x == 1
  {
    assert g * (x - 1) == 0;
    Grows(g, x - 1);
  }

  lemma {:induction false} Cross(a: nat, b: nat, g: nat, p: nat, q: nat)
    requires a == g * p && b == g * q
    ensures p * b == a * q
  {
    assert p * (g * q) == (g * p) * q;
  }

  // Portions.

  function Power10(n: nat): (p: nat)
    ensures 0 < p
  {
    if n == 0 then 1 else 10 * Power10(n - 1)
  }

  // A percentage: digits, and possibly a point and more digits, before the sign.
  function PercentDigits(s: string): Option<(string, string)> {
    if s == "" || s[|s| - 1] != '%' then None
    else
      var body := s[..|s| - 1];
      match CutAt(body, '.')
      case None => if body != "" && AllDigits(body) then Some((body, "")) else None
      case Some((integral, fractional)) =>
        if integral != "" && fractional != "" && AllDigits(integral) && AllDigits(fractional)
        then Some((integral, fractional)) else None
  }

  predicate IsPatternSpace(c: char) {
    c == ' ' || c == '\t' || c == '\n' || c == '\r' || c == '\U{0C}'
  }

  // A fraction: digits on both sides of the bar, each with at most one space next to it.
  function FractionDigits(s: string): Option<(string, string)> {
    match CutAt(s, '/')
    case None => None
    case Some((l, r)) =>
      var left := if l != "" && IsPatternSpace(l[|l| - 1]) then l[..|l| - 1] else l;
      var right := if r != "" && IsPatternSpace(r[0]) then r[1..] else r;
      if left != "" && right != "" && AllDigits(left) && AllDigits(right) then Some((left, right)) else None
  }

  predicate AllOctal(s: string) {
    forall i :: 0 <= i < |s| ==> '0' <= s[i] <= '7'
  }

  function OctalValue(s: string): nat
    requires AllOctal(s)
  {
    if s == "" then 0 else 8 * OctalValue(s[..|s| - 1]) + (s[|s| - 1] as int - '0' as int)
  }

  // The numerals of a fraction are read in base 0: a leading zero announces octal.
  function BaseZeroValue(s: string): Option<nat>
    requires s != "" && AllDigits(s)
  {
    if s[0] == '0' && |s| > 1 then if AllOctal(s) then Some(OctalValue(s)) else None
    else Some(NatValue(s))
  }

  function NewPortionSpecific(r: Rat): Option<Portion> {
    if r.num < 0 || r.den < r.num then None else Some(Specific(r))
  }

  function ParsePortionSpecific(s: string): Option<Portion> {
    match PercentDigits(s)
    case Some((integral, fractional)) =>
      NewPortionSpecific(Reduce(NatValue(integral + fractional), 100 * Power10(|fractional|)))
    case None =>
      match FractionDigits(s)
      case None => None
      case Some((left, right)) =>
        var a, b := BaseZeroValue(left), BaseZeroValue(right);
        if a.None? || b.None? || b.value == 0 then None else NewPortionSpecific(Reduce(a.value, b.value))
  }

  function PortionString(p: Portion): string {
    match p
    case Remaining => "remaining"
    case Specific(r) => FormatInt(r.num) + "/" + FormatInt(r.den)
  }

  // Values.

  function NewValueFromString(typ: Type, data: string): Result<Value, ValueError> {
    match typ
    case TypeAccount => if IsAccountAddress(data) then Ok(AccountAddress(data)) else Err(InvalidText)
    case TypeAsset => if IsAsset(data) then Ok(Asset(data)) else Err(InvalidText)
    case TypeNumber =>
      (match ParseJSONInt(data)
       case None => Err(InvalidText)
       case Some(n) => Ok(Number(n)))
    case TypeMonetary =>
      (match CutAt(data, ' ')
       case None => Err(InvalidText)
       case Some((asset, text)) =>
         match ParseInt(text)
         case None => Err(InvalidText)
         case Some(n) => if IsAsset(asset) && 0 <= n then Ok(Monetary(asset, Some(n))) else Err(InvalidText))
    case TypePortion =>
      (match ParsePortionSpecific(data)
       case None => Err(InvalidText)
       case Some(p) => Ok(PortionValue(p)))
    case TypeString => Ok(String(data))
    case _ => Err(InvalidType)
  }

  function IntString(i: Option<int>): string {
    if i.None? then "0" else FormatInt(i.value)
  }

  function NewStringFromValue(v: Value): Result<string, ValueError> {
    match v
    case AccountAddress(address) => Ok(address)
    case Asset(name) => Ok(name)
    case String(text) => Ok(text)
    case Number(n) => if n.None? then Err(NilReceiver) else Ok(FormatInt(n.value))
    case Monetary(asset, amount) => Ok(asset + " " + IntString(amount))
    case PortionValue(p) => Ok(PortionString(p))
    case OtherValue(_) => Err(InvalidType)
  }

  // The values a text can stand for, but for the nil number.
  predicate IsValid(v: Value) {
    match v
    case AccountAddress(address) => IsAccountAddress(address)
    case Asset(name) => IsAsset(name)
    case Number(n) => n.Some?
    case String(_) => true
    case Monetary(asset, amount) => IsAsset(asset) && amount.Some? && 0 <= amount.value
    case PortionValue(p) => p.Specific? && IsLowest(p.rat) && p.rat.num <= p.rat.den
    case OtherValue(_) => false
  }

  lemma {:induction false} ReadsPortion(typ: Type, s: string)
    requires typ == TypePortion
    ensures NewValueFromString(typ, s) ==
              match ParsePortionSpecific(s) case Some(p) => Ok(PortionValue(p)) case None => Err(InvalidText)
  {
  }

  lemma {:induction false} NumeralTrimmed(s: string)
    requires IsNumeral(s) || (s != "" && s[0] == '-' && IsNumeral(s[1..]))
    ensures TrimRight(TrimLeft(s)) == s && s != "null"
  {
    assert s[|s| - 1] == if s[0] == '-' then s[1..][|s| - 2] else s[|s| - 1];
    assert "null"[0] == 'n';
  }

  lemma {:induction false} NumeralParses(s: string)
    requires IsNumeral(s)
    ensures ParseJSONInt(s) == Some(Some(NatValue(s)))
  {
    NumeralTrimmed(s);
  }

  lemma {:induction false} NegativeParses(s: string)
    requires IsNumeral(s)
    ensures ParseJSONInt("-" + s) == Some(Some(-(NatValue(s) as int)))
  {
    NegatedText(s);
    NumeralTrimmed("-" + s);
  }

  lemma {:induction false} NegatedText(s: string)
    ensures ("-" + s)[0] == '-' && ("-" + s)[1..] == s
  {
  }

  lemma {:induction false} NaturalRoundTrip(n: nat)
    ensures ParseJSONInt(FormatNat(n)) == Some(Some(n))
    ensures ParseJSONInt("-" + FormatNat(n)) == Some(Some(-(n as int)))
  {
    var s := FormatNat(n);
    FormatNatValue(n);
    NumeralParses(s);
    NegativeParses(s);
  }

  lemma {:induction false} NumberRoundTrip(i: int)
    ensures ParseJSONInt(FormatInt(i)) == Some(Some(i))
  {
    if i < 0 {
      NaturalRoundTrip(-i);
    } else {
      NaturalRoundTrip(i);
    }
  }

  lemma {:induction false} MonetaryRoundTrip(asset: string, n: nat)
    requires IsAsset(asset)
    ensures NewValueFromString(TypeMonetary, asset + " " + FormatInt(n)) == Ok(Monetary(asset, Some(n)))
  {
    AssetHasNoSpace(asset);
    assert [' '] == " ";
    CutAtJoined(asset, ' ', FormatInt(n));
    ParseFormatted(n);
  }

  lemma {:induction false} NotAPercentage(s: string)
    requires s != "" && IsDigit(s[|s| - 1])
    ensures PercentDigits(s).None?
  {
  }

  predicate AtMostOneSpace(s: string) {
    s == "" || (|s| == 1 && IsPatternSpace(s[0]))
  }

  lemma {:induction false} SpaceDropped(left: string, before: string, after: string, right: string)
    requires left != "" && right != "" && AllDigits(left) && AllDigits(right)
    requires AtMostOneSpace(before) && AtMostOneSpace(after)
    ensures var l, r := left + before, after + right;
            && (if IsPatternSpace(l[|l| - 1]) then l[..|l| - 1] else l) == left
            && (if IsPatternSpace(r[0]) then r[1..] else r) == right
  {
    assert IsDigit(left[|left| - 1]) && IsDigit(right[0]);
    if before == "" {
      assert left + before == left;
    }
    if after == "" {
      assert after + right == right;
    }
  }

  lemma {:induction false} NoBar(digits: string, space: string)
    requires AllDigits(digits) && AtMostOneSpace(space)
    ensures '/' !in digits + space
  {
  }

  lemma {:induction false} FractionCut(l: string, r: string)
    requires '/' !in l
    ensures CutAt(l + "/" + r, '/') == Some((l, r))
  {
    assert ['/'] == "/";
    CutAtJoined(l, '/', r);
  }

  lemma {:induction false} PartsRead(s: string, l: string, r: string, left: string, right: string)
    requires CutAt(s, '/') == Some((l, r)) && l != "" && r != ""
    requires left != "" && right != "" && AllDigits(left) && AllDigits(right)
    requires left == if IsPatternSpace(l[|l| - 1]) then l[..|l| - 1] else l
    requires right == if IsPatternSpace(r[0]) then r[1..] else r
    ensures FractionDigits(s) == Some((left, right))
  {
  }

  lemma {:induction false} SpacedFractionRead(left: string, before: string, after: string, right: string)
    requires left != "" && right != "" && AllDigits(left) && AllDigits(right)
    requires AtMostOneSpace(before) && AtMostOneSpace(after)
    ensures FractionDigits(left + before + "/" + after + right) == Some((left, right))
  {
    NoBar(left, before);
    FractionCut(left + before, after + right);
    assert left + before + "/" + after + right == (left + before) + "/" + (after + right);
    SpaceDropped(left, before, after, right);
    PartsRead(left + before + "/" + after + right, left + before, after + right, left, right);
  }

  lemma {:induction false} FractionParses(left: string, a: nat, right: string, b: nat)
    requires IsNumeral(left) && IsNumeral(right) && NatValue(left) == a && NatValue(right) == b && 0 < b
    ensures ParsePortionSpecific(left + "/" + right) == NewPortionSpecific(Reduce(a, b))
  {
    var s := left + "/" + right;
    assert s[|s| - 1] == right[|right| - 1];
    NotAPercentage(s);
    assert left + "" + "/" + "" + right == s;
    SpacedFractionRead(left, "", "", right);
    NoLeadingZero(left, a);
    NoLeadingZero(right, b);
  }

  lemma {:induction false} PortionRoundTrip(r: Rat)
    requires IsLowest(r) && r.num <= r.den
    ensures ParsePortionSpecific(PortionString(Specific(r))) == Some(Specific(r))
  {
    FormatNatValue(r.num);
    FormatNatValue(r.den);
    FractionParses(FormatNat(r.num), r.num, FormatNat(r.den), r.den);
    Reduces(r.num, r.den);
  }

  lemma {:induction false} NoLeadingZero(s: string, n: nat)
    requires IsNumeral(s) && NatValue(s) == n
    ensures BaseZeroValue(s) == Some(n)
  {
  }

  // What the accepted texts of portions are worth.

  lemma {:induction false} NatValueJoined(a: string, b: string)
    requires AllDigits(a) && AllDigits(b)
    ensures AllDigits(a + b) && NatValue(a + b) == NatValue(a) * Power10(|b|) + NatValue(b)
  {
    var s := a + b;
    if b == "" {
      assert s == a;
    } else {
      var init, d := b[..|b| - 1], DigitValue(b[|b| - 1]);
      NatValueJoined(a, init);
      assert s[..|s| - 1] == a + init && s[|s| - 1] == b[|b| - 1];
      Shifted(NatValue(a), Power10(|init|), NatValue(init), d);
    }
  }

  lemma {:induction false} Shifted(n: nat, p: nat, m: nat, d: nat)
    ensures 10 * (n * p + m) + d == n * (10 * p) + (10 * m + d)
  {
    assert 10 * (n * p) == n * (10 * p);
  }

  // A fraction that equals n / d is at most one exactly when n / d is.
  lemma {:induction false} AtMostOneIff(r: Rat, n: nat, d: nat)
    requires 0 < d && 0 <= r.num && r.num * d == n * r.den
    ensures r.num <= r.den <==> n <= d
  {
    if r.num <= r.den && d < n {
      assert (r.den - r.num) * d + (n - d) * r.den == r.den * d - r.num * d + n * r.den - d * r.den == 0;
      Grows(r.den, n - d);
      Grows(d, r.den - r.num);
    } else if r.den < r.num && n <= d {
      assert (r.num - r.den) * d + (d - n) * r.den == r.num * d - r.den * d + d * r.den - n * r.den == 0;
      Grows(d, r.num - r.den);
      Grows(r.den, d - n);
    }
  }

  // The portion that n / d makes: n / d in lowest terms, if that is at most one.
  predicate IsPortionOf(p: Option<Portion>, n: nat, d: nat) {
    && (p.Some? <==> n <= d)
    && (p.Some? ==> p.value.Specific? && IsLowest(p.value.rat) && p.value.rat.num * d == n * p.value.rat.den)
  }

  lemma {:induction false} ReducedPortion(n: nat, d: nat)
    requires 0 < d
    ensures IsPortionOf(NewPortionSpecific(Reduce(n, d)), n, d)
  {
    Reduces(n, d);
    AtMostOneIff(Reduce(n, d), n, d);
  }

  function Percentage(integral: string, fractional: string): string {
    integral + (if fractional == "" then "" else "." + fractional) + "%"
  }

  lemma {:induction false} PercentageRead(integral: string, fractional: string)
    requires integral != "" && AllDigits(integral) && AllDigits(fractional)
    ensures PercentDigits(Percentage(integral, fractional)) == Some((integral, fractional))
  {
    var body := integral + if fractional == "" then "" else "." + fractional;
    assert Percentage(integral, fractional)[..|body|] == body;
    if fractional == "" {
      assert body == integral;
      NeverCut(integral, '.');
    } else {
      assert ['.'] == ".";
      assert body == integral + "." + fractional;
      CutAtJoined(integral, '.', fractional);
    }
  }

  // i.f% is worth (i * 10^|f| + f) / (100 * 10^|f|).
  lemma {:induction false} PercentageWorth(integral: string, fractional: string)
    requires integral != "" && AllDigits(integral) && AllDigits(fractional)
    ensures var scale := Power10(|fractional|);
            IsPortionOf(ParsePortionSpecific(Percentage(integral, fractional)),
                        NatValue(integral) * scale + NatValue(fractional), 100 * scale)
  {
    PercentageRead(integral, fractional);
    NatValueJoined(integral, fractional);
    ReducedPortion(NatValue(integral + fractional), 100 * Power10(|fractional|));
  }

  // a/b is worth a / b, whatever space there is next to the bar.
  lemma {:induction false} FractionWorth(left: string, before: string, after: string, right: string)
    requires left != "" && right != "" && AllDigits(left) && AllDigits(right)
    requires AtMostOneSpace(before) && AtMostOneSpace(after)
    ensures var p := ParsePortionSpecific(left + before + "/" + after + right);
            var a, b := BaseZeroValue(left), BaseZeroValue(right);
            if a.Some? && b.Some? && 0 < b.value then IsPortionOf(p, a.value, b.value) else p.None?
  {
    SpacedFractionRead(left, before, after, right);
    var s := left + before + "/" + after + right;
    assert s[|s| - 1] == right[|right| - 1];
    NotAPercentage(s);
    var a, b := BaseZeroValue(left), BaseZeroValue(right);
    if a.Some? && b.Some? && 0 < b.value {
      ReducedPortion(a.value, b.value);
    }
  }

  // Nothing else is a portion.

  lemma {:induction false} PercentageIsText(s: string)
    requires PercentDigits(s).Some?
    ensures var (integral, fractional) := PercentDigits(s).value;
            integral != "" && AllDigits(integral) && AllDigits(fractional) && s == Percentage(integral, fractional)
  {
    var body := s[..|s| - 1];
    assert s == body + "%";
    CutAtRebuilds(body, '.');
    assert ['.'] == ".";
    if CutAt(body, '.').Some? {
      var (integral, fractional) := CutAt(body, '.').value;
      assert body == integral + ("." + fractional);
    } else {
      assert body == body + "";
    }
  }

  lemma {:induction false} FractionIsText(s: string) returns (before: string, after: string)
    requires FractionDigits(s).Some?
    ensures AtMostOneSpace(before) && AtMostOneSpace(after)
    ensures var (left, right) := FractionDigits(s).value;
            AllDigits(left) && AllDigits(right) && s == left + before + "/" + after + right
  {
    CutAtRebuilds(s, '/');
    var (l, r) := CutAt(s, '/').value;
    var (left, right) := FractionDigits(s).value;
    before := SpaceBefore(l);
    after := SpaceAfter(r);
    FractionJoined(s, l, r, left, before, after, right);
  }

  lemma {:induction false} SpaceBefore(l: string) returns (before: string)
    ensures AtMostOneSpace(before)
    ensures l == (if l != "" && IsPatternSpace(l[|l| - 1]) then l[..|l| - 1] else l) + before
  {
    before := if l != "" && IsPatternSpace(l[|l| - 1]) then [l[|l| - 1]] else "";
  }

  lemma {:induction false} SpaceAfter(r: string) returns (after: string)
    ensures AtMostOneSpace(after)
    ensures r == after + if r != "" && IsPatternSpace(r[0]) then r[1..] else r
  {
    after := if r != "" && IsPatternSpace(r[0]) then [r[0]] else "";
  }

  lemma {:induction false} FractionJoined(
      s: string, l: string, r: string, left: string, before: string, after: string, right: string)
    requires s == l + ['/'] + r && l == left + before && r == after + right
    ensures s == left + before + "/" + after + right
  {
    assert ['/'] == "/";
  }

  lemma {:induction false} PortionIsText(s: string)
    requires ParsePortionSpecific(s).Some?
    ensures || (exists integral, fractional ::
                  AllDigits(integral) && AllDigits(fractional) && s == Percentage(integral, fractional))
            || (exists left, before, after, right ::
                  && AllDigits(left) && AllDigits(right) && AtMostOneSpace(before) && AtMostOneSpace(after)
                  && s == left + before + "/" + after + right)
  {
    if PercentDigits(s).Some? {
      PercentageIsText(s);
    } else {
      var before, after := FractionIsText(s);
    }
  }

  // A numeral of a fraction is decimal, unless a zero leads more digits: then it is octal,
  // and none with a digit above seven.
  lemma {:induction false} BaseZeroIs(s: string)
    requires s != "" && AllDigits(s)
    ensures DigitValue(s[0]) != 0 || |s| == 1 ==> BaseZeroValue(s) == Some(NatValue(s))
    ensures DigitValue(s[0]) == 0 && |s| > 1 ==>
              if exists i :: 0 <= i < |s| && DigitValue(s[i]) > 7 then BaseZeroValue(s).None?
              else BaseZeroValue(s).Some? && OctalWorth(s, BaseZeroValue(s).value)
  {
    assert s[0] == '0' <==> DigitValue(s[0]) == 0;
    if AllOctal(s) {
      OctalIsWorth(s);
    }
  }

  // n is the number that these digits are in base eight.
  predicate OctalWorth(s: string, n: nat)
    requires AllDigits(s)
  {
    if s == "" then n == 0 else n % 8 == DigitValue(s[|s| - 1]) && OctalWorth(s[..|s| - 1], n / 8)
  }

  lemma {:induction false} OctalIsWorth(s: string)
    requires AllDigits(s) && AllOctal(s)
    ensures OctalWorth(s, OctalValue(s))
  {
    if s != "" {
      OctalIsWorth(s[..|s| - 1]);
      LastDigit(OctalValue(s[..|s| - 1]), DigitValue(s[|s| - 1]));
    }
  }

  lemma {:induction false} LastDigit(n: nat, d: nat)
    requires d < 8
    ensures (8 * n + d) / 8 == n && (8 * n + d) % 8 == d
  {
  }

  // A zero in front changes what a numeral of a fraction means.
  lemma {:induction false} LeadingZeroIsOctal(s: string)
    requires |s| == 3 && s[0] == '0' && s[1] == '1' && s[2] == '0'
    ensures BaseZeroValue(s) == Some(8) && NatValue(s) == 10
  {
    var t, u := s[..2], s[..2][..1];
    assert OctalValue(u[..0]) == 0 && OctalValue(u) == 0 && OctalValue(t) == 1;
    assert NatValue(u[..0]) == 0 && NatValue(u) == 0 && NatValue(t) == 1;
  }

  lemma {:induction false} ParsedIsValid(typ: Type, data: string)
    requires NewValueFromString(typ, data).Ok?
    ensures var v := NewValueFromString(typ, data).value;
            GetType(v) == typ && (IsValid(v) || v == Number(None))
  {
    if typ == TypePortion {
      ParsedPortionIsValid(data);
    }
  }

  lemma {:induction false} ParsedPortionIsValid(data: string)
    requires ParsePortionSpecific(data).Some?
    ensures IsValid(PortionValue(ParsePortionSpecific(data).value))
  {
    match PercentDigits(data)
    case Some((integral, fractional)) =>
      Reduces(NatValue(integral + fractional), 100 * Power10(|fractional|));
    case None =>
      var (left, right) := FractionDigits(data).value;
      Reduces(BaseZeroValue(left).value, BaseZeroValue(right).value);
  }

  predicate RoundTrips(v: Value) {
    NewStringFromValue(v).Ok? && NewValueFromString(GetType(v), NewStringFromValue(v).value) == Ok(v)
  }

  lemma {:induction false} TextRoundTrips(v: Value)
    requires v.AccountAddress? || v.Asset? || v.String?
    ensures IsValid(v) ==> RoundTrips(v)
  {
  }

  lemma {:induction false} NumberRoundTrips(n: int)
    ensures RoundTrips(Number(Some(n)))
  {
    NumberRoundTrip(n);
  }

  lemma {:induction false} MonetaryRoundTrips(asset: string, n: nat)
    requires IsAsset(asset)
    ensures RoundTrips(Monetary(asset, Some(n)))
  {
    MonetaryRoundTrip(asset, n);
  }

  lemma {:induction false} PortionRoundTrips(v: Value)
    requires v.PortionValue? && IsValid(v)
    ensures RoundTrips(v)
  {
    PortionRoundTrip(v.portion.rat);
    ReadsPortion(GetType(v), PortionString(v.portion));
  }

  lemma {:induction false} ValidRoundTrips(v: Value)
    requires IsValid(v)
    ensures RoundTrips(v)
  {
    match v
    case Number(n) => NumberRoundTrips(n.value);
    case Monetary(asset, amount) => MonetaryRoundTrips(asset, amount.value);
    case PortionValue(_) => PortionRoundTrips(v);
    case _ => TextRoundTrips(v);
  }

  // Main result: a value is read back from its text exactly when it is valid.
  lemma {:induction false} RoundTripIff(v: Value)
    ensures RoundTrips(v) <==> IsValid(v)
  {
    if IsValid(v) {
      ValidRoundTrips(v);
    } else if RoundTrips(v) {
      ParsedIsValid(GetType(v), NewStringFromValue(v).value);
      assert false;
    }
  }

  // What was read can be written, and is read back from what is written, unless it was a
  // null number: writing that one fails.
  lemma {:induction false} ReadWriteRead(typ: Type, data: string)
    requires NewValueFromString(typ, data).Ok?
    ensures var v := NewValueFromString(typ, data).value;
            (NewStringFromValue(v).Ok? && NewValueFromString(typ, NewStringFromValue(v).value) == Ok(v))
            <==> !(typ == TypeNumber && TrimRight(TrimLeft(data)) == "null")
    ensures typ == TypeNumber && TrimRight(TrimLeft(data)) == "null" ==>
              NewStringFromValue(NewValueFromString(typ, data).value) == Err(NilReceiver)
  {
    ParsedIsValid(typ, data);
    RoundTripIff(NewValueFromString(typ, data).value);
  }

  // The text that is read and cannot be written.
  lemma {:induction false} NullIsNotWritten()
    ensures NewValueFromString(TypeNumber, "null") == Ok(Number(None))
    ensures NewStringFromValue(Number(None)) == Err(NilReceiver)
  {
    var s := "null";
    assert s[0] == 'n' && s[3] == 'l';
    assert TrimRight(TrimLeft(s)) == s;
  }

  // Texts that are written and not read back: that of the remaining portion is rejected,
  // and a nil amount reads as zero.

  lemma {:induction false} NeitherForm(s: string)
    requires s != "" && s[|s| - 1] == 'g' && '/' !in s
    ensures ParsePortionSpecific(s).None?
  {
    NeverCut(s, '/');
  }

  lemma {:induction false} RemainingText(p: Portion, s: string)
    requires p.Remaining? && s == PortionString(p)
    ensures s == "remaining" && |s| == 9 && s[8] == 'g' && '/' !in s
  {
  }

  lemma {:induction false} RemainingIsNotRead(v: Value, s: string)
    requires v.PortionValue? && v.portion.Remaining? && NewStringFromValue(v) == Ok(s)
    ensures s == PortionString(v.portion) && NewValueFromString(GetType(v), s) == Err(InvalidText)
  {
    RemainingText(v.portion, s);
    NeitherForm(s);
    ReadsPortion(GetType(v), s);
  }

  lemma {:induction false} NilAmountReadsAsZero(asset: string)
    requires IsAsset(asset)
    ensures var text := NewStringFromValue(Monetary(asset, None));
            text.Ok? && NewValueFromString(TypeMonetary, text.value) == Ok(Monetary(asset, Some(0)))
  {
    MonetaryRoundTrip(asset, 0);
  }
}
