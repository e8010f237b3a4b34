// Splitting an integer amount by rational portions.
module Allotments {
  import opened Wrappers

  // A big.Rat: an integer over a positive integer. Two of them are equal as numbers
  // when their values are.
  type Positive = n: int | 0 < n witness 1

  datatype Rat = Rat(num: int, den: Positive) {
    ghost function Value(): real {
      num as real / den as real
    }
  }

  datatype Portion = Remaining | Specific(rat: Rat)

  datatype AllotmentError = TwoRemaining | SumExceeded

  function AddRat(a: Rat, b: Rat): Rat {
    Rat(a.num * b.den + b.num * a.den, Product(a.den, b.den))
  }

  function SubRat(a: Rat, b: Rat): Rat {
    Rat(a.num * b.den - b.num * a.den, Product(a.den, b.den))
  }

  function Product(a: Positive, b: Positive): Positive {
    ProductPositive(a, b);
    a * b
  }

  lemma {:induction false} ProductPositive(a: Positive, b: Positive)
    ensures 0 < a * b
  {
  }

  // a <= b
  predicate AtMost(a: Rat, b: Rat) {
    a.num * b.den <= b.num * a.den
  }

  lemma {:induction false} RatSums(a: Rat, b: Rat)
    ensures AddRat(a, b).Value() == a.Value() + b.Value()
    ensures SubRat(a, b).Value() == a.Value() - b.Value()
  {
    var p, q, r, s := a.num as real, a.den as real, b.num as real, b.den as real;
    assert (a.num * b.den + b.num * a.den) as real == p * s + r * q;
    assert (a.num * b.den - b.num * a.den) as real == p * s - r * q;
    assert (a.den * b.den) as real == q * s;
    Fractions(p, q, r, s);
  }

  lemma {:induction false} Fractions(p: real, q: real, r: real, s: real)
    requires 0.0 < q && 0.0 < s
    ensures q * s != 0.0
    ensures (p * s + r * q) / (q * s) == p / q + r / s
    ensures (p * s - r * q) / (q * s) == p / q - r / s
  {
    assert p == (p / q) * q && r == (r / s) * s;
    var x, y := p / q, r / s;
    assert p * s + r * q == (x + y) * (q * s);
    assert p * s - r * q == (x - y) * (q * s);
  }

  lemma {:induction false} AtMostValues(a: Rat, b: Rat)
    ensures AtMost(a, b) <==> a.Value() <= b.Value()
  {
    var p, q, r, s := a.num as real, a.den as real, b.num as real, b.den as real;
    assert (a.num * b.den) as real == p * s && (b.num * a.den) as real == r * q;
    var x, y := p / q, r / s;
    assert p == x * q && r == y * s;
    assert p * s - r * q == (x - y) * (q * s);
    assert 0.0 < q * s;
    assert AtMost(a, b) <==> (x - y) * (q * s) <= 0.0;
  }

  // NewAllotment.

  function CountRemaining(portions: seq<Portion>): nat {
    if portions == [] then 0 else (if portions[0].Remaining? then 1 else 0) + CountRemaining(portions[1..])
  }

  ghost function SumSpecific(portions: seq<Portion>): real {
    if portions == [] then 0.0
    else (if portions[0].Specific? then portions[0].rat.Value() else 0.0) + SumSpecific(portions[1..])
  }

  ghost function Sum(shares: seq<Rat>): real {
    if shares == [] then 0.0 else shares[0].Value() + Sum(shares[1..])
  }

  lemma {:induction false} PortionsSnoc(portions: seq<Portion>, p: Portion)
    ensures CountRemaining(portions + [p]) == CountRemaining(portions) + if p.Remaining? then 1 else 0
    ensures SumSpecific(portions + [p]) == SumSpecific(portions) + if p.Specific? then p.rat.Value() else 0.0
  {
    if portions == [] {
      assert [p][1..] == [];
    } else {
      assert (portions + [p])[1..] == portions[1..] + [p];
      PortionsSnoc(portions[1..], p);
    }
  }

  lemma {:induction false} CountOfPrefix(portions: seq<Portion>, i: nat)
    requires i <= |portions|
    ensures CountRemaining(portions[..i]) <= CountRemaining(portions)
  {
    if i < |portions| {
      assert portions[..|portions| - 1][..i] == portions[..i];
      CountOfPrefix(portions[..|portions| - 1], i);
      assert portions == portions[..|portions| - 1] + [portions[|portions| - 1]];
      PortionsSnoc(portions[..|portions| - 1], portions[|portions| - 1]);
    } else {
      assert portions[..i] == portions;
    }
  }

  // A zero share for each remaining portion, as in the first loop.
  function FirstPass(p: Portion): Rat {
    if p.Specific? then p.rat else Rat(0, 1)
  }

  lemma {:induction false} FirstPassSum(portions: seq<Portion>, shares: seq<Rat>)
    requires |shares| == |portions| && forall i :: 0 <= i < |shares| ==> shares[i] == FirstPass(portions[i])
    ensures Sum(shares) == SumSpecific(portions)
  {
    if portions != [] {
      FirstPassSum(portions[1..], shares[1..]);
    }
  }

  lemma {:induction false} SumOfUpdate(shares: seq<Rat>, i: nat, r: Rat)
    requires i < |shares|
    ensures Sum(shares[i := r]) == Sum(shares) - shares[i].Value() + r.Value()
  {
    if i > 0 {
      assert shares[i := r][1..] == shares[1..][i - 1 := r];
      SumOfUpdate(shares[1..], i - 1, r);
    }
  }

  // What the remaining portion gets makes the shares sum to one.
  lemma {:induction false} RemainingShare(portions: seq<Portion>, shares: seq<Rat>, i: nat, total: Rat)
    requires |shares| == |portions| && i < |shares| && portions[i].Remaining?
    requires forall k :: 0 <= k < |shares| ==> shares[k] == FirstPass(portions[k])
    requires total.Value() == SumSpecific(portions)
    ensures SubRat(Rat(1, 1), total).Value() == 1.0 - SumSpecific(portions)
    ensures Sum(shares[i := SubRat(Rat(1, 1), total)]) == 1.0
  {
    FirstPassSum(portions, shares);
    RatSums(Rat(1, 1), total);
    SumOfUpdate(shares, i, SubRat(Rat(1, 1), total));
  }

  lemma {:induction false} NextPortion(portions: seq<Portion>, i: nat)
    requires i < |portions|
    ensures CountRemaining(portions[..i + 1]) == CountRemaining(portions[..i]) + if portions[i].Remaining? then 1 else 0
    ensures SumSpecific(portions[..i + 1])
            == SumSpecific(portions[..i]) + if portions[i].Specific? then portions[i].rat.Value() else 0.0
  {
    assert portions[..i + 1] == portions[..i] + [portions[i]];
    PortionsSnoc(portions[..i], portions[i]);
  }

  method NewAllotment(portions: seq<Portion>) returns (r: Result<seq<Rat>, AllotmentError>)
    // Rejects exactly two uses of `remaining`, or a sum above one.
    ensures r == Err(TwoRemaining) <==> 1 < CountRemaining(portions)
    ensures r == Err(SumExceeded) <==> CountRemaining(portions) <= 1 && 1.0 < SumSpecific(portions)
    // The specific shares as given; with a `remaining` portion, all shares sum to one.
    ensures r.Ok? ==>
              && |r.value| == |portions|
              && (forall i :: 0 <= i < |portions| && portions[i].Specific? ==> r.value[i] == portions[i].rat)
              && (CountRemaining(portions) == 1 ==> Sum(r.value) == 1.0)
              && (CountRemaining(portions) == 0 ==> Sum(r.value) == SumSpecific(portions))
    ensures r.Ok? ==> forall i :: 0 <= i < |portions| && portions[i].Remaining? ==>
              r.value[i].Value() == 1.0 - SumSpecific(portions)
  {
    var n := |portions|;
    var total := Rat(0, 1);
    var remainingIdx: Option<nat> := None;
    var allotment := new Rat[n](_ => Rat(0, 1));
    for i := 0 to n
      invariant total.Value() == SumSpecific(portions[..i])
      invariant CountRemaining(portions[..i]) == if remainingIdx.Some? then 1 else 0
      invariant remainingIdx.Some? ==> remainingIdx.value < i && portions[remainingIdx.value].Remaining?
      invariant forall k :: 0 <= k < i && Some(k) != remainingIdx ==> portions[k].Specific?
      invariant forall k :: 0 <= k < i ==> allotment[k] == FirstPass(portions[k])
    {
      NextPortion(portions, i);
      match portions[i]
      case Remaining =>
        if remainingIdx.Some? {
          CountOfPrefix(portions, i + 1);
          return Err(TwoRemaining);
        }
        allotment[i] := Rat(0, 1);
        remainingIdx := Some(i);
      case Specific(rat) =>
        allotment[i] := rat;
        RatSums(total, rat);
        total := AddRat(total, rat);
    }
    assert portions[..n] == portions;
    AtMostValues(total, Rat(1, 1));
    if !AtMost(total, Rat(1, 1)) {
      return Err(SumExceeded);
    }
    FirstPassSum(portions, allotment[..]);
    if remainingIdx.Some? {
      var remaining := SubRat(Rat(1, 1), total);
      RemainingShare(portions, allotment[..], remainingIdx.value, total);
      ghost var filled := allotment[..][remainingIdx.value := remaining];
      allotment[remainingIdx.value] := remaining;
      assert allotment[..] == filled;
    }
    return Ok(allotment[..]);
  }

  // With portions between 0 and 1, so are the shares.
  lemma {:induction false} SharesBetweenZeroAndOne(portions: seq<Portion>, shares: seq<Rat>, i: nat)
    requires |shares| == |portions| && i < |portions|
    requires forall k :: 0 <= k < |portions| && portions[k].Specific? ==>
               shares[k] == portions[k].rat && 0.0 <= portions[k].rat.Value() <= 1.0
    requires forall k :: 0 <= k < |portions| && portions[k].Remaining? ==>
               shares[k].Value() == 1.0 - SumSpecific(portions)
    requires SumSpecific(portions) <= 1.0
    ensures 0.0 <= shares[i].Value() <= 1.0
  {
    SumNotNegative(portions);
  }

  lemma {:induction false} SumNotNegative(portions: seq<Portion>)
    requires forall p :: p in portions && p.Specific? ==> 0.0 <= p.rat.Value()
    ensures 0.0 <= SumSpecific(portions)
  {
    if portions != [] {
      assert portions[0] in portions;
      SumNotNegative(portions[1..]);
    }
  }

  // Allocate.

  // amount * num / den; Go's Div is Euclidean, as Dafny's.
  function Floored(share: Rat, amount: int): int {
    amount * share.num / share.den
  }

  ghost function Exact(share: Rat, amount: int): real {
    amount as real * share.Value()
  }

  function SumFloored(shares: seq<Rat>, amount: int): int {
    if shares == [] then 0 else Floored(shares[0], amount) + SumFloored(shares[1..], amount)
  }

  function SumInts(parts: seq<int>): int {
    if parts == [] then 0 else parts[0] + SumInts(parts[1..])
  }

  // How many of the first parts receive one more unit.
  function Bumps(shares: seq<Rat>, amount: int): nat {
    var missing := amount - SumFloored(shares, amount);
    if missing < 0 then 0 else if |shares| < missing then |shares| else missing
  }

  function Allocation(shares: seq<Rat>, amount: int): (parts: seq<int>)
    ensures |parts| == |shares|
  {
    seq(|shares|, i requires 0 <= i < |shares| =>
      Floored(shares[i], amount) + if i < Bumps(shares, amount) then 1 else 0)
  }

  lemma {:induction false} SumFlooredSnoc(shares: seq<Rat>, share: Rat, amount: int)
    ensures SumFloored(shares + [share], amount) == SumFloored(shares, amount) + Floored(share, amount)
  {
    if shares == [] {
      assert [share][1..] == [];
    } else {
      assert (shares + [share])[1..] == shares[1..] + [share];
      SumFlooredSnoc(shares[1..], share, amount);
    }
  }

  method Allocate(a: seq<Rat>, amount: int) returns (parts: array<int>)
    ensures fresh(parts) && parts[..] == Allocation(a, amount)
  {
    parts := new int[|a|](_ => 0);
    var totalAllocated := 0;
    for i := 0 to |a|
      invariant totalAllocated == SumFloored(a[..i], amount)
      invariant forall k :: 0 <= k < i ==> parts[k] == Floored(a[k], amount)
    {
      assert a[..i + 1] == a[..i] + [a[i]];
      SumFlooredSnoc(a[..i], a[i], amount);
      parts[i] := amount * a[i].num / a[i].den;
      totalAllocated := totalAllocated + parts[i];
    }
    assert a[..|a|] == a;
    for i := 0 to |a|
      invariant totalAllocated == SumFloored(a, amount) + if i < Bumps(a, amount) then i else Bumps(a, amount)
      invariant forall k :: 0 <= k < |a| ==>
                  parts[k] == Floored(a[k], amount) + if k < i && k < Bumps(a, amount) then 1 else 0
    {
      if totalAllocated < amount {
        parts[i] := parts[i] + 1;
        totalAllocated := totalAllocated + 1;
      }
    }
  }

  // A part's floor is the floor of its exact share, however the fraction is written.
  lemma {:induction false} FlooredIsFloor(share: Rat, amount: int)
    ensures Floored(share, amount) == Exact(share, amount).Floor
  {
    var n, d := amount * share.num, share.den;
    assert n as real == amount as real * share.num as real;
    assert Exact(share, amount) == n as real / d as real;
    QuotientIsFloor(n, d);
  }

  lemma {:induction false} QuotientIsFloor(n: int, d: Positive)
    ensures n / d == (n as real / d as real).Floor
  {
    var q, r := n / d, n % d;
    assert n == d * q + r;
    assert n as real == d as real * q as real + r as real;
    FractionBetween(n as real, d as real, q as real, r as real);
  }

  lemma {:induction false} FractionBetween(n: real, d: real, q: real, r: real)
    requires 0.0 < d && n == d * q + r && 0.0 <= r < d
    ensures q <= n / d < q + 1.0
  {
    var x := n / d;
    assert x * d == n;
    FractionalPart(x - q, d, r);
  }

  lemma {:induction false} FractionalPart(y: real, d: real, r: real)
    requires y * d == r && 0.0 <= r < d
    ensures 0.0 <= y < 1.0
  {
    Signs(y, d);
  }

  lemma {:induction false} Scaled(x: real, y: real, size: real)
    requires x < y && 0.0 < size
    ensures x * size < y * size
  {
    assert 0.0 < (y - x) * size;
  }

  lemma {:induction false} Signs(y: real, d: real)
    requires 0.0 < d
    ensures y < 0.0 ==> y * d < 0.0
    ensures 1.0 <= y ==> d <= y * d
  {
    if y < 0.0 {
      Scaled(y, 0.0, d);
    } else if 1.0 < y {
      Scaled(1.0, y, d);
    }
  }

  ghost function SumExact(shares: seq<Rat>, amount: int): real {
    if shares == [] then 0.0 else Exact(shares[0], amount) + SumExact(shares[1..], amount)
  }

  lemma {:induction false} SumExactIsProduct(shares: seq<Rat>, amount: int)
    ensures SumExact(shares, amount) == amount as real * Sum(shares)
  {
    if shares != [] {
      SumExactIsProduct(shares[1..], amount);
    }
  }

  lemma {:induction false} FlooringLosesLessThanOneEach(shares: seq<Rat>, amount: int)
    ensures SumFloored(shares, amount) as real <= SumExact(shares, amount)
    ensures shares != [] ==> SumExact(shares, amount) < SumFloored(shares, amount) as real + |shares| as real
  {
    if shares != [] {
      FlooredIsFloor(shares[0], amount);
      FlooringLosesLessThanOneEach(shares[1..], amount);
    }
  }

  lemma {:induction false} SumOfBumped(shares: seq<Rat>, amount: int, bumps: nat, parts: seq<int>)
    requires |parts| == |shares| && bumps <= |shares|
    requires forall i :: 0 <= i < |parts| ==> parts[i] == Floored(shares[i], amount) + if i < bumps then 1 else 0
    ensures SumInts(parts) == SumFloored(shares, amount) + bumps
  {
    if shares != [] {
      SumOfBumped(shares[1..], amount, if bumps == 0 then 0 else bumps - 1, parts[1..]);
    }
  }

  // For one amount, the parts add up exactly when the floors fall short of it by no more
  // than the number of parts.
  lemma {:induction false} AllocationConservesIff(shares: seq<Rat>, amount: int)
    ensures SumInts(Allocation(shares, amount)) == amount
            <==> 0 <= amount - SumFloored(shares, amount) <= |shares|
  {
    SumOfBumped(shares, amount, Bumps(shares, amount), Allocation(shares, amount));
  }

  // Main result: for shares that sum to one, and any amount, not a unit is lost; each
  // part is the floor of its exact share, or one more; and the parts that get one more
  // are a prefix, shorter than the whole.
  lemma {:induction false} AllocationConserves(shares: seq<Rat>, amount: int)
    requires Sum(shares) == 1.0
    ensures SumInts(Allocation(shares, amount)) == amount
    ensures Bumps(shares, amount) < |shares|
    ensures forall i :: 0 <= i < |shares| ==>
              Allocation(shares, amount)[i]
              == Exact(shares[i], amount).Floor + if i < Bumps(shares, amount) then 1 else 0
  {
    SumExactIsProduct(shares, amount);
    FlooringLosesLessThanOneEach(shares, amount);
    AllocationConservesIff(shares, amount);
    forall i | 0 <= i < |shares|
      ensures Floored(shares[i], amount) == Exact(shares[i], amount).Floor
    {
      FlooredIsFloor(shares[i], amount);
    }
  }

  function Gap(amount: int, miss: real): real {
    amount as real * miss
  }

  lemma {:induction false} Exceed(n: nat, size: real) returns (k: nat)
    requires 0.0 < size
    ensures n as real < Gap(k, size)
  {
    var x := n as real / size;
    assert x * size == n as real;
    k := x.Floor + 1;
    Scaled(x, k as real, size);
  }

  lemma {:induction false} GapNegated(amount: int, miss: real)
    ensures Gap(amount, -miss) == -Gap(amount, miss)
  {
  }

  // An amount whose exact parts miss it by more than there are parts.
  lemma {:induction false} Amplify(miss: real, n: nat) returns (amount: nat)
    requires miss != 0.0
    ensures n as real < Gap(amount, miss) || Gap(amount, miss) < -(n as real)
  {
    if 0.0 < miss {
      amount := Exceed(n, miss);
    } else {
      amount := Exceed(n, -miss);
      GapNegated(amount, miss);
    }
  }

  lemma {:induction false} Distribute(a: real, s: real)
    ensures a - a * s == a * (1.0 - s)
  {
  }

  lemma {:induction false} ExactMiss(shares: seq<Rat>, amount: int)
    ensures amount as real - SumExact(shares, amount) == Gap(amount, 1.0 - Sum(shares))
  {
    SumExactIsProduct(shares, amount);
    Distribute(amount as real, Sum(shares));
  }

  lemma {:induction false} GapNotMet(amount: int, n: nat, exact: real, floored: int, gap: real)
    requires amount as real - exact == gap && (n as real < gap || gap < -(n as real))
    requires floored as real <= exact <= floored as real + n as real
    ensures !(0 <= amount - floored <= n)
  {
  }

  lemma {:induction false} SomeAmountMissed(shares: seq<Rat>) returns (amount: int)
    requires Sum(shares) != 1.0
    ensures SumInts(Allocation(shares, amount)) != amount
  {
    amount := Amplify(1.0 - Sum(shares), |shares|);
    ExactMiss(shares, amount);
    FlooringLosesLessThanOneEach(shares, amount);
    GapNotMet(amount, |shares|, SumExact(shares, amount), SumFloored(shares, amount), Gap(amount, 1.0 - Sum(shares)));
    AllocationConservesIff(shares, amount);
  }

  // Main result: the parts add up to every amount if and only if the shares sum to one.
  lemma {:induction false} ConservesIffSumIsOne(shares: seq<Rat>)
    ensures (forall amount: int :: SumInts(Allocation(shares, amount)) == amount) <==> Sum(shares) == 1.0
  {
    if Sum(shares) == 1.0 {
      forall amount: int
        ensures SumInts(Allocation(shares, amount)) == amount
      {
        AllocationConserves(shares, amount);
      }
    } else {
      var missed := SomeAmountMissed(shares);
    }
  }

  // Half of ten, and nothing else: the parts add up to six.
  lemma {:induction false} HalfOfTen()
    ensures Sum([Rat(1, 2)]) == 0.5 && SumInts(Allocation([Rat(1, 2)], 10)) == 6
  {
    var shares := [Rat(1, 2)];
    assert shares[1..] == [];
    assert SumFloored(shares, 10) == 5;
    assert Allocation(shares, 10) == [6];
    assert [6][1..] == [];
  }
}
