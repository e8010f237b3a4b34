// Fundings: ordered lists of amounts drawn from accounts.
module Fundings {
  import opened Wrappers
  import opened Allotments

  datatype FundingPart = FundingPart(amount: int, account: string)

  datatype FundingError = InsufficientFund(accounts: seq<string>) | DifferentAssets

  function Total(parts: seq<FundingPart>): int {
    if parts == [] then 0 else parts[0].amount + Total(parts[1..])
  }

  predicate NonNegative(parts: seq<FundingPart>) {
    forall p :: p in parts ==> 0 <= p.amount
  }

  // What is drawn from the front, what stays, and how much is still wanted.
  function Draw(parts: seq<FundingPart>, wanted: int): (seq<FundingPart>, seq<FundingPart>, int) {
    if wanted <= 0 || parts == [] then ([], parts, wanted)
    else if wanted < parts[0].amount then
      ([parts[0].(amount := wanted)], [parts[0].(amount := parts[0].amount - wanted)] + parts[1..], 0)
    else
      var (result, remainder, left) := Draw(parts[1..], wanted - parts[0].amount);
      ([parts[0]] + result, remainder, left)
  }

  type Taken = Result<(seq<FundingPart>, seq<FundingPart>), FundingError>

  function Accounts(parts: seq<FundingPart>): seq<string> {
    seq(|parts|, i requires 0 <= i < |parts| => parts[i].account)
  }

  function TakeParts(parts: seq<FundingPart>, amount: int): Taken {
    var (result, remainder, left) := Draw(parts, amount);
    if left != 0 then Err(InsufficientFund(Accounts(parts)))
    else Ok(((if amount == 0 && parts != [] then [FundingPart(amount, parts[0].account)] else []) + result, remainder))
  }

  function TakeMaxParts(parts: seq<FundingPart>, amount: int): (seq<FundingPart>, seq<FundingPart>) {
    var (result, remainder, _) := Draw(parts, amount);
    (result, remainder)
  }

  predicate MergesWith(a: seq<FundingPart>, b: seq<FundingPart>) {
    a != [] && b != [] && a[|a| - 1].account == b[0].account
  }

  function MergedPart(a: seq<FundingPart>, b: seq<FundingPart>): FundingPart
    requires MergesWith(a, b)
  {
    a[|a| - 1].(amount := a[|a| - 1].amount + b[0].amount)
  }

  // The first list, its last part grown when the accounts meet.
  function Grown(a: seq<FundingPart>, b: seq<FundingPart>): seq<FundingPart> {
    if MergesWith(a, b) then a[|a| - 1 := MergedPart(a, b)] else a
  }

  // The parts of the second list that are appended.
  function Tail(a: seq<FundingPart>, b: seq<FundingPart>): seq<FundingPart> {
    if MergesWith(a, b) then b[1..] else b
  }

  function ConcatParts(a: seq<FundingPart>, b: seq<FundingPart>): seq<FundingPart> {
    Grown(a, b) + Tail(a, b)
  }

  // What is appended when both lists start the same array, where the grown part may be
  // one of those to append.
  function SharedTail(a: seq<FundingPart>, b: seq<FundingPart>): seq<FundingPart> {
    if !MergesWith(a, b) then b
    else if |a| <= |b| then b[|a| - 1 := MergedPart(a, b)][1..]
    else b[1..]
  }

  // The parts are a slice: the first `len` elements of an array that may be longer.
  class Funding {
    const asset: string
    const parts: array<FundingPart>
    const len: nat

    constructor (asset: string, parts: seq<FundingPart>, spare: nat)
      ensures this.asset == asset && fresh(this.parts) && Valid() && Contents() == parts
    {
      this.asset := asset;
      this.len := |parts|;
      this.parts := new FundingPart[|parts| + spare](i requires 0 <= i =>
        if i < |parts| then parts[i] else FundingPart(0, ""));
    }

    constructor Slice(asset: string, parts: array<FundingPart>, len: nat)
      requires len <= parts.Length
      ensures this.asset == asset && this.parts == parts && this.len == len && Valid()
    {
      this.asset, this.parts, this.len := asset, parts, len;
    }

    ghost predicate Valid() {
      len <= parts.Length
    }

    function Contents(): (s: seq<FundingPart>)
      requires Valid()
      reads parts
      ensures |s| == len
    {
      parts[..len]
    }

    // The two loops that Take and TakeMax share.
    method Withdraw(amount: int) returns (result: seq<FundingPart>, remainder: seq<FundingPart>, left: int)
      requires Valid()
      ensures (result, remainder, left) == Draw(Contents(), amount)
    {
      result, remainder, left := [], [], amount;
      ghost var all := Contents();
      var i := 0;
      AheadOfNothing(Draw(all, amount));
      while 0 < left && i < len
        invariant 0 <= i <= len
        invariant remainder != [] ==> left == 0
        invariant Draw(all, amount) == Ahead(result, remainder, Draw(all[i..], left))
        decreases len - i
      {
        DrawStep(all[i..], left, result);
        assert all[i..][1..] == all[i + 1..];
        var amtToWithdraw := parts[i].amount;
        if left < amtToWithdraw {
          var rem := amtToWithdraw - left;
          amtToWithdraw := left;
          assert remainder + [FundingPart(rem, parts[i].account)] == [parts[i].(amount := rem)];
          remainder := remainder + [FundingPart(rem, parts[i].account)];
        }
        left := left - amtToWithdraw;
        result := result + [FundingPart(amtToWithdraw, parts[i].account)];
        i := i + 1;
      }
      AheadAtTheEnd(result, remainder, all[i..], left);
      remainder := Keep(i, remainder);
    }

    // The parts nothing was wanted from.
    method Keep(from: nat, drawn: seq<FundingPart>) returns (remainder: seq<FundingPart>)
      requires Valid() && from <= len
      ensures remainder == drawn + Contents()[from..]
    {
      remainder := drawn;
      for i := from to len
        invariant remainder == drawn + Contents()[from..i]
      {
        remainder := remainder + [FundingPart(parts[i].amount, parts[i].account)];
      }
      assert Contents()[from..len] == Contents()[from..];
    }

    method Take(amount: int) returns (taken: Taken)
      requires Valid()
      ensures taken == TakeParts(Contents(), amount)
    {
      var first: seq<FundingPart> := [];
      if amount == 0 && 0 < len {
        first := [FundingPart(amount, parts[0].account)];
      }
      var result, remainder, left := Withdraw(amount);
      if left != 0 {
        return Err(InsufficientFund(Accounts(Contents())));
      }
      return Ok((first + result, remainder));
    }

    method TakeMax(amount: int) returns (result: seq<FundingPart>, remainder: seq<FundingPart>)
      requires Valid()
      ensures (result, remainder) == TakeMaxParts(Contents(), amount)
    {
      var left;
      result, remainder, left := Withdraw(amount);
    }

    // Works on the receiver's array: its last part grows there when the accounts meet, and
    // the other parts are appended there if they fit. The result then shares the array.
    method Concat(other: Funding) returns (r: Result<Funding, FundingError>)
      requires Valid() && other.Valid()
      modifies parts
      ensures r.Err? <==> asset != other.asset
      ensures r.Err? ==> parts[..] == old(parts[..])
      ensures r.Ok? ==> r.value.asset == asset && r.value.Valid()
      ensures r.Ok? && other.parts != parts ==>
                r.value.Contents() == ConcatParts(old(Contents()), old(other.Contents()))
      ensures r.Ok? && other.parts == parts ==>
                var a, b := old(Contents()), old(other.Contents());
                r.value.Contents() == Grown(a, b) + SharedTail(a, b)
      ensures r.Ok? ==> Contents() == Grown(old(Contents()), old(other.Contents()))
      ensures r.Ok? && r.value.len <= parts.Length ==>
                r.value.parts == parts && parts[r.value.len..] == old(parts[..])[r.value.len..]
      ensures r.Ok? && parts.Length < r.value.len ==>
                fresh(r.value.parts) && parts[len..] == old(parts[len..])
    {
      if asset != other.asset {
        return Err(DifferentAssets);
      }
      ghost var a, b := Contents(), other.Contents();
      var tail;
      if 0 < len && 0 < other.len && parts[len - 1].account == other.parts[0].account {
        parts[len - 1] := parts[len - 1].(amount := parts[len - 1].amount + other.parts[0].amount);
        tail := other.parts[1..other.len];
        assert Contents() == Grown(a, b);
        assert other.Contents()[1..] == tail;
        if other.parts == parts && len <= other.len {
          assert other.Contents() == b[len - 1 := MergedPart(a, b)];
        } else {
          assert other.Contents() == b;
        }
      } else {
        tail := other.parts[..other.len];
      }
      ghost var grown := parts[..];
      assert grown[len..] == old(parts[len..]);
      var res := Append(tail);
      return Ok(res);
    }

    // append(f.Parts, tail...), in place if the capacity allows.
    method Append(tail: seq<FundingPart>) returns (res: Funding)
      requires Valid()
      modifies parts
      ensures res.asset == asset && res.Valid() && res.Contents() == old(Contents()) + tail
      ensures Contents() == old(Contents())
      ensures if len + |tail| <= parts.Length then
                res.parts == parts && parts[len + |tail|..] == old(parts[len + |tail|..])
              else fresh(res.parts) && parts[..] == old(parts[..])
    {
      if len + |tail| <= parts.Length {
        forall k | 0 <= k < |tail| {
          parts[len + k] := tail[k];
        }
        res := new Funding.Slice(asset, parts, len + |tail|);
      } else {
        var spare: nat := *;
        res := new Funding(asset, parts[..len] + tail, spare);
      }
    }

    method Sum() returns (total: int)
      requires Valid()
      ensures total == Total(Contents())
    {
      total := 0;
      for i := 0 to len
        invariant total == Total(Contents()[..i])
      {
        assert Contents()[..i + 1] == Contents()[..i] + [parts[i]];
        TotalOfConcat(Contents()[..i], [parts[i]]);
        assert [parts[i]][1..] == [];
        total := total + parts[i].amount;
      }
      assert Contents()[..len] == Contents();
    }
  }

  type Drawn = (seq<FundingPart>, seq<FundingPart>, int)

  // What has been drawn and kept already, ahead of a draw.
  function Ahead(result: seq<FundingPart>, remainder: seq<FundingPart>, d: Drawn): Drawn {
    (result + d.0, remainder + d.1, d.2)
  }

  lemma {:induction false} AheadOfNothing(d: Drawn)
    ensures Ahead([], [], d) == d
  {
    assert [] + d.0 == d.0 && [] + d.1 == d.1;
  }

  lemma {:induction false} AheadAtTheEnd(result: seq<FundingPart>, remainder: seq<FundingPart>,
                                         rest: seq<FundingPart>, left: int)
    requires left <= 0 || rest == []
    ensures Ahead(result, remainder, Draw(rest, left)) == (result, remainder + rest, left)
  {
    assert result + [] == result;
  }

  lemma {:induction false} DrawStep(parts: seq<FundingPart>, left: int, result: seq<FundingPart>)
    requires 0 < left && parts != []
    ensures Ahead(result, [], Draw(parts, left))
            == if left < parts[0].amount then
                 Ahead(result + [parts[0].(amount := left)], [parts[0].(amount := parts[0].amount - left)],
                       Draw(parts[1..], 0))
               else Ahead(result + [parts[0]], [], Draw(parts[1..], left - parts[0].amount))
  {
    if left < parts[0].amount {
      var rem := [parts[0].(amount := parts[0].amount - left)];
      assert result + [parts[0].(amount := left)] + [] == result + [parts[0].(amount := left)];
      assert [] + (rem + parts[1..]) == rem + parts[1..];
    } else {
      var d := Draw(parts[1..], left - parts[0].amount);
      assert result + ([parts[0]] + d.0) == result + [parts[0]] + d.0;
    }
  }

  lemma {:induction false} TotalOfConcat(a: seq<FundingPart>, b: seq<FundingPart>)
    ensures Total(a + b) == Total(a) + Total(b)
  {
    if a == [] {
      assert a + b == b;
    } else {
      assert (a + b)[1..] == a[1..] + b;
      TotalOfConcat(a[1..], b);
    }
  }

  // Totals.

  lemma {:induction false} DrawWholePart(parts: seq<FundingPart>, wanted: int)
    requires parts != [] && 0 < wanted && parts[0].amount <= wanted
    ensures var rest := Draw(parts[1..], wanted - parts[0].amount);
            Draw(parts, wanted).0 == [parts[0]] + rest.0 && Draw(parts, wanted).1 == rest.1
    ensures Draw(parts, wanted).2 == Draw(parts[1..], wanted - parts[0].amount).2
    ensures wanted == parts[0].amount || parts[1..] == [] ==>
              Draw(parts, wanted).0 == [parts[0]] && Draw(parts, wanted).1 == parts[1..]
  {
    assert [parts[0]] + [] == [parts[0]];
  }

  lemma {:induction false} TotalOfMore(p: FundingPart, rest: seq<FundingPart>)
    ensures Total([p] + rest) == p.amount + Total(rest)
    ensures NonNegative([p] + rest) <==> 0 <= p.amount && NonNegative(rest)
  {
    assert ([p] + rest)[1..] == rest;
    assert p in [p] + rest;
    assert forall q :: q in [p] + rest <==> q == p || q in rest;
  }

  // What a draw gives and keeps, and what it leaves wanting.
  predicate DrawsExactly(parts: seq<FundingPart>, wanted: int, d: Drawn) {
    && Total(d.0) + Total(d.1) == Total(parts)
    && Total(d.0) + d.2 == wanted
    && d.2 == (if wanted <= Total(parts) then 0 else wanted - Total(parts))
    && NonNegative(d.0) && NonNegative(d.1)
  }

  lemma {:induction false} DrawSplits(parts: seq<FundingPart>, wanted: int)
    requires parts != [] && NonNegative(parts) && 0 < wanted < parts[0].amount
    ensures DrawsExactly(parts, wanted, Draw(parts, wanted))
  {
    var taken, kept, rest := parts[0].(amount := wanted), parts[0].(amount := parts[0].amount - wanted), parts[1..];
    assert [parts[0]] + rest == parts && [taken] + [] == [taken];
    TotalOfMore(parts[0], rest);
    TotalNonNegative(rest);
    TotalOfMore(taken, []);
    TotalOfMore(kept, rest);
  }

  lemma {:induction false} DrawTotals(parts: seq<FundingPart>, wanted: int)
    requires NonNegative(parts) && 0 <= wanted
    ensures DrawsExactly(parts, wanted, Draw(parts, wanted)) && 0 <= Total(parts)
  {
    TotalNonNegative(parts);
    if parts != [] && 0 < wanted {
      var p, rest := parts[0], parts[1..];
      assert [p] + rest == parts;
      TotalOfMore(p, rest);
      if wanted < p.amount {
        DrawSplits(parts, wanted);
      } else {
        DrawTotals(rest, wanted - p.amount);
        DrawWholePart(parts, wanted);
        TotalOfMore(p, Draw(rest, wanted - p.amount).0);
      }
    }
  }

  lemma {:induction false} TotalNonNegative(parts: seq<FundingPart>)
    requires NonNegative(parts)
    ensures 0 <= Total(parts)
  {
    if parts != [] {
      assert parts[0] in parts;
      assert forall p :: p in parts[1..] ==> p in parts;
      TotalNonNegative(parts[1..]);
    }
  }

  // Take succeeds exactly for an amount between zero and the total, takes that amount,
  // and loses nothing.
  lemma {:induction false} TakeSucceedsIff(parts: seq<FundingPart>, amount: int)
    requires NonNegative(parts)
    ensures TakeParts(parts, amount).Ok? <==> 0 <= amount <= Total(parts)
    ensures TakeParts(parts, amount).Ok? ==>
              var (result, remainder) := TakeParts(parts, amount).value;
              && Total(result) == amount
              && Total(remainder) == Total(parts) - amount
              && NonNegative(result) && NonNegative(remainder)
  {
    if 0 <= amount {
      DrawTotals(parts, amount);
      var d := Draw(parts, amount);
      if amount == 0 && parts != [] {
        assert [FundingPart(0, parts[0].account)] + d.0 == [FundingPart(0, parts[0].account)];
      } else {
        assert [] + d.0 == d.0;
      }
    }
  }

  // TakeMax takes what it can, and agrees with Take where both apply.
  lemma {:induction false} TakeMaxTakesTheMost(parts: seq<FundingPart>, amount: int)
    requires NonNegative(parts)
    ensures var (result, remainder) := TakeMaxParts(parts, amount);
            && Total(result) == (if amount <= 0 then 0 else if amount <= Total(parts) then amount else Total(parts))
            && Total(result) + Total(remainder) == Total(parts)
    ensures 0 < amount <= Total(parts) ==> TakeParts(parts, amount) == Ok(TakeMaxParts(parts, amount))
  {
    TotalNonNegative(parts);
    if 0 <= amount {
      DrawTotals(parts, amount);
      var d := Draw(parts, amount);
      assert [] + d.0 == d.0;
    }
  }

  predicate NoNeighbours(parts: seq<FundingPart>) {
    forall i :: 0 < i < |parts| ==> parts[i - 1].account != parts[i].account
  }

  // Taking and concatenating again restores the parts.

  lemma {:induction false} GrownBehind(p: FundingPart, a: seq<FundingPart>, b: seq<FundingPart>)
    requires a != []
    ensures Grown([p] + a, b) == [p] + Grown(a, b) && Tail([p] + a, b) == Tail(a, b)
  {
    assert ([p] + a)[|a|] == a[|a| - 1];
    assert MergesWith([p] + a, b) <==> MergesWith(a, b);
    if MergesWith(a, b) {
      assert ([p] + a)[|a| := MergedPart(a, b)] == [p] + a[|a| - 1 := MergedPart(a, b)];
    }
  }

  lemma {:induction false} ConcatBehind(p: FundingPart, a: seq<FundingPart>, b: seq<FundingPart>)
    requires a != []
    ensures ConcatParts([p] + a, b) == [p] + ConcatParts(a, b)
  {
    GrownBehind(p, a, b);
    var grown, tail := Grown(a, b), Tail(a, b);
    assert [p] + grown + tail == [p] + (grown + tail);
  }

  lemma {:induction false} ConcatHead(parts: seq<FundingPart>)
    requires parts != [] && NoNeighbours(parts)
    ensures ConcatParts([parts[0]], parts[1..]) == parts
  {
    assert parts[1..] != [] ==> parts[1..][0] == parts[1];
    assert [parts[0]] + parts[1..] == parts;
  }

  lemma {:induction false} ConcatSplit(parts: seq<FundingPart>, wanted: int)
    requires parts != []
    ensures ConcatParts([parts[0].(amount := wanted)], [parts[0].(amount := parts[0].amount - wanted)] + parts[1..])
            == parts
  {
    var a, b := [parts[0].(amount := wanted)], [parts[0].(amount := parts[0].amount - wanted)] + parts[1..];
    assert a[0 := parts[0]] == [parts[0]] && b[1..] == parts[1..];
    assert [parts[0]] + parts[1..] == parts;
  }

  lemma {:induction false} RestKeeps(parts: seq<FundingPart>)
    requires parts != [] && NonNegative(parts) && NoNeighbours(parts)
    ensures NonNegative(parts[1..]) && NoNeighbours(parts[1..]) && [parts[0]] + parts[1..] == parts
  {
  }

  lemma {:induction false} DrawThenConcat(parts: seq<FundingPart>, wanted: int)
    requires NonNegative(parts) && NoNeighbours(parts) && 0 < wanted
    ensures ConcatParts(Draw(parts, wanted).0, Draw(parts, wanted).1) == parts
    ensures parts != [] ==> Draw(parts, wanted).0 != []
  {
    if parts == [] {
      assert ConcatParts([], []) == [];
    } else if wanted < parts[0].amount {
      ConcatSplit(parts, wanted);
    } else {
      DrawWholePart(parts, wanted);
      if parts[0].amount == wanted || parts[1..] == [] {
        ConcatHead(parts);
      } else {
        RestKeeps(parts);
        var left := wanted - parts[0].amount;
        DrawThenConcat(parts[1..], left);
        ConcatBehind(parts[0], Draw(parts[1..], left).0, Draw(parts[1..], left).1);
      }
    }
  }

  lemma {:induction false} TakeThenConcat(parts: seq<FundingPart>, amount: int)
    requires NonNegative(parts) && NoNeighbours(parts) && TakeParts(parts, amount).Ok?
    ensures var (result, remainder) := TakeParts(parts, amount).value;
            ConcatParts(result, remainder) == parts
  {
    TakeSucceedsIff(parts, amount);
    if amount == 0 {
      if parts != [] {
        assert TakeParts(parts, 0).value.0 == [FundingPart(0, parts[0].account)];
        assert ConcatParts([FundingPart(0, parts[0].account)], parts) == parts;
      } else {
        assert ConcatParts([], parts) == parts;
      }
    } else {
      DrawThenConcat(parts, amount);
      var d := Draw(parts, amount);
      assert [] + d.0 == d.0;
    }
  }

  // When both fundings start the same array, the grown part may be appended too: the
  // result is that of separate arrays unless this happens and changes it.
  lemma {:induction false} SharedConcatIff(a: seq<FundingPart>, b: seq<FundingPart>)
    requires a <= b || b <= a
    ensures Grown(a, b) + SharedTail(a, b) == ConcatParts(a, b)
            <==> !(MergesWith(a, b) && 2 <= |a| <= |b| && b[0].amount != 0)
  {
    var n := |a|;
    if MergesWith(a, b) && 2 <= n <= |b| {
      assert a[n - 1] == b[n - 1];
      assert (Grown(a, b) + SharedTail(a, b))[n + n - 2] == MergedPart(a, b);
      assert ConcatParts(a, b)[n + n - 2] == b[n - 1];
      if b[0].amount == 0 {
        assert MergedPart(a, b) == b[n - 1];
        assert b[n - 1 := MergedPart(a, b)] == b;
      }
    } else if MergesWith(a, b) && n <= |b| {
      assert b[0 := MergedPart(a, b)][1..] == b[1..];
    }
  }

  // A funding of two parts of one account, joined with itself.
  lemma {:induction false} SharedConcatDiffers()
    ensures var a := [FundingPart(1, "x"), FundingPart(2, "x")];
            && Grown(a, a) + SharedTail(a, a) == [FundingPart(1, "x"), FundingPart(3, "x"), FundingPart(3, "x")]
            && ConcatParts(a, a) == [FundingPart(1, "x"), FundingPart(3, "x"), FundingPart(2, "x")]
  {
  }

  // Splitting a funding: each amount is taken from what the previous one left.

  type Parted = Result<(seq<seq<FundingPart>>, seq<FundingPart>), FundingError>

  function TakeAll(parts: seq<FundingPart>, amounts: seq<int>): Parted
    decreases |amounts|
  {
    if amounts == [] then Ok(([], parts))
    else
      match TakeParts(parts, amounts[0])
      case Err(e) => Err(e)
      case Ok((result, remainder)) =>
        match TakeAll(remainder, amounts[1..])
        case Err(e) => Err(e)
        case Ok((results, last)) => Ok(([result] + results, last))
  }

  lemma {:induction false} TakeAllSucceeds(parts: seq<FundingPart>, amounts: seq<int>)
    requires NonNegative(parts) && forall a :: a in amounts ==> 0 <= a
    requires SumInts(amounts) <= Total(parts)
    ensures TakeAll(parts, amounts).Ok?
    ensures var (results, last) := TakeAll(parts, amounts).value;
            && |results| == |amounts|
            && (forall i :: 0 <= i < |amounts| ==> Total(results[i]) == amounts[i])
            && Total(last) == Total(parts) - SumInts(amounts)
    decreases |amounts|
  {
    if amounts != [] {
      assert amounts[0] in amounts && forall a :: a in amounts[1..] ==> a in amounts;
      SumIntsNonNegative(amounts[1..]);
      TakeSucceedsIff(parts, amounts[0]);
      TakeAllSucceeds(TakeParts(parts, amounts[0]).value.1, amounts[1..]);
    }
  }

  lemma {:induction false} SumIntsNonNegative(amounts: seq<int>)
    requires forall a :: a in amounts ==> 0 <= a
    ensures 0 <= SumInts(amounts)
  {
    if amounts != [] {
      assert amounts[0] in amounts && forall a :: a in amounts[1..] ==> a in amounts;
      SumIntsNonNegative(amounts[1..]);
    }
  }

  // Main result: a funding split by shares that sum to one is split completely. No
  // take fails, each gets its allotted amount, and nothing remains.
  lemma {:induction false} SplitByShares(parts: seq<FundingPart>, shares: seq<Rat>)
    requires NonNegative(parts) && Sum(shares) == 1.0
    requires forall r :: r in shares ==> 0 <= r.num
    ensures TakeAll(parts, Allocation(shares, Total(parts))).Ok?
    ensures var amounts := Allocation(shares, Total(parts));
            var (results, last) := TakeAll(parts, amounts).value;
            && |results| == |shares|
            && (forall i :: 0 <= i < |shares| ==> Total(results[i]) == amounts[i])
            && Total(last) == 0
  {
    var total, amounts := Total(parts), Allocation(shares, Total(parts));
    TotalNonNegative(parts);
    AllocationConserves(shares, total);
    forall a | a in amounts
      ensures 0 <= a
    {
      var i :| 0 <= i < |amounts| && amounts[i] == a;
      assert shares[i] in shares;
      FlooredNonNegative(shares[i], total);
    }
    TakeAllSucceeds(parts, amounts);
  }

  lemma {:induction false} FlooredNonNegative(share: Rat, amount: int)
    requires 0 <= share.num && 0 <= amount
    ensures 0 <= Floored(share, amount)
  {
    assert 0 <= amount * share.num;
  }

  lemma {:induction false} NumNotNegative(r: Rat)
    requires 0.0 <= r.Value()
    ensures 0 <= r.num
  {
    assert r.num as real == r.Value() * r.den as real;
  }

  // So it is for the shares that NewAllotment makes of portions between zero and one,
  // when they use `remaining` or add up to one.
  lemma {:induction false} SplitByAllotment(parts: seq<FundingPart>, portions: seq<Portion>, shares: seq<Rat>)
    requires NonNegative(parts) && |shares| == |portions|
    requires forall k :: 0 <= k < |portions| && portions[k].Specific? ==>
               shares[k] == portions[k].rat && 0.0 <= portions[k].rat.Value() <= 1.0
    requires forall k :: 0 <= k < |portions| && portions[k].Remaining? ==>
               shares[k].Value() == 1.0 - SumSpecific(portions)
    requires SumSpecific(portions) <= 1.0 && Allotments.Sum(shares) == 1.0
    ensures TakeAll(parts, Allocation(shares, Total(parts))).Ok?
    ensures var amounts := Allocation(shares, Total(parts));
            var (results, last) := TakeAll(parts, amounts).value;
            && |results| == |shares|
            && (forall i :: 0 <= i < |shares| ==> Total(results[i]) == amounts[i])
            && Total(last) == 0
  {
    forall i | 0 <= i < |shares|
      ensures 0 <= shares[i].num
    {
      SharesBetweenZeroAndOne(portions, shares, i);
      NumNotNegative(shares[i]);
    }
    SplitByShares(parts, shares);
  }
}
