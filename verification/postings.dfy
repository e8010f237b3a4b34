// Postings, the volumes they move, and their reversal.
module Postings {

  datatype Posting = Posting(source: string, destination: string, amount: int, asset: string)

  // An account and an asset.
  type Key = (string, string)

  function Source(p: Posting): Key {
    (p.source, p.asset)
  }

  function Destination(p: Posting): Key {
    (p.destination, p.asset)
  }

  datatype Volumes = Volumes(input: int, output: int)

  type VolumeMap = map<Key, Volumes>

  function Get(m: VolumeMap, k: Key): Volumes {
    if k in m then m[k] else Volumes(0, 0)
  }

  function Add(m: VolumeMap, k: Key, input: int, output: int): VolumeMap {
    m[k := Volumes(Get(m, k).input + input, Get(m, k).output + output)]
  }

  // The simple form: one posting at a time.

  function Post(m: VolumeMap, p: Posting): VolumeMap {
    Add(Add(m, Source(p), 0, p.amount), Destination(p), p.amount, 0)
  }

  function PostAll(m: VolumeMap, ps: seq<Posting>): VolumeMap
    decreases |ps|
  {
    if ps == [] then m else PostAll(Post(m, ps[0]), ps[1..])
  }

  // Summed amounts into and out of a key.

  function Inputs(ps: seq<Posting>, k: Key): int {
    if ps == [] then 0 else (if Destination(ps[0]) == k then ps[0].amount else 0) + Inputs(ps[1..], k)
  }

  function Outputs(ps: seq<Posting>, k: Key): int {
    if ps == [] then 0 else (if Source(ps[0]) == k then ps[0].amount else 0) + Outputs(ps[1..], k)
  }

  predicate Touches(p: Posting, k: Key) {
    Source(p) == k || Destination(p) == k
  }

  predicate Touched(ps: seq<Posting>, k: Key) {
    exists p :: p in ps && Touches(p, k)
  }

  lemma {:induction false} PostAllSums(m: VolumeMap, ps: seq<Posting>, k: Key)
    ensures k in PostAll(m, ps) <==> k in m || Touched(ps, k)
    ensures Get(PostAll(m, ps), k) == Volumes(Get(m, k).input + Inputs(ps, k), Get(m, k).output + Outputs(ps, k))
    decreases |ps|
  {
    if ps != [] {
      PostAllSums(Post(m, ps[0]), ps[1..], k);
      assert Touched(ps, k) <==> Touches(ps[0], k) || Touched(ps[1..], k) by {
        assert forall p :: p in ps <==> p == ps[0] || p in ps[1..];
      }
    }
  }

  lemma {:induction false} SumsOfConcat(ps: seq<Posting>, qs: seq<Posting>, k: Key)
    ensures Inputs(ps + qs, k) == Inputs(ps, k) + Inputs(qs, k)
    ensures Outputs(ps + qs, k) == Outputs(ps, k) + Outputs(qs, k)
  {
    if ps == [] {
      assert ps + qs == qs;
    } else {
      assert (ps + qs)[1..] == ps[1..] + qs;
      SumsOfConcat(ps[1..], qs, k);
    }
  }

  // Conservation, per asset, over any listing of the touched keys.

  function Amounts(ps: seq<Posting>, asset: string): int {
    if ps == [] then 0 else (if ps[0].asset == asset then ps[0].amount else 0) + Amounts(ps[1..], asset)
  }

  predicate NoDuplicates(ks: seq<Key>) {
    forall i, j :: 0 <= i < j < |ks| ==> ks[i] != ks[j]
  }

  function SumInputs(ks: seq<Key>, m: VolumeMap, asset: string): int {
    if ks == [] then 0 else (if ks[0].1 == asset then Get(m, ks[0]).input else 0) + SumInputs(ks[1..], m, asset)
  }

  function SumOutputs(ks: seq<Key>, m: VolumeMap, asset: string): int {
    if ks == [] then 0 else (if ks[0].1 == asset then Get(m, ks[0]).output else 0) + SumOutputs(ks[1..], m, asset)
  }

  lemma {:induction false} SumsOfNothing(ks: seq<Key>, asset: string)
    ensures SumInputs(ks, map[], asset) == 0 && SumOutputs(ks, map[], asset) == 0
  {
    if ks != [] {
      SumsOfNothing(ks[1..], asset);
    }
  }

  lemma {:induction false} SumsAfterAdd(ks: seq<Key>, m: VolumeMap, k: Key, input: int, output: int, asset: string)
    requires NoDuplicates(ks)
    ensures SumInputs(ks, Add(m, k, input, output), asset)
            == SumInputs(ks, m, asset) + if k in ks && k.1 == asset then input else 0
    ensures SumOutputs(ks, Add(m, k, input, output), asset)
            == SumOutputs(ks, m, asset) + if k in ks && k.1 == asset then output else 0
  {
    if ks != [] {
      SumsAfterAdd(ks[1..], m, k, input, output, asset);
      assert k in ks <==> k == ks[0] || k in ks[1..];
      assert ks[0] !in ks[1..];
    }
  }

  lemma {:induction false} Conservation(ks: seq<Key>, m: VolumeMap, ps: seq<Posting>, asset: string)
    requires NoDuplicates(ks)
    requires forall p :: p in ps ==> Source(p) in ks && Destination(p) in ks
    ensures SumInputs(ks, PostAll(m, ps), asset) == SumInputs(ks, m, asset) + Amounts(ps, asset)
    ensures SumOutputs(ks, PostAll(m, ps), asset) == SumOutputs(ks, m, asset) + Amounts(ps, asset)
    decreases |ps|
  {
    if ps != [] {
      var p := ps[0];
      assert p in ps && forall q :: q in ps[1..] ==> q in ps;
      var half := Add(m, Source(p), 0, p.amount);
      SumsAfterAdd(ks, m, Source(p), 0, p.amount, asset);
      SumsAfterAdd(ks, half, Destination(p), p.amount, 0, asset);
      Conservation(ks, Post(m, p), ps[1..], asset);
    }
  }

  // Reversal.

  function Swapped(p: Posting): Posting {
    p.(source := p.destination, destination := p.source)
  }

  function Reversed(ps: seq<Posting>): seq<Posting> {
    if ps == [] then [] else Reversed(ps[1..]) + [Swapped(ps[0])]
  }

  lemma {:induction false} ReversedAt(ps: seq<Posting>, i: nat)
    requires i < |ps|
    ensures |Reversed(ps)| == |ps| && Reversed(ps)[i] == Swapped(ps[|ps| - 1 - i])
  {
    if |ps| > 1 {
      ReversedAt(ps[1..], if i < |ps| - 1 then i else 0);
    }
  }

  method Reverse(p: seq<Posting>) returns (postings: array<Posting>)
    ensures fresh(postings) && postings[..] == Reversed(p)
  {
    postings := new Posting[|p|](i requires 0 <= i < |p| => p[i]);
    SwapAccounts(postings);
    ReverseOrder(postings);
    ReversedFrom(p, postings[..]);
  }

  lemma {:induction false} ReversedFrom(p: seq<Posting>, s: seq<Posting>)
    requires |s| == |p| && forall k :: 0 <= k < |p| ==> s[k] == Swapped(p[|p| - 1 - k])
    ensures s == Reversed(p)
  {
    if p != [] {
      ReversedAt(p, 0);
    }
    forall k | 0 <= k < |p|
      ensures s[k] == Reversed(p)[k]
    {
      ReversedAt(p, k);
    }
  }

  method SwapAccounts(postings: array<Posting>)
    modifies postings
    ensures forall k :: 0 <= k < postings.Length ==> postings[k] == Swapped(old(postings[k]))
  {
    for i := 0 to postings.Length
      invariant forall k :: 0 <= k < i ==> postings[k] == Swapped(old(postings[k]))
      invariant forall k :: i <= k < postings.Length ==> postings[k] == old(postings[k])
    {
      postings[i] := postings[i].(source := postings[i].destination, destination := postings[i].source);
    }
  }

  method ReverseOrder(postings: array<Posting>)
    modifies postings
    ensures forall k :: 0 <= k < postings.Length ==> postings[k] == old(postings[postings.Length - 1 - k])
  {
    var n := postings.Length;
    for i := 0 to n / 2
      invariant forall k :: 0 <= k < i ==>
                  postings[k] == old(postings[n - 1 - k]) && postings[n - 1 - k] == old(postings[k])
      invariant forall k :: i <= k < n - i ==> postings[k] == old(postings[k])
    {
      postings[i], postings[n - i - 1] := postings[n - i - 1], postings[i];
    }
  }

  lemma {:induction false} ReversedTwice(ps: seq<Posting>)
    ensures Reversed(Reversed(ps)) == ps
  {
    var back := Reversed(ps);
    if ps != [] {
      ReversedAt(ps, 0);
      ReversedAt(back, 0);
      forall i | 0 <= i < |ps|
        ensures Reversed(back)[i] == ps[i]
      {
        ReversedAt(back, i);
        ReversedAt(ps, |ps| - 1 - i);
      }
    }
  }

  // The balance of a key after the first `k` postings, from a balance `start`.
  function BalanceAfter(start: int, ps: seq<Posting>, k: nat, key: Key): int
    requires k <= |ps|
  {
    start + Inputs(ps[..k], key) - Outputs(ps[..k], key)
  }

  lemma {:induction false} ReversedSums(ps: seq<Posting>, key: Key)
    ensures |Reversed(ps)| == |ps|
    ensures Inputs(Reversed(ps), key) == Outputs(ps, key)
    ensures Outputs(Reversed(ps), key) == Inputs(ps, key)
  {
    if ps != [] {
      ReversedSums(ps[1..], key);
      SumsOfConcat(Reversed(ps[1..]), [Swapped(ps[0])], key);
      assert [Swapped(ps[0])][1..] == [];
    }
  }

  lemma {:induction false} ReversedPrefix(ps: seq<Posting>, k: nat)
    requires k <= |ps|
    ensures |Reversed(ps)| == |ps| && Reversed(ps)[..k] == Reversed(ps[|ps| - k..])
  {
    ReversedSums(ps, ("", ""));
    ReversedSums(ps[|ps| - k..], ("", ""));
    if k < |ps| {
      ReversedPrefix(ps[1..], k);
      assert ps[1..][|ps| - 1 - k..] == ps[|ps| - k..];
      assert |Reversed(ps[1..])| == |ps| - 1;
      assert Reversed(ps)[..k] == Reversed(ps[1..])[..k];
    } else {
      assert ps[0..] == ps;
    }
  }

  // Reverting replays the balances backwards.
  lemma {:induction false} ReversalReplaysBackwards(start: int, ps: seq<Posting>, k: nat, key: Key)
    requires k <= |ps|
    ensures |Reversed(ps)| == |ps|
    ensures BalanceAfter(BalanceAfter(start, ps, |ps|, key), Reversed(ps), k, key)
            == BalanceAfter(start, ps, |ps| - k, key)
  {
    var n := |ps|;
    ReversedPrefix(ps, k);
    ReversedSums(ps[n - k..], key);
    assert ps[..n] == ps[..n - k] + ps[n - k..];
    SumsOfConcat(ps[..n - k], ps[n - k..], key);
  }

  predicate StaysAbove(floor: int, start: int, ps: seq<Posting>, key: Key) {
    forall k: nat :: k <= |ps| ==> floor <= BalanceAfter(start, ps, k, key)
  }

  // So no balance dips lower during the reversal than it did originally, nor less low.
  lemma {:induction false} ReversalDipsAsLow(start: int, ps: seq<Posting>, key: Key, floor: int)
    ensures StaysAbove(floor, start, ps, key)
            <==> StaysAbove(floor, BalanceAfter(start, ps, |ps|, key), Reversed(ps), key)
  {
    ReversedSums(ps, key);
    var end := BalanceAfter(start, ps, |ps|, key);
    if StaysAbove(floor, start, ps, key) {
      forall k: nat | k <= |ps|
        ensures floor <= BalanceAfter(end, Reversed(ps), k, key)
      {
        ReversalReplaysBackwards(start, ps, k, key);
      }
    }
    if StaysAbove(floor, end, Reversed(ps), key) {
      forall k: nat | k <= |ps|
        ensures floor <= BalanceAfter(start, ps, k, key)
      {
        ReversalReplaysBackwards(start, ps, |ps| - k, key);
      }
    }
  }

  // Reversing swaps inputs and outputs.
  lemma {:induction false} ReversalSwapsVolumes(ps: seq<Posting>, k: Key)
    ensures k in PostAll(map[], Reversed(ps)) <==> k in PostAll(map[], ps)
    ensures Get(PostAll(map[], Reversed(ps)), k)
            == Volumes(Get(PostAll(map[], ps), k).output, Get(PostAll(map[], ps), k).input)
  {
    PostAllSums(map[], ps, k);
    PostAllSums(map[], Reversed(ps), k);
    ReversedSums(ps, k);
    if Touched(ps, k) {
      var p :| p in ps && Touches(p, k);
      var i :| 0 <= i < |ps| && ps[i] == p;
      ReversedAt(ps, |ps| - 1 - i);
      assert Swapped(p) in Reversed(ps) && Touches(Swapped(p), k);
    }
    if Touched(Reversed(ps), k) {
      var p :| p in Reversed(ps) && Touches(p, k);
      var i :| 0 <= i < |ps| && Reversed(ps)[i] == p;
      ReversedAt(ps, i);
      assert ps[|ps| - 1 - i] in ps && Touches(ps[|ps| - 1 - i], k);
    }
  }
}
