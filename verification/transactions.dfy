// `Transaction.VolumeUpdates`: postings grouped by account and asset, summed, sorted.
module Transactions {
  import opened Postings

  datatype AccountsVolumes = AccountsVolumes(account: string, asset: string, input: int, output: int) {
    function Key(): Key {
      (account, asset)
    }
  }

  // Go's order of strings.
  predicate Less(a: string, b: string) {
    b != "" && (a == "" || a[0] < b[0] || (a[0] == b[0] && Less(a[1..], b[1..])))
  }

  predicate KeyLess(a: Key, b: Key) {
    Less(a.0, b.0) || (a.0 == b.0 && Less(a.1, b.1))
  }

  lemma {:induction false} LessTotal(a: string, b: string)
    ensures Less(a, b) || Less(b, a) || a == b
    ensures !(Less(a, b) && Less(b, a)) && (a == b ==> !Less(a, b))
  {
    if a != "" && b != "" {
      LessTotal(a[1..], b[1..]);
      assert a == [a[0]] + a[1..] && b == [b[0]] + b[1..];
    }
  }

  lemma {:induction false} LessTransitive(a: string, b: string, c: string)
    requires Less(a, b) && Less(b, c)
    ensures Less(a, c)
  {
    if a != "" && a[0] == b[0] && b[0] == c[0] {
      LessTransitive(a[1..], b[1..], c[1..]);
    }
  }

  lemma {:induction false} KeyLessTotal(a: Key, b: Key)
    ensures KeyLess(a, b) || KeyLess(b, a) || a == b
    ensures !(KeyLess(a, b) && KeyLess(b, a)) && (a == b ==> !KeyLess(a, b))
  {
    LessTotal(a.0, b.0);
    LessTotal(a.1, b.1);
  }

  lemma {:induction false} KeyLessTransitive(a: Key, b: Key, c: Key)
    requires KeyLess(a, b) && KeyLess(b, c)
    ensures KeyLess(a, c)
  {
    if Less(a.0, b.0) && Less(b.0, c.0) {
      LessTransitive(a.0, b.0, c.0);
    } else if a.0 == b.0 && b.0 == c.0 {
      LessTransitive(a.1, b.1, c.1);
    }
  }

  predicate StrictlySorted(s: seq<AccountsVolumes>) {
    forall i, j :: 0 <= i < j < |s| ==> KeyLess(s[i].Key(), s[j].Key())
  }

  // Where two strings part, the first has ended or has the smaller character.
  predicate PartAt(a: string, b: string, n: nat) {
    n <= |a| && n < |b| && a[..n] == b[..n] && (n == |a| || a[n] < b[n])
  }

  lemma {:induction false} HeadsAgree(a: string, b: string, n: nat)
    requires PartAt(a, b, n)
    ensures n > 0 ==> a[0] == b[0]
  {
    assert n > 0 ==> a[..n][0] == a[0] && b[..n][0] == b[0];
  }

  lemma {:induction false} LessIff(a: string, b: string)
    ensures Less(a, b) <==> exists n: nat :: PartAt(a, b, n)
    decreases |a|
  {
    if a == "" || b == "" {
      assert b != "" ==> PartAt(a, b, 0);
    } else if a[0] != b[0] {
      assert a[0] < b[0] ==> PartAt(a, b, 0);
      forall n: nat | PartAt(a, b, n)
        ensures n == 0
      {
        HeadsAgree(a, b, n);
      }
    } else {
      LessIff(a[1..], b[1..]);
      forall n: nat | n < |a| && n < |b|
        ensures PartAt(a[1..], b[1..], n) <==> PartAt(a, b, n + 1)
      {
        assert a[..n + 1] == [a[0]] + a[1..][..n] && b[..n + 1] == [b[0]] + b[1..][..n];
        assert a[1..][..n] == a[..n + 1][1..] && b[1..][..n] == b[..n + 1][1..];
      }
      forall n: nat | PartAt(a, b, n)
        ensures 0 < n && PartAt(a[1..], b[1..], n - 1)
      {
      }
    }
  }

  // The entries come by account, and those of one account by asset.
  lemma {:induction false} SortedOrder(s: seq<AccountsVolumes>, i: nat, j: nat)
    requires StrictlySorted(s) && i < j < |s|
    ensures (exists n: nat :: PartAt(s[i].account, s[j].account, n))
            || (s[i].account == s[j].account && exists n: nat :: PartAt(s[i].asset, s[j].asset, n))
  {
    LessIff(s[i].account, s[j].account);
    LessIff(s[i].asset, s[j].asset);
  }

  // `s` lists the map: one entry per key.
  predicate Lists(s: seq<AccountsVolumes>, m: VolumeMap) {
    && (forall e :: e in s ==> e.Key() in m && m[e.Key()] == Volumes(e.input, e.output))
    && (forall k :: k in m ==> AccountsVolumes(k.0, k.1, m[k].input, m[k].output) in s)
  }

  function Listed(m: VolumeMap, k: Key): AccountsVolumes
    requires k in m
  {
    AccountsVolumes(k.0, k.1, m[k].input, m[k].output)
  }

  lemma {:induction false} SameHead(s: seq<AccountsVolumes>, t: seq<AccountsVolumes>, m: VolumeMap)
    requires StrictlySorted(s) && StrictlySorted(t) && Lists(s, m) && Lists(t, m)
    requires s != [] && t != []
    ensures s[0] == t[0]
  {
    assert s[0] in s && t[0] in t;
    assert Listed(m, s[0].Key()) == s[0] && Listed(m, t[0].Key()) == t[0];
    var i :| 0 <= i < |s| && s[i] == t[0];
    var j :| 0 <= j < |t| && t[j] == s[0];
    KeyLessTotal(s[0].Key(), t[0].Key());
  }

  lemma {:induction false} TailLists(s: seq<AccountsVolumes>, m: VolumeMap)
    requires StrictlySorted(s) && Lists(s, m) && s != []
    ensures StrictlySorted(s[1..]) && Lists(s[1..], m - {s[0].Key()})
  {
    var rest := m - {s[0].Key()};
    forall e | e in s[1..]
      ensures e.Key() in rest
    {
      var i :| 0 < i < |s| && s[i] == e;
      KeyLessTotal(s[0].Key(), s[i].Key());
      assert e in s;
    }
    assert s[0] in s;
  }

  // A strictly sorted listing is unique, so the result does not depend on the order in
  // which the maps were iterated.
  lemma {:induction false} SortedListingUnique(s: seq<AccountsVolumes>, t: seq<AccountsVolumes>, m: VolumeMap)
    requires StrictlySorted(s) && StrictlySorted(t) && Lists(s, m) && Lists(t, m)
    ensures s == t
    decreases |s|
  {
    if s == [] && t == [] {
    } else if s == [] {
      HeadListed(t, m);
      assert false;
    } else if t == [] {
      HeadListed(s, m);
      assert false;
    } else {
      SameHead(s, t, m);
      TailLists(s, m);
      TailLists(t, m);
      SortedListingUnique(s[1..], t[1..], m - {s[0].Key()});
    }
  }

  lemma {:induction false} HeadListed(s: seq<AccountsVolumes>, m: VolumeMap)
    requires Lists(s, m) && s != []
    ensures s[0].Key() in m && Listed(m, s[0].Key()) == s[0]
  {
    assert s[0] in s;
  }

  // Grouping.

  type Groups = map<string, map<string, seq<Posting>>>

  function Group(groups: Groups, k: Key): seq<Posting> {
    if k.0 in groups && k.1 in groups[k.0] then groups[k.0][k.1] else []
  }

  // The postings that touch a key, in order.
  function Moves(ps: seq<Posting>, k: Key): seq<Posting> {
    if ps == [] then [] else (if Touches(ps[0], k) then [ps[0]] else []) + Moves(ps[1..], k)
  }

  lemma {:induction false} MovesSnoc(ps: seq<Posting>, p: Posting, k: Key)
    ensures Moves(ps + [p], k) == Moves(ps, k) + if Touches(p, k) then [p] else []
  {
    if ps == [] {
      assert [p][1..] == [];
    } else {
      assert (ps + [p])[1..] == ps[1..] + [p];
      MovesSnoc(ps[1..], p, k);
    }
  }

  lemma {:induction false} MovesSums(ps: seq<Posting>, k: Key)
    ensures Inputs(Moves(ps, k), k) == Inputs(ps, k) && Outputs(Moves(ps, k), k) == Outputs(ps, k)
    ensures Moves(ps, k) != [] <==> Touched(ps, k)
    ensures forall p :: p in Moves(ps, k) ==> Touches(p, k)
  {
    if ps != [] {
      MovesSums(ps[1..], k);
      SumsOfConcat(if Touches(ps[0], k) then [ps[0]] else [], Moves(ps[1..], k), k);
      assert [ps[0]][1..] == [];
      assert Touched(ps, k) <==> Touches(ps[0], k) || Touched(ps[1..], k) by {
        assert forall p :: p in ps <==> p == ps[0] || p in ps[1..];
      }
    }
  }

  // No group is empty.
  ghost predicate Grouped(groups: Groups, ps: seq<Posting>) {
    && (forall k: Key :: Group(groups, k) == Moves(ps, k))
    && (forall a, s :: a in groups && s in groups[a] ==> groups[a][s] != [])
  }

  method AppendMove(groups: Groups, account: string, p: Posting) returns (r: Groups)
    ensures forall k: Key :: Group(r, k) == Group(groups, k) + if k == (account, p.asset) then [p] else []
    ensures (forall a, s :: a in groups && s in groups[a] ==> groups[a][s] != [])
            ==> forall a, s :: a in r && s in r[a] ==> r[a][s] != []
  {
    r := groups;
    if account !in r {
      r := r[account := map[]];
    }
    var moves := if p.asset in r[account] then r[account][p.asset] else [];
    r := r[account := r[account][p.asset := moves + [p]]];
  }

  method GroupPostings(postings: seq<Posting>) returns (groups: Groups)
    ensures Grouped(groups, postings)
  {
    groups := map[];
    for i := 0 to |postings|
      invariant Grouped(groups, postings[..i])
    {
      var posting := postings[i];
      ghost var before := groups;
      assert postings[..i + 1] == postings[..i] + [posting];
      forall k: Key
        ensures Moves(postings[..i + 1], k) == Group(before, k) + if Touches(posting, k) then [posting] else []
      {
        MovesSnoc(postings[..i], posting, k);
      }
      groups := AppendMove(groups, posting.source, posting);
      if posting.source != posting.destination {
        groups := AppendMove(groups, posting.destination, posting);
      }
    }
    assert postings[..|postings|] == postings;
  }

  // Summing.

  method SumMoves(account: string, asset: string, postings: seq<Posting>) returns (e: AccountsVolumes)
    requires forall p :: p in postings ==> p.asset == asset
    ensures e == AccountsVolumes(
                   account, asset, Inputs(postings, (account, asset)), Outputs(postings, (account, asset)))
  {
    var input, output := 0, 0;
    ghost var k := (account, asset);
    for i := 0 to |postings|
      invariant input == Inputs(postings[..i], k) && output == Outputs(postings[..i], k)
    {
      assert postings[..i + 1] == postings[..i] + [postings[i]];
      SumsOfConcat(postings[..i], [postings[i]], k);
      assert [postings[i]][1..] == [];
      assert postings[i] in postings;
      if account == postings[i].source {
        output := output + postings[i].amount;
      }
      if account == postings[i].destination {
        input := input + postings[i].amount;
      }
    }
    assert postings[..|postings|] == postings;
    return AccountsVolumes(account, asset, input, output);
  }

  // One entry per group.
  ghost predicate Summed(e: AccountsVolumes, ps: seq<Posting>) {
    e.input == Inputs(ps, e.Key()) && e.output == Outputs(ps, e.Key())
  }

  predicate DistinctKeys(s: seq<AccountsVolumes>) {
    forall i, j :: 0 <= i < j < |s| ==> s[i].Key() != s[j].Key()
  }

  // The loops over the maps, in any order.
  method SumGroups(groups: Groups, ghost ps: seq<Posting>) returns (ret: seq<AccountsVolumes>)
    requires Grouped(groups, ps)
    ensures DistinctKeys(ret)
    ensures forall e :: e in ret ==> Touched(ps, e.Key()) && Summed(e, ps)
    ensures forall k :: Touched(ps, k) ==> exists e :: e in ret && e.Key() == k
  {
    ret := [];
    var accounts := groups.Keys;
    while accounts != {}
      invariant accounts <= groups.Keys && DistinctKeys(ret)
      invariant forall e :: e in ret ==> e.account !in accounts && Touched(ps, e.Key()) && Summed(e, ps)
      invariant forall a, s :: a in groups && s in groups[a] && a !in accounts ==>
                  exists e :: e in ret && e.Key() == (a, s)
      decreases accounts
    {
      var account :| account in accounts;
      var entries := SumAccount(groups, account, ps);
      accounts := accounts - {account};
      ret := ret + entries;
    }
    forall k | Touched(ps, k)
      ensures exists e :: e in ret && e.Key() == k
    {
      MovesSums(ps, k);
      assert Group(groups, k) != [];
    }
  }

  method SumAccount(groups: Groups, account: string, ghost ps: seq<Posting>) returns (ret: seq<AccountsVolumes>)
    requires Grouped(groups, ps) && account in groups
    ensures DistinctKeys(ret)
    ensures forall e :: e in ret ==> e.account == account && Touched(ps, e.Key()) && Summed(e, ps)
    ensures forall s :: s in groups[account] ==> exists e :: e in ret && e.Key() == (account, s)
  {
    ret := [];
    var assets := groups[account].Keys;
    while assets != {}
      invariant assets <= groups[account].Keys && DistinctKeys(ret)
      invariant forall e :: e in ret ==>
                  e.account == account && e.asset !in assets && Touched(ps, e.Key()) && Summed(e, ps)
      invariant forall s :: s in groups[account] && s !in assets ==> exists e :: e in ret && e.Key() == (account, s)
      decreases assets
    {
      var asset :| asset in assets;
      assets := assets - {asset};
      ghost var k := (account, asset);
      assert Group(groups, k) == groups[account][asset];
      MovesSums(ps, k);
      var e := SumMoves(account, asset, groups[account][asset]);
      assert e in ret + [e];
      ret := ret + [e];
    }
  }

  // The library sort, for keys that are all different.

  function Insert(e: AccountsVolumes, s: seq<AccountsVolumes>): seq<AccountsVolumes> {
    if s == [] || KeyLess(e.Key(), s[0].Key()) then [e] + s else [s[0]] + Insert(e, s[1..])
  }

  function Sorted(s: seq<AccountsVolumes>): seq<AccountsVolumes> {
    if s == [] then [] else Insert(s[0], Sorted(s[1..]))
  }

  lemma {:induction false} InsertSorts(e: AccountsVolumes, s: seq<AccountsVolumes>)
    requires StrictlySorted(s) && forall o :: o in s ==> o.Key() != e.Key()
    ensures StrictlySorted(Insert(e, s))
    ensures forall o :: o in Insert(e, s) <==> o == e || o in s
  {
    if s == [] {
    } else if KeyLess(e.Key(), s[0].Key()) {
      forall j | 0 <= j < |s|
        ensures KeyLess(e.Key(), s[j].Key())
      {
        if j > 0 {
          KeyLessTransitive(e.Key(), s[0].Key(), s[j].Key());
        }
      }
    } else {
      InsertSorts(e, s[1..]);
      KeyLessTotal(e.Key(), s[0].Key());
      assert s[0] in s;
      var rest := Insert(e, s[1..]);
      forall j | 0 <= j < |rest|
        ensures KeyLess(s[0].Key(), rest[j].Key())
      {
        assert rest[j] in rest;
        if rest[j] != e {
          var i :| 0 < i < |s| && s[i] == rest[j];
        }
      }
    }
  }

  lemma {:induction false} SortedIsSorted(s: seq<AccountsVolumes>)
    requires DistinctKeys(s)
    ensures StrictlySorted(Sorted(s))
    ensures forall o :: o in Sorted(s) <==> o in s
  {
    if s != [] {
      SortedIsSorted(s[1..]);
      InsertSorts(s[0], Sorted(s[1..]));
    }
  }

  // The updates list what posting one by one to empty volumes gives, sorted by
  // account and asset.
  method VolumeUpdates(postings: seq<Posting>) returns (ret: seq<AccountsVolumes>)
    ensures StrictlySorted(ret) && Lists(ret, PostAll(map[], postings))
  {
    var groups := GroupPostings(postings);
    var entries := SumGroups(groups, postings);
    ret := Sorted(entries);
    SortedIsSorted(entries);
    SummedEntriesList(entries, ret, postings);
  }

  lemma {:induction false} SummedEntriesList(entries: seq<AccountsVolumes>, ret: seq<AccountsVolumes>, ps: seq<Posting>)
    requires forall e :: e in entries ==> Touched(ps, e.Key()) && Summed(e, ps)
    requires forall k :: Touched(ps, k) ==> exists e :: e in entries && e.Key() == k
    requires forall o :: o in ret <==> o in entries
    ensures Lists(ret, PostAll(map[], ps))
  {
    var m := PostAll(map[], ps);
    forall e | e in ret
      ensures e.Key() in m && m[e.Key()] == Volumes(e.input, e.output)
    {
      PostAllSums(map[], ps, e.Key());
    }
    forall k | k in m
      ensures Listed(m, k) in ret
    {
      PostAllSums(map[], ps, k);
      var e :| e in entries && e.Key() == k;
      assert e == Listed(m, k);
    }
  }

  // Conservation: per asset, the updates' inputs and outputs both total the posted amounts.

  function TotalInput(s: seq<AccountsVolumes>, asset: string): int {
    if s == [] then 0 else (if s[0].asset == asset then s[0].input else 0) + TotalInput(s[1..], asset)
  }

  function TotalOutput(s: seq<AccountsVolumes>, asset: string): int {
    if s == [] then 0 else (if s[0].asset == asset then s[0].output else 0) + TotalOutput(s[1..], asset)
  }

  function Keys(s: seq<AccountsVolumes>): seq<Key> {
    if s == [] then [] else [s[0].Key()] + Keys(s[1..])
  }

  lemma {:induction false} TotalsAreSums(s: seq<AccountsVolumes>, m: VolumeMap, asset: string)
    requires forall e :: e in s ==> e.Key() in m && m[e.Key()] == Volumes(e.input, e.output)
    ensures TotalInput(s, asset) == SumInputs(Keys(s), m, asset)
    ensures TotalOutput(s, asset) == SumOutputs(Keys(s), m, asset)
    ensures |Keys(s)| == |s| && forall i :: 0 <= i < |s| ==> Keys(s)[i] == s[i].Key()
  {
    if s != [] {
      assert s[0] in s;
      TotalsAreSums(s[1..], m, asset);
    }
  }

  lemma {:induction false} UpdatesConserve(ret: seq<AccountsVolumes>, ps: seq<Posting>, asset: string)
    requires StrictlySorted(ret) && Lists(ret, PostAll(map[], ps))
    ensures TotalInput(ret, asset) == TotalOutput(ret, asset) == Amounts(ps, asset)
  {
    var m, ks := PostAll(map[], ps), Keys(ret);
    TotalsAreSums(ret, m, asset);
    forall i, j | 0 <= i < j < |ks|
      ensures ks[i] != ks[j]
    {
      KeyLessTotal(ret[i].Key(), ret[j].Key());
    }
    forall p | p in ps
      ensures Source(p) in ks && Destination(p) in ks
    {
      assert Touches(p, Source(p)) && Touches(p, Destination(p));
      PostAllSums(map[], ps, Source(p));
      PostAllSums(map[], ps, Destination(p));
      KeyListed(ret, m, Source(p));
      KeyListed(ret, m, Destination(p));
    }
    Conservation(ks, map[], ps, asset);
    SumsOfNothing(ks, asset);
  }

  lemma {:induction false} KeyListed(ret: seq<AccountsVolumes>, m: VolumeMap, k: Key)
    requires Lists(ret, m) && k in m
    ensures k in Keys(ret)
  {
    TotalsAreSums(ret, m, k.1);
    var i :| 0 <= i < |ret| && ret[i] == Listed(m, k);
    assert k == (k.0, k.1) == Listed(m, k).Key();
    assert Keys(ret)[i] == k;
  }
}
