// `PostCommitVolumes`: volumes per account and asset, held in mutable big integers.
// Account and asset together are the key of one map.
module PostCommitVolumesModel {
  import opened Postings

  // The two big integers of one entry.
  class Entry {
    var input: int
    var output: int

    constructor (input: int, output: int)
      ensures this.input == input && this.output == output
    {
      this.input := input;
      this.output := output;
    }
  }

  // What the operations compute.

  function Merged(a: VolumeMap, b: VolumeMap): VolumeMap {
    map k | k in a.Keys + b.Keys ::
      Volumes(Get(a, k).input + Get(b, k).input, Get(a, k).output + Get(b, k).output)
  }

  lemma {:induction false} NothingLeft(b: VolumeMap)
    ensures b - {} == b
  {
  }

  lemma {:induction false} AddToNew(m: VolumeMap, k: Key, input: int, output: int)
    requires k !in m
    ensures Add(m[k := Volumes(0, 0)], k, input, output) == Add(m, k, input, output)
  {
  }

  lemma {:induction false} MergedOneMore(a: VolumeMap, b: VolumeMap, todo: set<Key>, k: Key)
    requires k in todo && k in b
    ensures Merged(a, b - (todo - {k})) == Add(Merged(a, b - todo), k, b[k].input, b[k].output)
  {
  }

  lemma {:induction false} CopiedOneMore(m: VolumeMap, todo: set<Key>, k: Key)
    requires k in todo && k in m
    ensures m - (todo - {k}) == (m - todo)[k := m[k]]
  {
  }

  // The entries still to be merged hold these volumes.
  ghost predicate Holds(entries: map<Key, Entry>, todo: set<Key>, volumes: VolumeMap)
    reads entries.Values
  {
    && todo <= entries.Keys && todo <= volumes.Keys
    && forall l :: l in todo ==> volumes[l] == Volumes(entries[l].input, entries[l].output)
  }

  predicate Covers(m: VolumeMap, ps: seq<Posting>) {
    forall p :: p in ps ==> Source(p) in m && Destination(p) in m
  }

  function Unpost(m: VolumeMap, p: Posting): VolumeMap {
    Add(Add(m, Source(p), 0, -p.amount), Destination(p), -p.amount, 0)
  }

  function UnpostAll(m: VolumeMap, ps: seq<Posting>): VolumeMap
    decreases |ps|
  {
    if ps == [] then m else UnpostAll(Unpost(m, ps[0]), ps[1..])
  }

  lemma {:induction false} UnpostAllFrom(m: VolumeMap, ps: seq<Posting>, i: nat)
    requires i < |ps|
    ensures UnpostAll(m, ps[i..]) == UnpostAll(Unpost(m, ps[i]), ps[i + 1..])
  {
    assert ps[i..][1..] == ps[i + 1..];
  }

  lemma {:induction false} GrowsTwice(a: set<Entry>, b: set<Entry>, c: set<Entry>)
    ensures c - a <= (c - b) + (b - a)
  {
  }

  class PostCommitVolumes {
    var m: map<Key, Entry>
    ghost var Contents: VolumeMap
    ghost var Repr: set<Entry>

    // No integer is shared between two keys.
    ghost predicate Valid()
      reads this, Repr
    {
      && m.Keys == Contents.Keys
      && (forall k :: k in m ==> m[k] in Repr && Contents[k] == Volumes(m[k].input, m[k].output))
      && (forall k, l :: k in m && l in m && k != l ==> m[k] != m[l])
    }

    constructor ()
      ensures Valid() && Contents == map[] && Repr == {}
    {
      m, Contents, Repr := map[], map[], {};
    }

    // m[k] = Volumes{input, output}, with fresh integers.
    method Set(k: Key, input: int, output: int)
      requires Valid()
      modifies this
      ensures Valid() && Contents == old(Contents)[k := Volumes(input, output)]
      ensures k in m && fresh(m[k]) && m == old(m)[k := m[k]]
      ensures Repr == old(Repr) + {m[k]}
    {
      var volumes := new Entry(input, output);
      m := m[k := volumes];
      Contents := Contents[k := Volumes(input, output)];
      Repr := Repr + {volumes};
    }

    // Replaces an entry by a fresh copy with the amount added.
    method AddInput(k: Key, amount: int)
      requires Valid() && k in Contents
      modifies this
      ensures Valid() && Contents == Add(old(Contents), k, amount, 0)
      ensures fresh(Repr - old(Repr))
    {
      Set(k, m[k].input + amount, m[k].output);
    }

    method AddOutput(k: Key, amount: int)
      requires Valid() && k in Contents
      modifies this
      ensures Valid() && Contents == Add(old(Contents), k, 0, amount)
      ensures fresh(Repr - old(Repr))
    {
      Set(k, m[k].input, m[k].output + amount);
    }

    // A deep copy.
    method Copy() returns (ret: PostCommitVolumes)
      requires Valid()
      ensures fresh(ret) && fresh(ret.Repr) && ret.Valid()
      ensures ret.Contents == Contents
    {
      ret := new PostCommitVolumes();
      var todo := m.Keys;
      while todo != {}
        invariant todo <= m.Keys && fresh(ret) && fresh(ret.Repr) && ret.Valid()
        invariant ret.Contents == Contents - todo
        decreases todo
      {
        var k :| k in todo;
        CopiedOneMore(Contents, todo, k);
        todo := todo - {k};
        ret.Set(k, m[k].input, m[k].output);
      }
      assert Contents - {} == Contents;
    }

    // The receiver and its integers are left alone: nothing is modified.
    method SubtractPostings(postings: seq<Posting>) returns (ret: PostCommitVolumes)
      requires Valid() && (Contents == map[] || Covers(Contents, postings))
      ensures fresh(ret) && fresh(ret.Repr) && ret.Valid()
      ensures ret.Contents == if Contents == map[] then map[] else UnpostAll(Contents, postings)
    {
      if |m| == 0 {
        ret := new PostCommitVolumes();
        return;
      }
      ret := Copy();
      ret.SubtractAll(postings);
    }

    // The loop of SubtractPostings, on the copy.
    method SubtractAll(postings: seq<Posting>)
      requires Valid() && Covers(Contents, postings)
      modifies this
      ensures Valid() && Contents == UnpostAll(old(Contents), postings)
      ensures fresh(Repr - old(Repr))
    {
      ghost var result := UnpostAll(Contents, postings);
      assert postings[0..] == postings;
      for i := 0 to |postings|
        invariant Valid() && fresh(Repr - old(Repr))
        invariant Covers(Contents, postings)
        invariant result == UnpostAll(Contents, postings[i..])
      {
        ghost var now := Repr;
        UnpostAllFrom(Contents, postings, i);
        assert postings[i] in postings;
        SubtractPosting(postings[i]);
        GrowsTwice(old(Repr), now, Repr);
      }
      assert postings[|postings|..] == [];
    }

    method SubtractPosting(p: Posting)
      requires Valid() && Source(p) in Contents && Destination(p) in Contents
      modifies this
      ensures Valid() && Contents == Unpost(old(Contents), p) && Contents.Keys == old(Contents).Keys
      ensures fresh(Repr - old(Repr))
    {
      AddOutput(Source(p), -p.amount);
      ghost var now := Repr;
      AddInput(Destination(p), -p.amount);
      GrowsTwice(old(Repr), now, Repr);
    }

    // No integer of one map is, under another key, an integer of the other.
    ghost predicate Apart(entries: map<Key, Entry>)
      reads this
    {
      forall k, l :: k in m && l in entries && k != l ==> m[k] != entries[l]
    }

    // Adds the other volumes in place and returns the receiver. The two may share integers
    // key by key, and may be the same map, whose volumes are then doubled.
    method Merge(volumes: PostCommitVolumes) returns (r: PostCommitVolumes)
      requires Valid() && volumes.Valid() && Apart(volumes.m)
      modifies this, Repr
      ensures r == this && Valid()
      ensures Contents == Merged(old(Contents), old(volumes.Contents))
      ensures volumes != this && old(Repr) !! old(volumes.Repr) ==>
                volumes.Valid() && volumes.Contents == old(volumes.Contents)
      ensures fresh(Repr - old(Repr))
    {
      ghost var b := volumes.Contents;
      MergeAll(volumes.m, b);
      r := this;
    }

    // The loop of Merge, over the entries of the other map.
    method MergeAll(entries: map<Key, Entry>, ghost b: VolumeMap)
      requires Valid() && Apart(entries) && Holds(entries, entries.Keys, b) && b.Keys == entries.Keys
      modifies this, Repr
      ensures Valid() && Contents == Merged(old(Contents), b)
      ensures fresh(Repr - old(Repr))
    {
      ghost var a := Contents;
      var todo := entries.Keys;
      while todo != {}
        invariant Valid() && fresh(Repr - old(Repr))
        invariant Apart(entries) && Holds(entries, todo, b)
        invariant Contents == Merged(a, b - todo)
        decreases todo
      {
        var k :| k in todo;
        ghost var now := Repr;
        MergeNext(entries, k, todo, a, b);
        GrowsTwice(old(Repr), now, Repr);
        todo := todo - {k};
      }
      NothingLeft(b);
    }

    // One turn of the loop: the entries that are still to come keep their values.
    method MergeNext(entries: map<Key, Entry>, k: Key, ghost todo: set<Key>, ghost a: VolumeMap, ghost b: VolumeMap)
      requires Valid() && Apart(entries) && Holds(entries, todo, b) && k in todo
      requires Contents == Merged(a, b - todo)
      modifies this, Repr
      ensures Valid() && Apart(entries) && Holds(entries, todo - {k}, b)
      ensures Contents == Merged(a, b - (todo - {k}))
      ensures fresh(Repr - old(Repr))
    {
      MergedOneMore(a, b, todo, k);
      var e := entries[k];
      ghost var was := m;
      MergeEntry(k, e.input, e.output);
      forall l | l in todo - {k}
        ensures b[l] == Volumes(entries[l].input, entries[l].output)
      {
        assert k in was ==> entries[l] != was[k];
        assert entries[l] !in old(Repr) ==> unchanged(entries[l]);
      }
    }

    // The integers of an entry that was there are updated in place; no others are.
    method MergeEntry(k: Key, input: int, output: int)
      requires Valid()
      modifies this, Repr
      ensures Valid() && Contents == Add(old(Contents), k, input, output)
      ensures fresh(Repr - old(Repr))
      ensures k in old(m) ==> m == old(m)
      ensures k !in old(m) ==> k in m && fresh(m[k]) && m == old(m)[k := m[k]]
      ensures forall e :: e in old(Repr) && (k in old(m) ==> e != old(m)[k]) ==>
                e.input == old(e.input) && e.output == old(e.output)
    {
      if k in m {
        AddInPlace(k, input, output);
      } else {
        MergeNew(k, input, output);
      }
    }

    method MergeNew(k: Key, input: int, output: int)
      requires Valid() && k !in m
      modifies this
      ensures Valid() && Contents == Add(old(Contents), k, input, output)
      ensures fresh(Repr - old(Repr))
      ensures k in m && fresh(m[k]) && m == old(m)[k := m[k]]
    {
      AddToNew(Contents, k, input, output);
      Set(k, 0, 0);
      AddInPlace(k, input, output);
    }

    method AddInPlace(k: Key, input: int, output: int)
      requires Valid() && k in m
      modifies this`Contents, m[k]
      ensures Valid() && Contents == Add(old(Contents), k, input, output)
    {
      m[k].input := m[k].input + input;
      m[k].output := m[k].output + output;
      Contents := Add(Contents, k, input, output);
    }
  }
}
