// Volumes over whole histories of transactions.
module VolumeHistory {
  import opened Postings
  import opened PostCommitVolumesModel

  // The volumes after a history: each transaction's updates merged in turn.
  function After(history: seq<seq<Posting>>): VolumeMap {
    if history == [] then map[]
    else Merged(After(history[..|history| - 1]), PostAll(map[], history[|history| - 1]))
  }

  function AllPostings(history: seq<seq<Posting>>): seq<Posting> {
    if history == [] then []
    else AllPostings(history[..|history| - 1]) + history[|history| - 1]
  }

  lemma {:induction false} MapsAgree(a: VolumeMap, b: VolumeMap)
    requires forall k :: k in a <==> k in b
    requires forall k :: Get(a, k) == Get(b, k)
    ensures a == b
  {
    forall k | k in a
      ensures a[k] == b[k]
    {
      assert Get(a, k) == Get(b, k);
    }
  }

  // Merging the summed updates of a transaction is posting its postings one by one.
  lemma {:induction false} MergeIsPosting(m: VolumeMap, ps: seq<Posting>)
    ensures Merged(m, PostAll(map[], ps)) == PostAll(m, ps)
  {
    var a, b := Merged(m, PostAll(map[], ps)), PostAll(m, ps);
    forall k
      ensures (k in a <==> k in b) && Get(a, k) == Get(b, k)
    {
      PostAllSums(m, ps, k);
      PostAllSums(map[], ps, k);
    }
    MapsAgree(a, b);
  }

  lemma {:induction false} PostAllConcat(m: VolumeMap, ps: seq<Posting>, qs: seq<Posting>)
    ensures PostAll(m, ps + qs) == PostAll(PostAll(m, ps), qs)
    decreases |ps|
  {
    if ps == [] {
      assert ps + qs == qs;
    } else {
      assert (ps + qs)[1..] == ps[1..] + qs;
      PostAllConcat(Post(m, ps[0]), ps[1..], qs);
    }
  }

  // Merging transaction by transaction is posting all the postings ever made.
  lemma {:induction false} AfterIsPosting(history: seq<seq<Posting>>)
    ensures After(history) == PostAll(map[], AllPostings(history))
  {
    if history != [] {
      var before, last := history[..|history| - 1], history[|history| - 1];
      AfterIsPosting(before);
      MergeIsPosting(After(before), last);
      PostAllConcat(map[], AllPostings(before), last);
    }
  }

  // At every step, per asset, total inputs equal total outputs, over any listing of
  // the keys of the volumes map.
  lemma {:induction false} HistoryConserves(history: seq<seq<Posting>>, ks: seq<Key>, asset: string)
    requires NoDuplicates(ks) && forall k :: k in ks <==> k in After(history)
    ensures SumInputs(ks, After(history), asset) == SumOutputs(ks, After(history), asset)
            == Amounts(AllPostings(history), asset)
  {
    var ps := AllPostings(history);
    AfterIsPosting(history);
    forall p | p in ps
      ensures Source(p) in ks && Destination(p) in ks
    {
      assert Touches(p, Source(p)) && Touches(p, Destination(p));
      PostAllSums(map[], ps, Source(p));
      PostAllSums(map[], ps, Destination(p));
    }
    Conservation(ks, map[], ps, asset);
    SumsOfNothing(ks, asset);
  }

  // Undo.

  lemma {:induction false} UnpostAllSums(m: VolumeMap, ps: seq<Posting>, k: Key)
    ensures k in UnpostAll(m, ps) <==> k in m || Touched(ps, k)
    ensures Get(UnpostAll(m, ps), k) == Volumes(Get(m, k).input - Inputs(ps, k), Get(m, k).output - Outputs(ps, k))
    decreases |ps|
  {
    if ps != [] {
      UnpostAllSums(Unpost(m, ps[0]), ps[1..], k);
      assert Touched(ps, k) <==> Touches(ps[0], k) || Touched(ps[1..], k) by {
        assert forall p :: p in ps <==> p == ps[0] || p in ps[1..];
      }
    }
  }

  lemma {:induction false} MergedCoversPostings(before: VolumeMap, ps: seq<Posting>)
    ensures Covers(Merged(before, PostAll(map[], ps)), ps)
  {
    MergeIsPosting(before, ps);
    forall p | p in ps
      ensures Source(p) in PostAll(before, ps) && Destination(p) in PostAll(before, ps)
    {
      assert Touches(p, Source(p)) && Touches(p, Destination(p));
      PostAllSums(before, ps, Source(p));
      PostAllSums(before, ps, Destination(p));
    }
  }

  // Subtracting a transaction's postings from the merged volumes gives back the
  // previous volumes of every key, an absent key counting as zero.
  lemma {:induction false} SubtractUndoesMerge(before: VolumeMap, ps: seq<Posting>, k: Key)
    ensures Covers(Merged(before, PostAll(map[], ps)), ps)
    ensures Get(UnpostAll(Merged(before, PostAll(map[], ps)), ps), k) == Get(before, k)
  {
    MergedCoversPostings(before, ps);
    MergeIsPosting(before, ps);
    PostAllSums(before, ps, k);
    UnpostAllSums(PostAll(before, ps), ps, k);
  }

  // A transaction carries the post-commit volumes of the keys it touches only. Any
  // part of the volumes that covers its postings is enough to recover the pre-commit
  // volumes of the keys in it.
  lemma {:induction false} PreCommitVolumes(before: VolumeMap, ps: seq<Posting>, post: VolumeMap, k: Key)
    requires Covers(post, ps) && k in post
    requires post[k] == Get(Merged(before, PostAll(map[], ps)), k)
    ensures k in UnpostAll(post, ps) && UnpostAll(post, ps)[k] == Get(before, k)
  {
    MergedSums(before, ps, Merged(before, PostAll(map[], ps)), k);
    UnpostAllSums(post, ps, k);
    assert Get(UnpostAll(post, ps), k) == Get(before, k);
  }

  lemma {:induction false} MergedSums(before: VolumeMap, ps: seq<Posting>, all: VolumeMap, k: Key)
    requires all == Merged(before, PostAll(map[], ps))
    ensures Get(all, k) == Volumes(Get(before, k).input + Inputs(ps, k), Get(before, k).output + Outputs(ps, k))
  {
    MergeIsPosting(before, ps);
    PostAllSums(before, ps, k);
  }
}
