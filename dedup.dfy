/**
 * `Library::deduplicate`: a stable filter over the learnt facts that keeps the
 * first fact of every hash value. The hash is an arbitrary function, so two
 * different facts with the same hash count as duplicates.
 */
module Deduplication {
  /** The hash values occurring in `s`. */
  function Hashes<T>(s: seq<T>, hash: T -> int): set<int>
  {
    set i | 0 <= i < |s| :: hash(s[i])
  }

  /** Keep `s`'s last fact unless its hash already occurs before it. */
  function Dedup<T>(s: seq<T>, hash: T -> int): seq<T>
  {
    if s == [] then []
    else
      var init := s[..|s| - 1];
      if hash(s[|s| - 1]) in Hashes(init, hash) then Dedup(init, hash) else Dedup(init, hash) + [s[|s| - 1]]
  }

  /** No two facts share a hash value. */
  predicate DistinctHashes<T>(s: seq<T>, hash: T -> int)
  {
    forall i, j :: 0 <= i < j < |s| ==> hash(s[i]) != hash(s[j])
  }

  /** Index `i` holds the first fact of `s` with its hash value. */
  predicate FirstOfHash<T>(s: seq<T>, hash: T -> int, i: nat)
    requires i < |s|
  {
    forall j :: 0 <= j < i ==> hash(s[j]) != hash(s[i])
  }

  /** The loop of `deduplicate`, with the hash set as a set of integers. */
  method Deduplicate<T>(learnt: seq<T>, hash: T -> int) returns (dedup: seq<T>)
    ensures dedup == Dedup(learnt, hash)
  {
    dedup := [];
    var seen: set<int> := {};
    for i := 0 to |learnt|
      invariant dedup == Dedup(learnt[..i], hash)
      invariant seen == Hashes(learnt[..i], hash)
    {
      var p := learnt[i];
      assert learnt[..i + 1][..i] == learnt[..i];
      HashesSnoc(learnt[..i], p, hash);
      assert learnt[..i + 1] == learnt[..i] + [p];
      if hash(p) !in seen {
        seen := seen + {hash(p)};
        dedup := dedup + [p];
      }
    }
    assert learnt[..|learnt|] == learnt;
  }

  lemma HashesSnoc<T>(s: seq<T>, x: T, hash: T -> int)
    ensures Hashes(s + [x], hash) == Hashes(s, hash) + {hash(x)}
  {
    var t := s + [x];
    forall h | h in Hashes(t, hash)
      ensures h in Hashes(s, hash) + {hash(x)}
    {
      var i :| 0 <= i < |t| && hash(t[i]) == h;
      if i < |s| {
        assert t[i] == s[i];
      }
    }
    forall h | h in Hashes(s, hash)
      ensures h in Hashes(t, hash)
    {
      var i :| 0 <= i < |s| && hash(s[i]) == h;
      assert t[i] == s[i];
    }
    assert t[|s|] == x;
  }

  /** The output is never longer than the input. */
  lemma {:induction false} DedupLength<T>(s: seq<T>, hash: T -> int)
    ensures |Dedup(s, hash)| <= |s|
  {
    if s != [] {
      DedupLength(s[..|s| - 1], hash);
    }
  }

  /** Every input hash value occurs in the output, and no other. */
  lemma {:induction false} DedupHashes<T>(s: seq<T>, hash: T -> int)
    ensures Hashes(Dedup(s, hash), hash) == Hashes(s, hash)
  {
    if s != [] {
      var init, x := s[..|s| - 1], s[|s| - 1];
      DedupHashes(init, hash);
      HashesSnoc(init, x, hash);
      assert s == init + [x];
      if hash(x) !in Hashes(init, hash) {
        HashesSnoc(Dedup(init, hash), x, hash);
      }
    }
  }

  /** Every hash value occurs in the output at most once. */
  lemma {:induction false} DedupDistinct<T>(s: seq<T>, hash: T -> int)
    ensures DistinctHashes(Dedup(s, hash), hash)
  {
    if s != [] {
      var init, x := s[..|s| - 1], s[|s| - 1];
      DedupDistinct(init, hash);
      DedupHashes(init, hash);
      var d := Dedup(init, hash);
      if hash(x) !in Hashes(init, hash) {
        forall i | 0 <= i < |d|
          ensures hash(d[i]) != hash(x)
        {
          assert hash(d[i]) in Hashes(d, hash);
        }
      }
    }
  }

  /** A list whose hash values are distinct is left as it is. */
  lemma {:induction false} DedupDistinctUnchanged<T>(s: seq<T>, hash: T -> int)
    requires DistinctHashes(s, hash)
    ensures Dedup(s, hash) == s
  {
    if s != [] {
      var init, x := s[..|s| - 1], s[|s| - 1];
      DedupDistinctUnchanged(init, hash);
      forall i | 0 <= i < |init|
        ensures hash(init[i]) != hash(x)
      {
        assert init[i] == s[i];
      }
      assert s == init + [x];
    }
  }

  /** Deduplicating twice is the same as deduplicating once. */
  lemma DedupIdempotent<T>(s: seq<T>, hash: T -> int)
    ensures Dedup(Dedup(s, hash), hash) == Dedup(s, hash)
  {
    DedupDistinct(s, hash);
    DedupDistinctUnchanged(Dedup(s, hash), hash);
  }

  /**
   * The output is the subsequence of the input made of the first fact of every
   * hash value: `idx` lists, in increasing order, the positions it was taken
   * from, every one of them is first of its hash, and every first-of-hash
   * position is among them.
   */
  lemma {:induction false} DedupKeepsFirst<T>(s: seq<T>, hash: T -> int) returns (idx: seq<nat>)
    ensures |idx| == |Dedup(s, hash)|
    ensures forall k :: 0 <= k < |idx| ==> idx[k] < |s| && Dedup(s, hash)[k] == s[idx[k]] && FirstOfHash(s, hash, idx[k])
    ensures forall k, m :: 0 <= k < m < |idx| ==> idx[k] < idx[m]
    ensures forall i :: 0 <= i < |s| && FirstOfHash(s, hash, i) ==> i in idx
  {
    if s == [] {
      idx := [];
    } else {
      var n := |s| - 1;
      var init, x := s[..n], s[n];
      var prev := DedupKeepsFirst(init, hash);
      forall k | 0 <= k < |prev|
        ensures FirstOfHash(s, hash, prev[k])
      {
        assert FirstOfHash(init, hash, prev[k]);
        assert forall j :: 0 <= j <= prev[k] ==> s[j] == init[j];
      }
      forall i | 0 <= i < n && FirstOfHash(s, hash, i)
        ensures i in prev
      {
        assert forall j :: 0 <= j <= i ==> s[j] == init[j];
        assert FirstOfHash(init, hash, i);
      }
      if hash(x) in Hashes(init, hash) {
        idx := prev;
        var j :| 0 <= j < |init| && hash(init[j]) == hash(x);
        assert s[j] == init[j];
        assert !FirstOfHash(s, hash, n);
      } else {
        idx := prev + [n];
        forall j | 0 <= j < n
          ensures hash(s[j]) != hash(x)
        {
          assert s[j] == init[j];
          assert hash(init[j]) in Hashes(init, hash);
        }
      }
    }
  }
}
