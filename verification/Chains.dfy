/** Facts about chains of clusters in the cluster map. */
module Chains {
  import opened Layout
  import opened Disk
  import opened FatState

  predicate Ascending(chain: seq<nat>) {
    forall i, j :: 0 <= i < j < |chain| ==> chain[i] < chain[j]
  }

  /** Every cluster of the chain holds the next one, the last one ends the file. */
  predicate Linked(w: Words, chain: seq<nat>)
    requires Within(chain, 0, WORDS)
  {
    forall i {:trigger w[chain[i]]} :: 0 <= i < |chain| ==> w[chain[i]] == if i + 1 == |chain| then END_OF_FILE else chain[i + 1]
  }

  /** No word along a linked chain of mapped clusters is empty. */
  lemma LinkedIsUsed(w: Words, chain: seq<nat>, c: nat)
    requires Within(chain, 1, WORDS) && Linked(w, chain) && c in chain
    ensures w[c] != EMPTY
  {
    var i :| 0 <= i < |chain| && chain[i] == c;
    assert w[chain[i]] == if i + 1 == |chain| then END_OF_FILE else chain[i + 1];
  }

  lemma {:induction false} ThreadAt(w: Words, chain: seq<nat>)
    requires Ascending(chain) && Within(chain, 0, WORDS)
    ensures Linked(Thread(w, chain), chain)
    ensures forall c :: 0 <= c < WORDS && c !in chain ==> Thread(w, chain)[c] == w[c]
  {
    if chain != [] {
      var rest := chain[1..];
      ThreadAt(w, rest);
      var t, u := Thread(w, rest), Thread(w, chain);
      forall i | 0 <= i < |chain|
        ensures u[chain[i]] == if i + 1 == |chain| then END_OF_FILE else chain[i + 1]
      {
        if i > 0 {
          assert rest[i - 1] == chain[i];
          assert u[chain[i]] == t[rest[i - 1]];
        }
      }
    }
  }

  lemma {:induction false} UnthreadAt(w: Words, chain: seq<nat>)
    requires Within(chain, 0, WORDS)
    ensures forall c :: 0 <= c < WORDS ==> Unthread(w, chain)[c] == if c in chain then EMPTY else w[c]
  {
    if chain != [] {
      UnthreadAt(w, chain[1..]);
    }
  }

  lemma {:induction false} StoreAt(d: Clusters, chain: seq<nat>, parts: seq<Cluster>)
    requires |chain| == |parts| && Ascending(chain) && Within(chain, 0, DISK_CLUSTERS)
    ensures forall i :: 0 <= i < |chain| ==> Store(d, chain, parts)[chain[i]] == parts[i]
    ensures forall c :: 0 <= c < DISK_CLUSTERS && c !in chain ==> Store(d, chain, parts)[c] == d[c]
  {
    if chain != [] {
      var rest := chain[1..];
      StoreAt(d, rest, parts[1..]);
      var t, u := Store(d, rest, parts[1..]), Store(d, chain, parts);
      forall i | 0 <= i < |chain|
        ensures u[chain[i]] == parts[i]
      {
        if i > 0 {
          assert u[chain[i]] == t[rest[i - 1]];
        }
      }
    }
  }

  /** A linked list of clusters is what following the map from its first cluster finds. */
  lemma {:induction false} LinkedIsChain(w: Words, chain: seq<nat>)
    requires chain != [] && Ascending(chain) && Within(chain, 0, MAP_SIZE) && Linked(w, chain)
    ensures Chain(w, chain[0]) == chain
  {
    if |chain| > 1 {
      var rest := chain[1..];
      assert w[chain[0]] == chain[1];
      forall i | 0 <= i < |rest|
        ensures w[rest[i]] == if i + 1 == |rest| then END_OF_FILE else rest[i + 1]
      {
        assert w[chain[i + 1]] == if i + 2 == |chain| then END_OF_FILE else chain[i + 2];
      }
      LinkedIsChain(w, rest);
    }
  }

  lemma {:induction false} ChainAscends(w: Words, c: nat)
    ensures Ascending(Chain(w, c))
    decreases MAP_SIZE - c
  {
    if c < MAP_SIZE && w[c] != END_OF_FILE && c < w[c] < MAP_SIZE {
      ChainAscends(w, w[c]);
    }
  }

  predicate StepsUp(w: Words, c: nat)
    requires c < WORDS
  {
    w[c] != END_OF_FILE && c < w[c] < MAP_SIZE
  }

  /** Along a chain each word holds the next cluster; the chain stops where no step up is left. */
  lemma {:induction false} ChainSteps(w: Words, c: nat)
    requires c < MAP_SIZE
    ensures var chain := Chain(w, c);
      && (forall i :: 0 <= i < |chain| - 1 ==> w[chain[i]] == chain[i + 1])
      && !StepsUp(w, chain[|chain| - 1])
    decreases MAP_SIZE - c
  {
    if StepsUp(w, c) {
      ChainSteps(w, w[c]);
      var chain, rest := Chain(w, c), Chain(w, w[c]);
      forall i | 0 <= i < |chain| - 1
        ensures w[chain[i]] == chain[i + 1]
      {
        if i > 0 {
          assert chain[i] == rest[i - 1] && chain[i + 1] == rest[i];
        }
      }
    }
  }

  /** Changing the map away from a chain does not change the chain. */
  lemma {:induction false} ChainFrame(w: Words, v: Words, c: nat)
    requires c < MAP_SIZE
    requires forall x :: x in Chain(w, c) ==> v[x] == w[x]
    ensures Chain(v, c) == Chain(w, c)
    decreases MAP_SIZE - c
  {
    assert Chain(w, c)[0] == c;
    if w[c] != END_OF_FILE && c < w[c] < MAP_SIZE {
      forall x | x in Chain(w, w[c])
        ensures v[x] == w[x]
      {
        assert x in [c] + Chain(w, w[c]);
      }
      ChainFrame(w, v, w[c]);
    }
  }

  lemma {:induction false} ContentsFrame(d: Clusters, e: Clusters, chain: seq<nat>)
    requires Within(chain, 0, DISK_CLUSTERS)
    requires forall i :: 0 <= i < |chain| ==> e[chain[i]] == d[chain[i]]
    ensures Contents(e, chain) == Contents(d, chain)
  {
    if chain != [] {
      ContentsFrame(d, e, chain[1..]);
    }
  }

  lemma {:induction false} ContentsAreParts(d: Clusters, chain: seq<nat>, parts: seq<Cluster>)
    requires |chain| == |parts| && Within(chain, 0, DISK_CLUSTERS)
    requires forall i :: 0 <= i < |chain| ==> d[chain[i]] == parts[i]
    ensures Contents(d, chain) == Join(parts)
  {
    if chain != [] {
      forall i | 0 <= i < |chain[1..]|
        ensures d[chain[1..][i]] == parts[1..][i]
      {
        assert d[chain[i + 1]] == parts[i + 1];
      }
      ContentsAreParts(d, chain[1..], parts[1..]);
    }
  }

  /** Cutting a buffer and joining the parts gives the buffer back. */
  lemma {:induction false} JoinOfSplit(buf: seq<byte>, n: nat)
    requires |buf| >= CLUSTER_SIZE * n
    ensures Join(Split(buf, n)) == buf[..CLUSTER_SIZE * n]
  {
    if n > 0 {
      JoinOfSplit(buf[CLUSTER_SIZE..], n - 1);
      assert buf[..CLUSTER_SIZE] + buf[CLUSTER_SIZE..][..CLUSTER_SIZE * (n - 1)] == buf[..CLUSTER_SIZE * n];
    }
  }

  /** Part j of a buffer is its j-th run of a cluster's length. */
  lemma {:induction false} SplitAt(buf: seq<byte>, n: nat, j: nat)
    requires |buf| >= CLUSTER_SIZE * n && j < n
    ensures Split(buf, n)[j] == buf[CLUSTER_SIZE * j..CLUSTER_SIZE * j + CLUSTER_SIZE]
  {
    if j > 0 {
      SplitAt(buf[CLUSTER_SIZE..], n - 1, j - 1);
      assert buf[CLUSTER_SIZE..][CLUSTER_SIZE * (j - 1)..CLUSTER_SIZE * (j - 1) + CLUSTER_SIZE]
          == buf[CLUSTER_SIZE * j..CLUSTER_SIZE * j + CLUSTER_SIZE];
    }
  }

  // ---- What the allocation scan picks ----

  /** The picked words are free ones, in increasing order. */
  lemma {:induction false} PicksAreFree(w: Words, i: nat, n: nat)
    requires i <= WORDS
    ensures Ascending(Picks(w, i, n))
    ensures forall k :: 0 <= k < |Picks(w, i, n)| ==> w[Picks(w, i, n)[k]] == EMPTY
    decreases n
  {
    var j := FirstFree(w, i, WORDS);
    if n != 0 && j != WORDS {
      PicksAreFree(w, j + 1, n - 1);
    }
  }

  /** All of the chain lies before c. */
  predicate Before(chain: seq<nat>, c: nat) { forall k :: 0 <= k < |chain| ==> chain[k] < c }

  /** And they are the first: a free word that is not picked lies behind all of them. */
  lemma {:induction false} PicksAreFirst(w: Words, i: nat, n: nat, c: nat)
    requires i <= c < WORDS && w[c] == EMPTY && c !in Picks(w, i, n)
    ensures |Picks(w, i, n)| == n && Before(Picks(w, i, n), c)
    decreases n
  {
    var j := FirstFree(w, i, WORDS);
    if n != 0 && j != WORDS {
      var chain, rest := Picks(w, i, n), Picks(w, j + 1, n - 1);
      assert chain[0] == j && chain[1..] == rest;
      PicksAreFirst(w, j + 1, n - 1, c);
      forall k | 0 <= k < |chain|
        ensures chain[k] < c
      {
        if k > 0 {
          assert chain[k] == rest[k - 1];
        }
      }
    }
  }

  lemma {:induction false} CountSplit(w: seq<word>, i: nat, m: nat, n: nat)
    requires i <= m <= n <= |w|
    ensures CountFree(w, i, n) == CountFree(w, i, m) + CountFree(w, m, n)
    decreases m - i
  {
    if i < m {
      CountSplit(w, i + 1, m, n);
    }
  }

  lemma {:induction false} NoneCounted(w: Words, i: nat, n: nat)
    requires i <= n <= WORDS && forall c :: i <= c < n ==> w[c] != EMPTY
    ensures CountFree(w, i, n) == 0
    decreases n - i
  {
    if i < n {
      NoneCounted(w, i + 1, n);
    }
  }

  lemma OneFreeLess(w: Words, i: nat, n: nat)
    requires i <= n <= WORDS && FirstFree(w, i, WORDS) < n
    ensures CountFree(w, i, n) == 1 + CountFree(w, FirstFree(w, i, WORDS) + 1, n)
  {
    var j := FirstFree(w, i, WORDS);
    CountSplit(w, i, j, n);
    NoneCounted(w, i, j);
  }

  lemma WithinMore(j: nat, rest: seq<nat>, i: nat)
    requires i <= j < MAP_SIZE && Within(rest, j + 1, WORDS)
    ensures Within([j] + rest, i, MAP_SIZE) <==> Within(rest, j + 1, MAP_SIZE)
  {
    var chain := [j] + rest;
    if Within(chain, i, MAP_SIZE) {
      forall k | 0 <= k < |rest|
        ensures j + 1 <= rest[k] < MAP_SIZE
      {
        assert chain[k + 1] == rest[k];
      }
    }
  }

  /** The word behind the map is picked only when the map itself has run out. */
  lemma {:induction false} PicksStayInside(w: Words, i: nat, n: nat)
    requires i <= MAP_SIZE && n <= CountFree(w, i, WORDS)
    ensures Within(Picks(w, i, n), i, MAP_SIZE) <==> n <= CountFree(w, i, MAP_SIZE)
    ensures n > CountFree(w, i, MAP_SIZE) ==> |Picks(w, i, n)| == n && Picks(w, i, n)[n - 1] == MAP_SIZE
    decreases n
  {
    var j := FirstFree(w, i, WORDS);
    if n != 0 && j < MAP_SIZE {
      OneFreeLess(w, i, MAP_SIZE);
      OneFreeLess(w, i, WORDS);
      PicksStayInside(w, j + 1, n - 1);
      WithinMore(j, Picks(w, j + 1, n - 1), i);
    } else if n != 0 {
      NoneCounted(w, i, MAP_SIZE);
      CountSplit(w, i, MAP_SIZE, WORDS);
      assert CountFree(w, MAP_SIZE, WORDS) == 1 && Picks(w, i, n)[0] == MAP_SIZE;
    }
  }
}
