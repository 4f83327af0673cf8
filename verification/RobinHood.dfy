/** Open addressing with Robin Hood displacement and backward-shift removal. One
    local invariant carries every proof: walking forward, an entry's displacement
    grows by at most one per bucket, an empty bucket counting as minus one. */
module RobinHood {

  /** hash == 0 marks the bucket empty, whatever the other fields still hold. */
  datatype Bucket<K> = Bucket(hash: nat, idx: nat, key: K)

  /** A tag entry carries no key: its hash is the tag. */
  type TagEntry = Bucket<()>

  predicate Full<K>(b: Bucket<K>) {
    b.hash != 0
  }

  // --- Positions on the ring ---

  function At(home: nat, j: nat, cap: nat): (p: nat)
    requires cap > 0
    ensures p < cap
  {
    (home + j) % cap
  }

  function Succ(p: nat, cap: nat): (q: nat)
    requires p < cap
    ensures q < cap
  {
    if p + 1 == cap then 0 else p + 1
  }

  function Pred(p: nat, cap: nat): (q: nat)
    requires p < cap
    ensures q < cap
  {
    if p == 0 then cap - 1 else p - 1
  }

  /** Buckets from a forward to b. */
  function Gap(a: nat, b: nat, cap: nat): (g: nat)
    requires a < cap && b < cap
    ensures g < cap
  {
    if a <= b then b - a else b + cap - a
  }

  function Home(hash: nat, cap: nat): (h: nat)
    requires cap > 0
    ensures h < cap
  {
    hash % cap
  }

  /** How far an entry sits from its ideal bucket. */
  function Dist(hash: nat, p: nat, cap: nat): (d: nat)
    requires p < cap
    ensures d < cap
  {
    Gap(Home(hash, cap), p, cap)
  }

  /** The source masks an unsigned difference; on a power of two that is Dist. */
  lemma {:induction false} DistIsMasked(hash: nat, p: nat, cap: nat)
    requires p < cap
    ensures Dist(hash, p, cap) == (p - Home(hash, cap)) % cap
  {
    var h := Home(hash, cap);
    if h > p {
      assert p - h == (p + cap - h) + cap * -1;
      assert (p - h) % cap == p + cap - h;
    }
  }

  lemma {:induction false} AtSmall(home: nat, j: nat, cap: nat)
    requires home < cap && j < cap
    ensures At(home, j, cap) == if home + j < cap then home + j else home + j - cap
  {
  }

  lemma {:induction false} AtGap(home: nat, p: nat, cap: nat)
    requires home < cap && p < cap
    ensures At(home, Gap(home, p, cap), cap) == p
  {
    AtSmall(home, Gap(home, p, cap), cap);
  }

  lemma {:induction false} GapAt(home: nat, j: nat, cap: nat)
    requires home < cap && j < cap
    ensures Gap(home, At(home, j, cap), cap) == j
    ensures j + 1 < cap ==> Succ(At(home, j, cap), cap) == At(home, j + 1, cap)
  {
    AtSmall(home, j, cap);
    if j + 1 < cap {
      AtSmall(home, j + 1, cap);
    }
  }

  // --- The invariant ---

  /** Displacement, with an empty bucket below every entry. */
  function Disp<K>(s: seq<Bucket<K>>, p: nat): (r: int)
    requires p < |s|
  {
    if s[p].hash == 0 then -1 else Dist(s[p].hash, p, |s|)
  }

  ghost predicate Ordered<K>(s: seq<Bucket<K>>) {
    forall p: nat :: p < |s| ==> Disp(s, Succ(p, |s|)) <= Disp(s, p) + 1
  }

  ghost predicate Vacant<K>(s: seq<Bucket<K>>, e: nat) {
    e < |s| && s[e].hash == 0
  }

  /** Displacement never outgrows the distance to the last empty bucket. */
  lemma {:induction false} DispBelowGap<K>(s: seq<Bucket<K>>, e: nat, p: nat)
    requires Ordered(s) && Vacant(s, e) && p < |s|
    ensures Disp(s, p) <= Gap(e, p, |s|) - 1
    decreases Gap(e, p, |s|)
  {
    if p != e {
      var q := Pred(p, |s|);
      DispBelowGap(s, e, q);
      assert Succ(q, |s|) == p;
    }
  }

  /** Between its ideal bucket and its own, every entry is at least as displaced as
      the probe that passes it. */
  lemma {:induction false} ProbePath<K>(s: seq<Bucket<K>>, hash: nat, q: nat, j: nat)
    requires Ordered(s) && q < |s|
    requires s[q].hash == hash != 0
    requires j <= Dist(hash, q, |s|)
    ensures Disp(s, At(Home(hash, |s|), j, |s|)) >= j
    decreases Dist(hash, q, |s|) - j
  {
    var home := Home(hash, |s|);
    if j == Dist(hash, q, |s|) {
      AtGap(home, q, |s|);
    } else {
      ProbePath(s, hash, q, j + 1);
      GapAt(home, j, |s|);
      assert Disp(s, Succ(At(home, j, |s|), |s|)) <= Disp(s, At(home, j, |s|)) + 1;
    }
  }

  // --- Contents ---

  ghost function Bag<K>(b: Bucket<K>): (r: multiset<Bucket<K>>) {
    if Full(b) then multiset{b} else multiset{}
  }

  ghost function ContentsTo<K>(s: seq<Bucket<K>>, n: nat): (r: multiset<Bucket<K>>)
    requires n <= |s|
  {
    if n == 0 then multiset{} else ContentsTo(s, n - 1) + Bag(s[n - 1])
  }

  /** The entries the index holds. */
  ghost function Contents<K>(s: seq<Bucket<K>>): (r: multiset<Bucket<K>>) {
    ContentsTo(s, |s|)
  }

  lemma {:induction false} AddBoth<T>(x: multiset<T>, a: multiset<T>, y: multiset<T>, b: multiset<T>, last: multiset<T>)
    requires x + a == y + b
    ensures x + last + a == y + last + b
  {
    assert x + last + a == x + a + last;
    assert y + last + b == y + b + last;
  }

  lemma {:induction false} Exchange<T>(x: multiset<T>, a: multiset<T>, b: multiset<T>)
    ensures x + a + b == x + b + a
  {
  }

  lemma {:induction false} ContentsUpdateTo<K>(s: seq<Bucket<K>>, p: nat, b: Bucket<K>, n: nat)
    requires p < |s| && n <= |s|
    ensures p < n ==> ContentsTo(s[p := b], n) + Bag(s[p]) == ContentsTo(s, n) + Bag(b)
    ensures p >= n ==> ContentsTo(s[p := b], n) == ContentsTo(s, n)
  {
    if n > 0 {
      ContentsUpdateTo(s, p, b, n - 1);
      if p < n - 1 {
        AddBoth(ContentsTo(s[p := b], n - 1), Bag(s[p]), ContentsTo(s, n - 1), Bag(b), Bag(s[n - 1]));
      } else if p == n - 1 {
        Exchange(ContentsTo(s, n - 1), Bag(b), Bag(s[p]));
      }
    }
  }

  lemma {:induction false} ContentsUpdate<K>(s: seq<Bucket<K>>, p: nat, b: Bucket<K>)
    requires p < |s|
    ensures Contents(s[p := b]) + Bag(s[p]) == Contents(s) + Bag(b)
  {
    ContentsUpdateTo(s, p, b, |s|);
  }

  lemma {:induction false} InContentsTo<K>(s: seq<Bucket<K>>, b: Bucket<K>, n: nat)
    requires n <= |s|
    ensures b in ContentsTo(s, n) ==> exists p :: 0 <= p < n && s[p] == b && Full(b)
    ensures forall p :: 0 <= p < n && Full(s[p]) ==> s[p] in ContentsTo(s, n)
  {
    if n > 0 {
      InContentsTo(s, b, n - 1);
      if b in ContentsTo(s, n) && b !in ContentsTo(s, n - 1) {
        assert b in Bag(s[n - 1]);
        assert s[n - 1] == b && Full(b);
      }
    }
  }

  lemma {:induction false} InContents<K>(s: seq<Bucket<K>>, b: Bucket<K>)
    ensures b in Contents(s) ==> exists p :: 0 <= p < |s| && s[p] == b && Full(b)
    ensures forall p :: 0 <= p < |s| && Full(s[p]) ==> s[p] in Contents(s)
  {
    InContentsTo(s, b, |s|);
  }

  lemma {:induction false} FullTo<K>(s: seq<Bucket<K>>, n: nat)
    requires n <= |s|
    ensures |ContentsTo(s, n)| <= n
    ensures (forall p :: 0 <= p < n ==> Full(s[p])) ==> |ContentsTo(s, n)| == n
  {
    if n > 0 {
      FullTo(s, n - 1);
    }
  }

  /** Fewer entries than buckets leaves an empty one. */
  lemma {:induction false} SomeVacant<K>(s: seq<Bucket<K>>) returns (e: nat)
    requires |Contents(s)| < |s|
    ensures Vacant(s, e)
  {
    FullTo(s, |s|);
    e :| 0 <= e < |s| && !Full(s[e]);
  }

  // --- One step of each loop, on values ---

  /** Where a carried entry may be dropped: the bucket before it is displaced at
      least as far, less one. */
  ghost predicate Fits<K>(s: seq<Bucket<K>>, p: nat, dist: int)
    requires p < |s|
  {
    dist == 0 || Disp(s, Pred(p, |s|)) >= dist - 1
  }

  lemma {:induction false} PlaceKeeps<K>(s: seq<Bucket<K>>, p: nat, b: Bucket<K>)
    requires Ordered(s) && p < |s| && |s| > 1
    requires Full(b) && Fits(s, p, Dist(b.hash, p, |s|))
    requires Disp(s, p) <= Dist(b.hash, p, |s|)
    ensures Ordered(s[p := b])
  {
    var t := s[p := b];
    forall q: nat | q < |t|
      ensures Disp(t, Succ(q, |t|)) <= Disp(t, q) + 1
    {
      assert Disp(s, Succ(q, |s|)) <= Disp(s, q) + 1;
      if Succ(q, |s|) == p {
        assert q == Pred(p, |s|);
      }
    }
  }

  /** A carried entry that has to move on stays clear of the wrap, because there is
      an empty bucket ahead. */
  lemma {:induction false} CarryOn<K>(s: seq<Bucket<K>>, e: nat, hash: nat, p: nat)
    requires Ordered(s) && Vacant(s, e) && p < |s| && p != e
    requires Fits(s, p, Dist(hash, p, |s|))
    ensures Dist(hash, Succ(p, |s|), |s|) == Dist(hash, p, |s|) + 1
    ensures Gap(Succ(p, |s|), e, |s|) < Gap(p, e, |s|)
  {
    DispBelowGap(s, e, Pred(p, |s|));
  }

  lemma {:induction false} ShiftKeeps<K>(s: seq<Bucket<K>>, p: nat)
    requires Ordered(s) && p < |s| && |s| > 1
    requires Full(s[p])
    requires Disp(s, Succ(p, |s|)) >= 1
    ensures Ordered(s[p := s[Succ(p, |s|)]])
  {
    var n := Succ(p, |s|);
    var t := s[p := s[n]];
    assert Disp(t, p) == Disp(s, n) - 1;
    assert Disp(s, n) <= Disp(s, p) + 1;
    forall q: nat | q < |t|
      ensures Disp(t, Succ(q, |t|)) <= Disp(t, q) + 1
    {
      assert Disp(s, Succ(q, |s|)) <= Disp(s, q) + 1;
    }
  }

  lemma {:induction false} ClearKeeps<K>(s: seq<Bucket<K>>, p: nat)
    requires Ordered(s) && p < |s| && |s| > 1
    requires Disp(s, Succ(p, |s|)) <= 0
    ensures Ordered(s[p := s[p].(hash := 0)])
  {
    var t := s[p := s[p].(hash := 0)];
    forall q: nat | q < |t|
      ensures Disp(t, Succ(q, |t|)) <= Disp(t, q) + 1
    {
      assert Disp(s, Succ(q, |s|)) <= Disp(s, q) + 1;
    }
  }

  /** A bag of tag entries less every entry of one slot. */
  ghost function Without(tags: multiset<TagEntry>, slot: nat): (r: multiset<TagEntry>)
    ensures forall b :: r[b] == if b.idx == slot then 0 else tags[b]
    decreases |tags|
  {
    if exists b :: b in tags && b.idx == slot then
      var b :| b in tags && b.idx == slot;
      Without(tags[b := 0], slot)
    else tags
  }
}
