/** Read as a whole, a bag of entries with one entry per key is a finite map. */
module KeyedIndex {
  import opened RobinHood

  /** Every entry files its key under the key's own hash, and no key twice. */
  ghost predicate Keyed<K(!new)>(c: multiset<Bucket<K>>, h: K -> nat) {
    && (forall b :: b in c ==> b.hash == h(b.key) && b.hash != 0)
    && (forall b, b' :: b in c && b' in c && b.key == b'.key ==> b == b')
    && (forall b :: c[b] <= 1)
  }

  ghost function Mapping<K(!new)>(c: multiset<Bucket<K>>, h: K -> nat): (r: map<K, nat>)
    requires Keyed(c, h)
  {
    map b | b in c :: b.key := b.idx
  }

  lemma {:induction false} MappingHas<K(!new)>(c: multiset<Bucket<K>>, h: K -> nat, b: Bucket<K>)
    requires Keyed(c, h) && b in c
    ensures b.key in Mapping(c, h) && Mapping(c, h)[b.key] == b.idx
  {
  }

  lemma {:induction false} FreshKey<K(!new)>(c: multiset<Bucket<K>>, h: K -> nat, key: K, n: Bucket<K>)
    requires Keyed(c, h) && key !in Mapping(c, h) && n.key == key
    ensures n !in c
    ensures forall b :: b in c ==> b.key != key
    ensures forall b :: b in c + multiset{n} <==> b in c || b == n
  {
    forall b | b in c
      ensures b.key != key
    {
      MappingHas(c, h, b);
    }
  }

  lemma {:induction false} KeyedInsert<K(!new)>(c: multiset<Bucket<K>>, h: K -> nat, key: K, n: Bucket<K>)
    requires Keyed(c, h) && key !in Mapping(c, h)
    requires n.key == key && n.hash == h(key) != 0
    ensures Keyed(c + multiset{n}, h)
  {
    FreshKey(c, h, key, n);
  }

  lemma {:induction false} MappingInsert<K(!new)>(c: multiset<Bucket<K>>, h: K -> nat, key: K, n: Bucket<K>)
    requires Keyed(c, h) && key !in Mapping(c, h)
    requires n.key == key && n.hash == h(key) != 0
    ensures Keyed(c + multiset{n}, h)
    ensures Mapping(c + multiset{n}, h) == Mapping(c, h)[key := n.idx]
  {
    FreshKey(c, h, key, n);
    KeyedInsert(c, h, key, n);
    SameMapping(c + multiset{n}, h, Mapping(c, h)[key := n.idx]);
  }

  /** A map that agrees with every entry, and has no other key, is the mapping. */
  lemma {:induction false} SameMapping<K(!new)>(c: multiset<Bucket<K>>, h: K -> nat, m: map<K, nat>)
    requires Keyed(c, h)
    requires forall b :: b in c ==> b.key in m && m[b.key] == b.idx
    requires forall k :: k in m ==> exists b :: b in c && b.key == k
    ensures Mapping(c, h) == m
  {
    forall k | k in m
      ensures k in Mapping(c, h) && Mapping(c, h)[k] == m[k]
    {
      var b :| b in c && b.key == k;
      MappingHas(c, h, b);
    }
  }

  lemma {:induction false} KeyedRemove<K(!new)>(c: multiset<Bucket<K>>, h: K -> nat, d: multiset<Bucket<K>>, b: Bucket<K>)
    requires Keyed(c, h) && d + multiset{b} == c
    ensures Keyed(d, h) && b in c
    ensures forall x :: x in d <==> x in c && x != b
  {
    assert b in c && c[b] == 1 && b !in d;
    assert forall x :: x in d <==> x in c && x != b;
  }

  lemma {:induction false} MappingRemove<K(!new)>(c: multiset<Bucket<K>>, h: K -> nat, d: multiset<Bucket<K>>, b: Bucket<K>)
    requires Keyed(c, h) && d + multiset{b} == c
    ensures Keyed(d, h) && Mapping(d, h) == Mapping(c, h) - {b.key}
  {
    KeyedRemove(c, h, d, b);
    forall x | x in d
      ensures x.key in Mapping(c, h) - {b.key} && Mapping(c, h)[x.key] == x.idx
    {
      MappingHas(c, h, x);
    }
    SameMapping(d, h, Mapping(c, h) - {b.key});
  }

  /** A bucket with the key is the map's entry for it. */
  lemma {:induction false} FoundIsMapped<K(!new)>(s: seq<Bucket<K>>, h: K -> nat, p: nat)
    requires Keyed(Contents(s), h) && p < |s| && Full(s[p])
    ensures s[p].key in Mapping(Contents(s), h)
    ensures Mapping(Contents(s), h)[s[p].key] == s[p].idx
  {
    InContents(s, s[p]);
    MappingHas(Contents(s), h, s[p]);
  }

  /** No bucket with the key means the map has none. */
  lemma {:induction false} MissingIsUnmapped<K(!new)>(s: seq<Bucket<K>>, h: K -> nat, key: K)
    requires Keyed(Contents(s), h)
    requires forall p :: 0 <= p < |s| && s[p].hash == h(key) ==> s[p].key != key
    ensures key !in Mapping(Contents(s), h)
  {
    if key in Mapping(Contents(s), h) {
      var b :| b in Contents(s) && b.key == key;
      InContents(s, b);
    }
  }

  lemma {:induction false} MappingSize<K(!new)>(c: multiset<Bucket<K>>, h: K -> nat)
    requires Keyed(c, h)
    ensures |Mapping(c, h)| == |c|
    decreases |c|
  {
    if c != multiset{} {
      var b :| b in c;
      var d := c - multiset{b};
      assert d + multiset{b} == c;
      MappingRemove(c, h, d, b);
      MappingSize(d, h);
      MappingHas(c, h, b);
      SizeWithout(Mapping(c, h), b.key);
    } else {
      assert Mapping(c, h) == map[];
    }
  }

  lemma {:induction false} SizeWithout<K>(m: map<K, nat>, k: K)
    requires k in m
    ensures |m - {k}| == |m| - 1
  {
    assert (m - {k}).Keys == m.Keys - {k};
  }
}
