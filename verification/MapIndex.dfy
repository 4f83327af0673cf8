/** Two readings of the Robin Hood index: a finite map from key to slot, for the
    address, id and certificate indexes, and a bag of (tag, slot) pairs, for the
    tag index. */
module MapIndexes {
  import opened Options
  import opened RobinHood
  import opened RobinHoodIndex
  import opened KeyedIndex

  /** At most one entry per key. Map is what the buckets stand for. */
  class MapIndex<K(==,!new)> {
    const index: Index<K>
    const hash: K -> nat
    ghost var Map: map<K, nat>

    ghost function Footprint(): (r: set<object>) {
      {this, index.entries}
    }

    ghost predicate Valid()
      reads this, index, index.entries
    {
      && index.Valid()
      && (forall k :: hash(k) != 0)
      && Keyed(Contents(index.entries[..]), hash)
      && Map == Mapping(Contents(index.entries[..]), hash)
    }

    ghost function Size(): (r: nat) {
      index.entries.Length
    }

    /** Bucket pos holds key, mapped to its slot. */
    ghost predicate IsAt(pos: nat, key: K)
      reads this, index.entries
    {
      && pos < index.entries.Length && Full(index.entries[pos])
      && index.entries[pos].key == key
      && key in Map && index.entries[pos].idx == Map[key]
    }

    constructor (capacity: nat, hash: K -> nat, filler: K)
      requires capacity > 1 && forall k :: hash(k) != 0
      ensures Valid() && Map == map[] && fresh(index) && fresh(index.entries) && Size() == capacity
    {
      this.hash := hash;
      index := new Index(capacity, filler);
      Map := map[];
    }

    /** Finds the key's bucket exactly when the map has the key. */
    method Find(key: K) returns (r: Option<nat>)
      requires Valid()
      ensures r.Some? <==> key in Map
      ensures r.Some? ==> IsAt(r.value, key)
    {
      var k := key;
      r := index.FindPos(hash(key), (b: Bucket<K>) => b.key == k);
      if r.Some? {
        FoundIsMapped(index.entries[..], hash, r.value);
      } else {
        MissingIsUnmapped(index.entries[..], hash, key);
      }
    }

    method SlotAt(pos: nat, ghost key: K) returns (slot: nat)
      requires Valid() && IsAt(pos, key)
      ensures slot == Map[key]
    {
      slot := index.entries[pos].idx;
    }

    method Insert(key: K, slot: nat)
      requires Valid() && key !in Map && |Map| + 1 < Size()
      modifies this, index.entries
      ensures Valid() && Map == old(Map)[key := slot]
    {
      ghost var c := Contents(index.entries[..]);
      MappingSize(c, hash);
      MappingInsert(c, hash, key, Bucket(hash(key), slot, key));
      index.Insert(hash(key), slot, key);
      Map := Map[key := slot];
    }

    method RemoveAt(pos: nat, ghost key: K)
      requires Valid() && IsAt(pos, key)
      modifies this, index.entries
      ensures Valid() && Map == old(Map) - {key}
    {
      ghost var c, b := Contents(index.entries[..]), index.entries[pos];
      ghost var moved := index.RemoveAt(pos);
      MappingRemove(c, hash, Contents(index.entries[..]), b);
      Map := Map - {key};
    }
  }

  /** Many slots may share a tag and a slot may hold many tags; the same pair may
      even be bound twice. */
  class TagIndex {
    const index: Index<()>
    ghost var Bag: multiset<TagEntry>

    ghost function Footprint(): (r: set<object>) {
      {this, index.entries}
    }

    ghost predicate Valid()
      reads this, index, index.entries
    {
      index.Valid() && Bag == Contents(index.entries[..])
    }

    ghost function Size(): (r: nat) {
      index.entries.Length
    }

    constructor (capacity: nat)
      requires capacity > 1
      ensures Valid() && Bag == multiset{} && fresh(index) && fresh(index.entries) && Size() == capacity
    {
      index := new Index(capacity, ());
      Bag := multiset{};
    }

    /** The pair is the identity: finds one entry exactly when the bag has it. */
    method Find(tag: nat, slot: nat) returns (r: Option<nat>)
      requires Valid() && tag != 0
      ensures r.Some? <==> Bucket(tag, slot, ()) in Bag
      ensures r.Some? ==> r.value < Size() && index.entries[r.value] == Bucket(tag, slot, ())
    {
      var s := slot;
      r := index.FindPos(tag, (b: Bucket<()>) => b.idx == s);
      InContents(index.entries[..], Bucket(tag, slot, ()));
      PairIsBucket(index.entries[..], tag, slot);
    }

    method Insert(tag: nat, slot: nat)
      requires Valid() && tag != 0 && |Bag| + 1 < Size()
      modifies this, index.entries
      ensures Valid() && Bag == old(Bag) + multiset{Bucket(tag, slot, ())}
    {
      index.Insert(tag, slot, ());
      Bag := Bag + multiset{Bucket(tag, slot, ())};
    }

    method RemoveAt(pos: nat) returns (ghost moved: nat)
      requires Valid() && pos < Size() && Full(index.entries[pos])
      modifies this, index.entries
      ensures Valid() && Bag + multiset{old(index.entries[pos])} == old(Bag)
      ensures moved < Size() && Shifted(old(index.entries[..]), index.entries[..], pos, moved)
    {
      moved := index.RemoveAt(pos);
      Bag := Contents(index.entries[..]);
    }

    /** Empties one bucket of the slot's entries: a removal pulls the next entry of
        the run in, so the bucket is looked at again. */
    method ClearBucket(pos: nat, slot: nat) returns (removed: nat)
      requires Valid() && pos < Size()
      requires forall p :: 0 <= p < pos ==> Clean(index.entries[p], slot)
      modifies this, index.entries
      ensures Valid() && |Bag| + removed == |old(Bag)|
      ensures forall b: TagEntry :: b.idx != slot ==> Bag[b] == old(Bag)[b]
      ensures forall p :: 0 <= p <= pos ==> Clean(index.entries[p], slot)
    {
      removed := 0;
      while index.entries[pos].hash != 0 && index.entries[pos].idx == slot
        invariant Valid() && |Bag| + removed == |old(Bag)|
        invariant forall b: TagEntry :: b.idx != slot ==> Bag[b] == old(Bag)[b]
        invariant forall p :: 0 <= p < pos ==> Clean(index.entries[p], slot)
        decreases |Bag|
      {
        DropOne(pos, slot);
        removed := removed + 1;
      }
    }

    method DropOne(pos: nat, slot: nat)
      requires Valid() && pos < Size()
      requires Full(index.entries[pos]) && index.entries[pos].idx == slot
      requires forall p :: 0 <= p < pos ==> Clean(index.entries[p], slot)
      modifies this, index.entries
      ensures Valid() && |Bag| + 1 == |old(Bag)|
      ensures forall b: TagEntry :: b.idx != slot ==> Bag[b] == old(Bag)[b]
      ensures forall p :: 0 <= p < pos ==> Clean(index.entries[p], slot)
    {
      ghost var s := index.entries[..];
      ghost var moved := RemoveAt(pos);
      StillClean(s, index.entries[..], pos, moved, slot);
      LessOne(Bag, s[pos], old(Bag));
    }

    /** Drops every entry of one slot and no other pair, even when a shifted run
        wraps round the array's end. */
    method ClearTags(slot: nat) returns (removed: nat)
      requires Valid()
      modifies this, index.entries
      ensures Valid()
      ensures Bag == Without(old(Bag), slot)
      ensures |Bag| + removed == |old(Bag)|
    {
      removed := 0;
      for pos := 0 to index.entries.Length
        invariant Valid() && |Bag| + removed == |old(Bag)|
        invariant forall b: TagEntry :: b.idx != slot ==> Bag[b] == old(Bag)[b]
        invariant forall p :: 0 <= p < pos ==> Clean(index.entries[p], slot)
      {
        var gone := ClearBucket(pos, slot);
        removed := removed + gone;
      }
      AllClean(index.entries[..], slot);
      SameWithout(Bag, old(Bag), slot);
    }

    /** Counts the holders of a tag and lists the first few, in probe order: at names
        the bucket each came from, and no bucket is listed twice. */
    method PeersByTag(tag: nat, max: nat) returns (found: nat, slots: seq<nat>, ghost at: seq<nat>)
      requires Valid()
      ensures found == if tag == 0 || max == 0 then 0 else |Holders(index.entries[..], tag)|
      ensures |at| == |slots| == if found < max then found else max
      ensures forall i :: 0 <= i < |slots| ==> at[i] < Size() && index.entries[at[i]] == Bucket(tag, slots[i], ())
      ensures forall i, j :: 0 <= i < j < |slots| ==> at[i] != at[j]
      ensures forall i :: 0 <= i < |slots| ==> Bucket(tag, slots[i], ()) in Bag
    {
      if tag == 0 || max == 0 {
        return 0, [], [];
      }
      found, slots, at := Probe(tag, max);
      WithinBounds(index.entries[..], tag);
      forall i | 0 <= i < |slots|
        ensures Bucket(tag, slots[i], ()) in Bag
      {
        InContents(index.entries[..], Bucket(tag, slots[i], ()));
      }
    }

    method Probe(tag: nat, max: nat) returns (found: nat, slots: seq<nat>, ghost at: seq<nat>)
      requires Valid() && tag != 0
      ensures found == |Within(index.entries[..], tag, Size())|
      ensures Listed(index.entries[..], tag, Size(), slots, at)
      ensures |slots| == if found < max then found else max
    {
      hide Within, Contents, Listed;
      var cap := index.entries.Length;
      var home := Home(tag, cap);
      var pos: nat, dist: nat := home, 0;
      found, slots, at := 0, [], [];
      NothingListed(index.entries[..], tag);
      WithinBounds(index.entries[..], tag);
      while dist < cap
        invariant dist <= cap && (dist < cap ==> pos == At(home, dist, cap))
        invariant found == |Within(index.entries[..], tag, dist)|
        invariant |slots| == if found < max then found else max
        invariant Listed(index.entries[..], tag, dist, slots, at)
      {
        var entry := index.entries[pos];
        GapAt(home, dist, cap);
        if entry.hash == 0 {
          NoneBeyond(index.entries[..], tag, dist);
          ListedFar(index.entries[..], tag, dist, slots, at);
          break;
        }
        WithinStep(index.entries[..], tag, dist);
        ListedOn(index.entries[..], tag, dist, slots, at);
        if entry.hash == tag {
          if found < max {
            slots, at := slots + [entry.idx], at + [pos];
          }
          found := found + 1;
        } else if Dist(entry.hash, pos, cap) < dist {
          NoneBeyond(index.entries[..], tag, dist);
          ListedFar(index.entries[..], tag, dist, slots, at);
          break;
        }
        pos := Succ(pos, cap);
        dist := dist + 1;
      }
    }
  }

  /** The buckets of a tag. */
  function Holders(s: seq<TagEntry>, tag: nat): (r: set<nat>) {
    set p: nat | p < |s| && s[p].hash == tag
  }

  /** The buckets of a tag less than d steps from its ideal bucket. */
  function Within(s: seq<TagEntry>, tag: nat, d: nat): (r: set<nat>) {
    set p: nat | p < |s| && s[p].hash == tag && Dist(tag, p, |s|) < d
  }

  /** Each slot listed comes from its own bucket, less than d steps out. */
  ghost predicate Listed(s: seq<TagEntry>, tag: nat, d: nat, slots: seq<nat>, at: seq<nat>) {
    && |at| == |slots|
    && (forall i :: 0 <= i < |at| ==> at[i] in Within(s, tag, d) && s[at[i]] == Bucket(tag, slots[i], ()))
    && (forall i, j :: 0 <= i < j < |at| ==> at[i] != at[j])
  }

  lemma {:induction false} NothingListed(s: seq<TagEntry>, tag: nat)
    ensures Listed(s, tag, 0, [], [])
  {
  }

  lemma {:induction false} ListedOn(s: seq<TagEntry>, tag: nat, d: nat, slots: seq<nat>, at: seq<nat>)
    requires d < |s| && Listed(s, tag, d, slots, at)
    ensures Listed(s, tag, d + 1, slots, at)
    ensures var p := At(Home(tag, |s|), d, |s|);
      s[p].hash == tag ==> Listed(s, tag, d + 1, slots + [s[p].idx], at + [p])
  {
    var p := At(Home(tag, |s|), d, |s|);
    GapAt(Home(tag, |s|), d, |s|);
    assert s[p].key == ();
    assert forall q :: q in Within(s, tag, d) ==> q in Within(s, tag, d + 1) && q != p;
  }

  lemma {:induction false} ListedFar(s: seq<TagEntry>, tag: nat, d: nat, slots: seq<nat>, at: seq<nat>)
    requires Listed(s, tag, d, slots, at) && Within(s, tag, d) == Within(s, tag, |s|)
    ensures Listed(s, tag, |s|, slots, at)
  {
  }

  lemma {:induction false} WithinBounds(s: seq<TagEntry>, tag: nat)
    ensures Within(s, tag, 0) == {}
    ensures Within(s, tag, |s|) == Holders(s, tag)
  {
  }

  lemma {:induction false} WithinStep(s: seq<TagEntry>, tag: nat, d: nat)
    requires d < |s|
    ensures var p := At(Home(tag, |s|), d, |s|);
      |Within(s, tag, d + 1)| == |Within(s, tag, d)| + if s[p].hash == tag then 1 else 0
  {
    var home := Home(tag, |s|);
    var p := At(home, d, |s|);
    GapAt(home, d, |s|);
    forall q: nat | q < |s| && Dist(tag, q, |s|) == d
      ensures q == p
    {
      AtGap(home, q, |s|);
    }
    if s[p].hash == tag {
      assert Within(s, tag, d + 1) == Within(s, tag, d) + {p};
      assert p !in Within(s, tag, d);
    } else {
      assert Within(s, tag, d + 1) == Within(s, tag, d);
    }
  }

  /** Where the probe stops, the rest of the table holds no more of the tag. */
  lemma {:induction false} NoneBeyond(s: seq<TagEntry>, tag: nat, d: nat)
    requires Ordered(s) && tag != 0 && d < |s|
    requires Disp(s, At(Home(tag, |s|), d, |s|)) < d
    ensures Within(s, tag, d) == Within(s, tag, |s|)
  {
    forall p | p in Within(s, tag, |s|)
      ensures p in Within(s, tag, d)
    {
      if Dist(tag, p, |s|) >= d {
        ProbePath(s, tag, p, d);
      }
    }
  }

  lemma {:induction false} PairIsBucket(s: seq<TagEntry>, tag: nat, slot: nat)
    requires tag != 0
    ensures forall p :: 0 <= p < |s| && s[p].hash == tag && s[p].idx == slot ==> s[p] == Bucket(tag, slot, ())
  {
    forall p | 0 <= p < |s| && s[p].hash == tag && s[p].idx == slot
      ensures s[p] == Bucket(tag, slot, ())
    {
      assert s[p].key == ();
    }
  }

  lemma {:induction false} LessOne(d: multiset<TagEntry>, x: TagEntry, c: multiset<TagEntry>)
    requires d + multiset{x} == c
    ensures |d| + 1 == |c|
    ensures forall b :: b != x ==> d[b] == c[b]
  {
    forall b | b != x
      ensures d[b] == c[b]
    {
      assert c[b] == d[b] + multiset{x}[b];
    }
  }

  predicate Clean(b: TagEntry, slot: nat) {
    b.hash != 0 ==> b.idx != slot
  }

  /** Buckets below the scan stay clean: what a removal moves into them comes from
      buckets already scanned, because the run stops at an empty bucket before it
      comes round to pos again. */
  lemma {:induction false} StillClean(s: seq<TagEntry>, t: seq<TagEntry>, pos: nat, moved: nat, slot: nat)
    requires pos < |s| == |t| && moved < |s|
    requires Shifted(s, t, pos, moved)
    requires forall p :: 0 <= p < pos ==> Clean(s[p], slot)
    ensures forall p :: 0 <= p < pos ==> Clean(t[p], slot)
  {
    forall p | 0 <= p < pos
      ensures Clean(t[p], slot)
    {
      if p + 1 == pos {
        assert Gap(pos, p, |s|) == |s| - 1;
      }
    }
  }

  lemma {:induction false} SameWithout(d: multiset<TagEntry>, c: multiset<TagEntry>, slot: nat)
    requires forall b :: d[b] == if b.idx == slot then 0 else c[b]
    ensures d == Without(c, slot)
  {
  }

  lemma {:induction false} AllClean(s: seq<TagEntry>, slot: nat)
    requires forall p :: 0 <= p < |s| ==> Clean(s[p], slot)
    ensures forall b: TagEntry :: b.idx == slot ==> Contents(s)[b] == 0
  {
    forall b: TagEntry | b.idx == slot
      ensures Contents(s)[b] == 0
    {
      InContents(s, b);
    }
  }
}
