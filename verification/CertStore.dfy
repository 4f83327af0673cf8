/** The certificate store: an insert-only index over a pool of certificates, where
    a second certificate for a tag replaces the first in place. */
module CertStores {
  import opened Options
  import opened RobinHood
  import opened RobinHoodIndex
  import opened KeyedIndex
  import opened MapIndexes

  datatype Certificate<T, P> = Certificate(tag: T, subjectKey: P)

  datatype Match = Trusted | Mismatch | NotFound

  datatype Error = Ok | LimitReached

  /** The key the last certificate added for a tag carries. */
  function LastAdded<T(==), P>(log: seq<Certificate<T, P>>, tag: T): (r: Option<P>) {
    if log == [] then None
    else if log[|log| - 1].tag == tag then Some(log[|log| - 1].subjectKey)
    else LastAdded(log[..|log| - 1], tag)
  }

  lemma {:induction false} LastAddedStep<T, P>(log: seq<Certificate<T, P>>, c: Certificate<T, P>, tag: T)
    ensures LastAdded(log + [c], tag) == if tag == c.tag then Some(c.subjectKey) else LastAdded(log, tag)
  {
    assert (log + [c])[..|log|] == log;
  }

  /** What Check answers, from the history of additions alone. */
  function Verdict<T(==), P(==)>(log: seq<Certificate<T, P>>, tag: T, key: P): (r: Match) {
    match LastAdded(log, tag)
    case None => NotFound
    case Some(k) => if k == key then Trusted else Mismatch
  }

  /** The index and the pool hold, for every tag, what was added for it last. */
  ghost predicate Stores<T(!new), P(!new)>(m: map<T, nat>, certs: seq<Certificate<T, P>>, log: seq<Certificate<T, P>>) {
    && (forall t :: t in m ==> m[t] < |certs| && certs[m[t]].tag == t)
    && (forall t :: LastAdded(log, t) == if t in m && m[t] < |certs| then Some(certs[m[t]].subjectKey) else None)
  }

  lemma {:induction false} ReplacedStores<T(!new), P(!new)>(m: map<T, nat>, certs: seq<Certificate<T, P>>, log: seq<Certificate<T, P>>, c: Certificate<T, P>)
    requires Stores(m, certs, log) && c.tag in m
    ensures Stores(m, certs[m[c.tag] := c], log + [c])
  {
    forall t
      ensures LastAdded(log + [c], t) == if t == c.tag then Some(c.subjectKey) else LastAdded(log, t)
    {
      LastAddedStep(log, c, t);
    }
  }

  lemma {:induction false} AddedStores<T(!new), P(!new)>(m: map<T, nat>, certs: seq<Certificate<T, P>>, log: seq<Certificate<T, P>>, c: Certificate<T, P>, slot: nat)
    requires Stores(m, certs, log) && c.tag !in m && slot < |certs| && slot !in m.Values
    ensures Stores(m[c.tag := slot], certs[slot := c], log + [c])
  {
    forall t
      ensures LastAdded(log + [c], t) == if t == c.tag then Some(c.subjectKey) else LastAdded(log, t)
    {
      LastAddedStep(log, c, t);
    }
  }

  lemma {:induction false} EmptyStores<T(!new), P(!new)>(m: map<T, nat>, certs: seq<Certificate<T, P>>)
    requires m == map[]
    ensures Stores(m, certs, []) && m.Values == {}
  {
  }

  lemma {:induction false} Grown<T>(m: map<T, nat>, tag: T, slot: nat)
    requires tag !in m
    ensures m[tag := slot].Values == m.Values + {slot} && m[tag := slot].Keys == m.Keys + {tag}
  {
    var g := m[tag := slot];
    assert g[tag] == slot;
    forall v | v in m.Values
      ensures v in g.Values
    {
      var t :| t in m && m[t] == v;
      assert g[t] == v;
    }
  }

  /** Fewer slots leased than there are leaves one to lease. */
  lemma {:induction false} SlotLeft(leased: set<nat>, n: nat)
    requires forall i :: i in leased ==> i < n
    requires forall i: nat :: i < n ==> i in leased
    ensures |leased| == n
  {
    if n == 0 {
      assert leased == {};
    } else {
      var rest := leased - {n - 1};
      SlotLeft(rest, n - 1);
    }
  }

  class CertStore<T(==,!new), P(==,!new)> {
    const index: MapIndex<T>
    const certs: array<Certificate<T, P>>
    var leased: set<nat>
    var count: nat
    /** Every certificate accepted, oldest first. */
    ghost var log: seq<Certificate<T, P>>

    ghost predicate Indexed()
      reads index, index.index, index.index.entries
    {
      index.Footprint() !! {this as object, certs as object} && index.Valid() && index.Size() > certs.Length
    }

    ghost predicate Valid()
      reads this, index, index.index, index.index.entries, certs
    {
      && Indexed()
      && Stores(index.Map, certs[..], log)
      && leased == index.Map.Values && count == |index.Map| == |leased| <= certs.Length
    }

    /** The tags the store knows. */
    ghost function Tags(): (r: set<T>)
      reads index
    {
      index.Map.Keys
    }

    constructor (capacity: nat, idxCapacity: nat, hashTag: T -> nat, filler: Certificate<T, P>)
      requires capacity > 0 && idxCapacity > capacity
      requires forall t :: hashTag(t) != 0
      ensures Valid() && log == [] && certs.Length == capacity
    {
      hide MapIndex.Valid, Stores;
      index := new MapIndex(idxCapacity, hashTag, filler.tag);
      certs := new Certificate<T, P>[capacity](i => filler);
      leased, count, log := {}, 0, [];
      new;
      EmptyStores(index.Map, certs[..]);
    }

    method Acquire() returns (r: Option<nat>)
      requires forall i :: i in leased ==> i < certs.Length
      ensures r.Some? ==> r.value < certs.Length && r.value !in leased
      ensures r.None? ==> |leased| == certs.Length
    {
      for i := 0 to certs.Length
        invariant forall k: nat :: k < i ==> k in leased
      {
        if i !in leased {
          return Some(i);
        }
      }
      SlotLeft(leased, certs.Length);
      return None;
    }

    /** Accepts the certificate, replacing an older one for its tag, unless the tag
        is new and the store is full. */
    method Add(cert: Certificate<T, P>) returns (err: Error)
      requires Valid()
      modifies this, index, index.index.entries, certs
      ensures Valid()
      ensures err == LimitReached <==> cert.tag !in old(Tags()) && |old(Tags())| == certs.Length
      ensures log == if err == Ok then old(log) + [cert] else old(log)
      ensures Tags() == if err == Ok then old(Tags()) + {cert.tag} else old(Tags())
    {
      hide MapIndex.Valid;
      ghost var m, was := index.Map, certs[..];
      var pos := index.Find(cert.tag);
      if pos.Some? {
        var slot := index.SlotAt(pos.value, cert.tag);
        ReplacedStores(m, was, log, cert);
        certs[slot] := cert;
        assert certs[..] == was[slot := cert];
        log := log + [cert];
        return Ok;
      }
      if count >= certs.Length {
        return LimitReached;
      }
      var got := Acquire();
      if got.None? {
        return LimitReached;
      }
      err := Ok;
      AddedStores(m, was, log, cert, got.value);
      Enlist(got.value, cert);
    }

    /** Writes the certificate, then files it. */
    method Place(slot: nat, cert: Certificate<T, P>)
      requires Indexed() && slot < certs.Length && cert.tag !in index.Map && |index.Map| < certs.Length
      modifies index, index.index.entries, certs
      ensures Indexed() && index.Map == old(index.Map)[cert.tag := slot] && certs[..] == old(certs[..])[slot := cert]
    {
      hide MapIndex.Valid;
      ghost var was := certs[..];
      certs[slot] := cert;
      assert certs[..] == was[slot := cert];
      index.Insert(cert.tag, slot);
    }

    method Enlist(slot: nat, cert: Certificate<T, P>)
      requires Valid() && slot < certs.Length && slot !in leased && cert.tag !in index.Map && count < certs.Length
      requires Stores(index.Map[cert.tag := slot], certs[..][slot := cert], log + [cert])
      modifies this, index, index.index.entries, certs
      ensures Valid() && log == old(log) + [cert] && Tags() == old(Tags()) + {cert.tag}
    {
      hide Indexed, Stores;
      Grown(index.Map, cert.tag, slot);
      Place(slot, cert);
      leased := leased + {slot};
      count := count + 1;
      log := log + [cert];
    }

    /** Answers by what was last added for the tag. The probe trusts the certificate
        in the slot rather than the entry's own key. */
    method Check(tag: T, presentedKey: P) returns (m: Match)
      requires Valid()
      ensures m == Verdict(log, tag, presentedKey)
    {
      hide MapIndex.Valid;
      ghost var cs := certs[..];
      ghost var eq := (b: Bucket<T>) => b.idx < |cs| && cs[b.idx].tag == tag;
      var hash := index.hash(tag);
      ReadyToProbe();
      ghost var s := index.index.entries[..];
      var cap := index.index.entries.Length;
      var home := Home(hash, cap);
      var pos: nat, dist: nat := home, 0;
      AtSmall(home, 0, cap);
      while dist < cap
        invariant dist <= cap && (dist < cap ==> pos == At(home, dist, cap))
        invariant forall j :: 0 <= j < dist ==> !Matches(s[At(home, j, cap)], hash, eq)
      {
        var entry := index.index.entries[pos];
        if entry.hash == 0 {
          EarlyStop(s, hash, eq, dist);
          break;
        }
        EntryStored(pos);
        if entry.hash == hash {
          var hit, found := ResolveSlot(entry.idx, tag, presentedKey);
          if hit {
            return found;
          }
        } else if Dist(entry.hash, pos, cap) < dist {
          EarlyStop(s, hash, eq, dist);
          break;
        }
        GapAt(home, dist, cap);
        pos := Succ(pos, cap);
        dist := dist + 1;
      }
      if dist == cap {
        Everywhere(s, hash, eq);
      }
      TagUnknown(tag, eq);
      return NotFound;
    }

    method ResolveSlot(slot: nat, tag: T, presentedKey: P) returns (hit: bool, m: Match)
      requires slot < certs.Length
      ensures hit <==> certs[slot].tag == tag
      ensures hit ==> m == if certs[slot].subjectKey == presentedKey then Trusted else Mismatch
    {
      var c := certs[slot];
      hit := c.tag == tag;
      m := if c.subjectKey == presentedKey then Trusted else Mismatch;
    }

    lemma {:induction false} ReadyToProbe()
      requires Valid()
      ensures Ordered(index.index.entries[..]) && index.index.entries.Length > 1 && forall t :: index.hash(t) != 0
    {
    }

    /** Every full bucket leads to the certificate it was filed for. */
    lemma {:induction false} EntryStored(pos: nat)
      requires Valid() && pos < index.index.entries.Length && Full(index.index.entries[pos])
      ensures var e := index.index.entries[pos];
        && e.idx < certs.Length && certs[e.idx].tag == e.key
        && LastAdded(log, e.key) == Some(certs[e.idx].subjectKey)
    {
      FoundIsMapped(index.index.entries[..], index.hash, pos);
    }

    lemma {:induction false} TagUnknown(tag: T, eq: Bucket<T> -> bool)
      requires Valid()
      requires forall b: Bucket<T> :: eq(b) <==> b.idx < certs.Length && certs[b.idx].tag == tag
      requires forall p :: 0 <= p < index.index.entries.Length && index.index.entries[..][p].hash == index.hash(tag) ==>
        !eq(index.index.entries[..][p])
      ensures LastAdded(log, tag) == None
    {
      var s := index.index.entries[..];
      forall p | 0 <= p < |s| && s[p].hash == index.hash(tag)
        ensures s[p].key != tag
      {
        if s[p].key == tag {
          EntryStored(p);
        }
      }
      MissingIsUnmapped(s, index.hash, tag);
    }
  }

  /** A probe all the way round has seen every bucket. */
  lemma {:induction false} Everywhere<T>(s: seq<Bucket<T>>, hash: nat, eq: Bucket<T> -> bool)
    requires |s| > 0
    requires forall j :: 0 <= j < |s| ==> !Matches(s[At(Home(hash, |s|), j, |s|)], hash, eq)
    ensures forall p :: 0 <= p < |s| && s[p].hash == hash ==> !eq(s[p])
  {
    forall p | 0 <= p < |s| && s[p].hash == hash
      ensures !eq(s[p])
    {
      AtGap(Home(hash, |s|), p, |s|);
      assert !Matches(s[At(Home(hash, |s|), Gap(Home(hash, |s|), p, |s|), |s|)], hash, eq);
    }
  }
}
