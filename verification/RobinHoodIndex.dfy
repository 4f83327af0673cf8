/** The three loops every index of the repository is built from, in place on the
    bucket array. */
module RobinHoodIndex {
  import opened Options
  import opened RobinHood

  /** What Insert and RemoveAt keep: order, and an empty bucket to stop at. */
  ghost predicate Sound<K>(s: seq<Bucket<K>>) {
    |s| > 1 && Ordered(s) && |Contents(s)| < |s|
  }

  predicate Matches<K>(b: Bucket<K>, hash: nat, eq: Bucket<K> -> bool) {
    b.hash == hash && eq(b)
  }

  lemma {:induction false} NothingYet<K>(s: seq<Bucket<K>>, n: nat)
    requires n <= |s| && forall p :: 0 <= p < |s| ==> s[p].hash == 0
    ensures ContentsTo(s, n) == multiset{}
  {
    if n > 0 {
      NothingYet(s, n - 1);
    }
  }

  /** Where the probe gives up, no match lies ahead. */
  lemma {:induction false} EarlyStop<K>(s: seq<Bucket<K>>, hash: nat, eq: Bucket<K> -> bool, dist: nat)
    requires Ordered(s) && hash != 0 && dist < |s|
    requires Disp(s, At(Home(hash, |s|), dist, |s|)) < dist
    requires forall j :: 0 <= j < dist ==> !Matches(s[At(Home(hash, |s|), j, |s|)], hash, eq)
    ensures forall p :: 0 <= p < |s| && s[p].hash == hash ==> !eq(s[p])
  {
    var home := Home(hash, |s|);
    forall p | 0 <= p < |s| && s[p].hash == hash
      ensures !eq(s[p])
    {
      var d := Dist(hash, p, |s|);
      AtGap(home, p, |s|);
      if d >= dist {
        ProbePath(s, hash, p, dist);
      } else {
        assert !Matches(s[At(home, d, |s|)], hash, eq);
      }
    }
  }

  lemma {:induction false} DisplacedFits<K>(s: seq<Bucket<K>>, p: nat, b: Bucket<K>)
    requires p < |s| && |s| > 1 && Full(s[p]) && Full(b)
    requires Disp(s, p) < Dist(b.hash, p, |s|)
    ensures Fits(s[p := b], Succ(p, |s|), Disp(s, p) + 1)
  {
    assert Pred(Succ(p, |s|), |s|) == p;
  }

  lemma {:induction false} CarryFar<K>(s: seq<Bucket<K>>, e: nat, p: nat)
    requires Ordered(s) && Vacant(s, e) && p < |s| && Full(s[p])
    ensures Dist(s[p].hash, Succ(p, |s|), |s|) == Disp(s, p) + 1
    ensures Gap(Succ(p, |s|), e, |s|) < Gap(p, e, |s|)
  {
    DispBelowGap(s, e, p);
  }

  /** The run from pos has moved m buckets back so far. */
  ghost predicate RunMoved<K>(s0: seq<Bucket<K>>, s: seq<Bucket<K>>, pos: nat, m: nat)
    requires pos < |s0| == |s|
  {
    forall q: nat :: q < |s| ==>
      s[q] == if Gap(pos, q, |s|) < m then s0[Succ(q, |s|)] else s0[q]
  }

  /** Removal at pos: m entries moved back by one, the bucket after them emptied,
      nothing else touched. */
  ghost predicate Shifted<K>(s0: seq<Bucket<K>>, s: seq<Bucket<K>>, pos: nat, m: nat)
    requires pos < |s0| == |s|
  {
    forall q: nat :: q < |s| ==>
      && (Gap(pos, q, |s|) < m ==> s[q] == s0[Succ(q, |s|)])
      && (Gap(pos, q, |s|) == m ==> !Full(s[q]))
      && (Gap(pos, q, |s|) > m ==> s[q] == s0[q])
  }

  lemma {:induction false} RunGrows<K>(s0: seq<Bucket<K>>, s: seq<Bucket<K>>, t: seq<Bucket<K>>, pos: nat, m: nat, hole: nat)
    requires pos < |s0| == |s| && hole < |s| && m + 1 < |s|
    requires RunMoved(s0, s, pos, m) && Gap(pos, hole, |s|) == m
    requires t == s[hole := s[Succ(hole, |s|)]]
    ensures RunMoved(s0, t, pos, m + 1)
    ensures Gap(pos, Succ(hole, |s|), |s|) == m + 1
  {
  }

  lemma {:induction false} SwapOut<T>(x: multiset<T>, a: T, y: multiset<T>, b: T, z: multiset<T>, r: T)
    requires x + multiset{a} == y + multiset{b}
    requires y + multiset{r} == z + multiset{a}
    ensures x + multiset{r} == z + multiset{b}
  {
    assert x + multiset{r} + multiset{a} == (x + multiset{a}) + multiset{r};
    assert y + multiset{b} + multiset{r} == (y + multiset{r}) + multiset{b};
    assert z + multiset{b} + multiset{a} == (z + multiset{a}) + multiset{b};
    assert x + multiset{r} == (x + multiset{r} + multiset{a}) - multiset{a};
    assert z + multiset{b} == (z + multiset{b} + multiset{a}) - multiset{a};
  }

  lemma {:induction false} TakeOut<T>(x: multiset<T>, a: T, y: multiset<T>, z: multiset<T>, r: T)
    requires x + multiset{a} == y
    requires y + multiset{r} == z + multiset{a}
    ensures x + multiset{r} == z
  {
    assert x + multiset{r} + multiset{a} == (x + multiset{a}) + multiset{r};
    assert x + multiset{r} == (x + multiset{r} + multiset{a}) - multiset{a};
    assert z == (z + multiset{a}) - multiset{a};
  }

  /** The insert loop's state: an entry in hand that may be dropped at pos. */
  ghost predicate Carrying<K>(s: seq<Bucket<K>>, e: nat, pos: nat, carry: Bucket<K>, dist: nat, goal: multiset<Bucket<K>>) {
    && |s| > 1 && pos < |s| && Full(carry) && dist == Dist(carry.hash, pos, |s|)
    && Ordered(s) && Vacant(s, e) && Fits(s, pos, dist)
    && Contents(s) + multiset{carry} == goal
  }

  lemma {:induction false} DropStep<K>(s: seq<Bucket<K>>, e: nat, pos: nat, carry: Bucket<K>, dist: nat, goal: multiset<Bucket<K>>)
    requires Carrying(s, e, pos, carry, dist, goal) && !Full(s[pos])
    ensures Ordered(s[pos := carry]) && Contents(s[pos := carry]) == goal
  {
    PlaceKeeps(s, pos, carry);
    ContentsUpdate(s, pos, carry);
  }

  lemma {:induction false} DisplaceStep<K>(s: seq<Bucket<K>>, e: nat, pos: nat, carry: Bucket<K>, dist: nat, goal: multiset<Bucket<K>>)
    requires Carrying(s, e, pos, carry, dist, goal) && Full(s[pos]) && Disp(s, pos) < dist
    ensures Carrying(s[pos := carry], e, Succ(pos, |s|), s[pos], Disp(s, pos) + 1, goal)
    ensures Gap(Succ(pos, |s|), e, |s|) < Gap(pos, e, |s|)
  {
    PlaceKeeps(s, pos, carry);
    ContentsUpdate(s, pos, carry);
    DisplacedFits(s, pos, carry);
    CarryFar(s, e, pos);
  }

  lemma {:induction false} PassStep<K>(s: seq<Bucket<K>>, e: nat, pos: nat, carry: Bucket<K>, dist: nat, goal: multiset<Bucket<K>>)
    requires Carrying(s, e, pos, carry, dist, goal) && Full(s[pos]) && Disp(s, pos) >= dist
    ensures Carrying(s, e, Succ(pos, |s|), carry, dist + 1, goal)
    ensures Gap(Succ(pos, |s|), e, |s|) < Gap(pos, e, |s|)
  {
    CarryOn(s, e, carry.hash, pos);
    assert Pred(Succ(pos, |s|), |s|) == pos;
  }

  /** The removal loop's state: the bucket at hole is the one to give up. */
  ghost predicate Removing<K>(s0: seq<Bucket<K>>, s: seq<Bucket<K>>, e: nat, pos: nat, hole: nat, moved: nat) {
    && pos < |s0| == |s| && |s| > 1 && hole < |s|
    && Ordered(s) && Vacant(s, e) && Full(s[hole])
    && Gap(pos, hole, |s|) == moved < Gap(pos, e, |s|)
    && Contents(s) + multiset{s0[pos]} == Contents(s0) + multiset{s[hole]}
    && RunMoved(s0, s, pos, moved)
  }

  lemma {:induction false} ClearStep<K>(s0: seq<Bucket<K>>, s: seq<Bucket<K>>, e: nat, pos: nat, hole: nat, moved: nat)
    requires Removing(s0, s, e, pos, hole, moved)
    requires Disp(s, Succ(hole, |s|)) <= 0
    ensures var t := s[hole := s[hole].(hash := 0)];
      && Ordered(t) && Contents(t) + multiset{s0[pos]} == Contents(s0)
      && Shifted(s0, t, pos, moved)
  {
    var t := s[hole := s[hole].(hash := 0)];
    ClearKeeps(s, hole);
    ContentsUpdate(s, hole, s[hole].(hash := 0));
    TakeOut(Contents(t), s[hole], Contents(s), Contents(s0), s0[pos]);
    forall q: nat | q < |s|
      ensures Gap(pos, q, |s|) == moved <==> q == hole
    {
    }
  }

  lemma {:induction false} ShiftStep<K>(s0: seq<Bucket<K>>, s: seq<Bucket<K>>, e: nat, pos: nat, hole: nat, moved: nat)
    requires Removing(s0, s, e, pos, hole, moved)
    requires Disp(s, Succ(hole, |s|)) >= 1
    ensures Removing(s0, s[hole := s[Succ(hole, |s|)]], e, pos, Succ(hole, |s|), moved + 1)
  {
    var next := Succ(hole, |s|);
    var t := s[hole := s[next]];
    ShiftKeeps(s, hole);
    ContentsUpdate(s, hole, s[next]);
    RunGrows(s0, s, t, pos, moved, hole);
    SwapOut(Contents(t), s[hole], Contents(s), s[next], Contents(s0), s0[pos]);
  }

  class Index<K(==)> {
    const entries: array<Bucket<K>>

    ghost predicate Valid()
      reads this, entries
    {
      Sound(entries[..])
    }

    constructor (capacity: nat, filler: K)
      requires capacity > 1
      ensures Valid() && fresh(entries) && entries.Length == capacity
      ensures Contents(entries[..]) == multiset{}
    {
      entries := new Bucket<K>[capacity](i => Bucket(0, 0, filler));
      new;
      NothingYet(entries[..], entries.Length);
    }

    /** The writer's probe: stops early at an empty bucket or at an entry less
        displaced than the probe, and still finds a match exactly when there is
        one. */
    method FindPos(hash: nat, eq: Bucket<K> -> bool) returns (r: Option<nat>)
      requires Valid() && hash != 0
      ensures r.Some? ==> r.value < entries.Length && entries[r.value].hash == hash && eq(entries[r.value])
      ensures r.None? ==> forall p :: 0 <= p < entries.Length && entries[p].hash == hash ==> !eq(entries[p])
    {
      ghost var e := SomeVacant(entries[..]);
      var cap := entries.Length;
      var home := Home(hash, cap);
      var pos, dist := home, 0;
      AtSmall(home, 0, cap);
      while true
        invariant dist < cap && pos == At(home, dist, cap)
        invariant forall j :: 0 <= j < dist ==> !Matches(entries[At(home, j, cap)], hash, eq)
        invariant forall j :: 0 <= j < dist ==> At(home, j, cap) != e
        decreases cap - dist
      {
        var entry := entries[pos];
        if entry.hash == 0 {
          EarlyStop(entries[..], hash, eq, dist);
          return None;
        }
        if entry.hash == hash && eq(entry) {
          return Some(pos);
        }
        if Dist(entry.hash, pos, cap) < dist {
          EarlyStop(entries[..], hash, eq, dist);
          return None;
        }
        ghost var k := Gap(home, e, cap);
        AtGap(home, e, cap);
        assert k > dist;
        GapAt(home, dist, cap);
        pos := Succ(pos, cap);
        dist := dist + 1;
      }
    }

    /** Adds one entry; richer entries give way to poorer ones. */
    method Insert(hash: nat, slot: nat, key: K)
      requires Valid() && hash != 0
      requires |Contents(entries[..])| + 1 < entries.Length
      modifies entries
      ensures Valid()
      ensures Contents(entries[..]) == old(Contents(entries[..])) + multiset{Bucket(hash, slot, key)}
    {
      ghost var e := SomeVacant(entries[..]);
      var cap := entries.Length;
      var carry := Bucket(hash, slot, key);
      var pos: nat, dist: nat := Home(hash, cap), 0;
      ghost var goal := Contents(entries[..]) + multiset{carry};
      while true
        invariant Carrying(entries[..], e, pos, carry, dist, goal)
        decreases Gap(pos, e, cap)
      {
        ghost var s := entries[..];
        var entry := entries[pos];
        if entry.hash == 0 {
          DropStep(s, e, pos, carry, dist, goal);
          entries[pos] := carry;
          assert entries[..] == s[pos := carry];
          return;
        }
        var entryDist := Dist(entry.hash, pos, cap);
        if entryDist < dist {
          DisplaceStep(s, e, pos, carry, dist, goal);
          entries[pos] := carry;
          assert entries[..] == s[pos := carry];
          carry := entry;
          dist := entryDist;
        } else {
          PassStep(s, e, pos, carry, dist, goal);
        }
        pos := Succ(pos, cap);
        dist := dist + 1;
      }
    }

    /** Removes the entry at pos and shifts the run behind it one bucket back.
        moved says how many entries the run spans. */
    method RemoveAt(pos: nat) returns (ghost moved: nat)
      requires Valid() && pos < entries.Length && Full(entries[pos])
      modifies entries
      ensures Valid()
      ensures Contents(entries[..]) + multiset{old(entries[pos])} == old(Contents(entries[..]))
      ensures moved < entries.Length && Shifted(old(entries[..]), entries[..], pos, moved)
    {
      ghost var e := SomeVacant(entries[..]);
      ghost var s0 := entries[..];
      var cap := entries.Length;
      var hole: nat := pos;
      moved := 0;
      while true
        invariant Removing(s0, entries[..], e, pos, hole, moved)
        decreases Gap(pos, e, cap) - moved
      {
        ghost var s := entries[..];
        var next := Succ(hole, cap);
        var nextEntry := entries[next];
        if nextEntry.hash == 0 || Dist(nextEntry.hash, next, cap) == 0 {
          ClearStep(s0, s, e, pos, hole, moved);
          entries[hole] := entries[hole].(hash := 0);
          assert entries[..] == s[hole := s[hole].(hash := 0)];
          return;
        }
        ShiftStep(s0, s, e, pos, hole, moved);
        entries[hole] := nextEntry;
        assert entries[..] == s[hole := s[next]];
        hole := next;
        moved := moved + 1;
      }
    }
  }
}
