/** The peer table, updated in place: three Robin Hood indexes over one pool of
    peer records. Each writer operation runs whole here, under the writer lock;
    Seqlock.dfy interleaves its stores with readers. */
module PeerTables {
  import opened Options
  import opened RobinHood
  import opened MapIndexes
  import RobinHoodIndex
  import opened PeerTableModel

  datatype Error = Ok | InvalidParam | LimitReached | AlreadyPending | NotFound

  const MAX_TAGS_PER_PEER: nat := 4

  /** Buckets a table of this many entries asks for, to stay under 85 percent. */
  function Need(capacity: nat): (r: nat) {
    (capacity * 100 + 84) / 85
  }

  /** The load cap always leaves an empty bucket. */
  lemma {:induction false} LoadLeavesVacancy(capacity: nat)
    requires capacity > 0
    ensures Need(capacity) > capacity
  {
  }

  class PeerTable<A(==,!new), I(==,!new)> {
    const addrIdx: MapIndex<A>
    const bcpIdx: MapIndex<I>
    const tagIdx: TagIndex
    const records: array<Record<A, I>>
    const unset: A
    const tagCapacity: nat
    var leased: set<nat>
    var peerCount: nat
    var tagCount: nat

    ghost predicate Apart() {
      && addrIdx.Footprint() !! bcpIdx.Footprint() !! tagIdx.Footprint() !! {this as object, records as object}
      && addrIdx.Size() > records.Length
      && bcpIdx.Size() > records.Length
      && tagIdx.Size() > tagCapacity
    }

    ghost function Model(): (r: Table<A, I>)
      reads this, addrIdx, bcpIdx, tagIdx, records
    {
      Table(addrIdx.Map, bcpIdx.Map, tagIdx.Bag, records[..], leased)
    }

    ghost predicate Indexed()
      reads addrIdx, bcpIdx, tagIdx, addrIdx.index, bcpIdx.index, tagIdx.index,
            addrIdx.index.entries, bcpIdx.index.entries, tagIdx.index.entries
    {
      Apart() && addrIdx.Valid() && bcpIdx.Valid() && tagIdx.Valid()
    }

    ghost predicate Valid()
      reads this, addrIdx, bcpIdx, tagIdx, addrIdx.index, bcpIdx.index, tagIdx.index,
            addrIdx.index.entries, bcpIdx.index.entries, tagIdx.index.entries, records
    {
      && Indexed()
      && Agree(Model())
      && peerCount == |addrIdx.Map| <= records.Length
      && tagCount == |tagIdx.Bag| <= tagCapacity
    }

    constructor (capacity: nat, idxCapacity: nat, tagIdxCapacity: nat, hashAddr: A -> nat, hashId: I -> nat,
                 unset: A, filler: I)
      requires capacity > 0
      requires idxCapacity >= Need(capacity) && tagIdxCapacity >= Need(capacity * MAX_TAGS_PER_PEER)
      requires (forall a :: hashAddr(a) != 0) && (forall i :: hashId(i) != 0)
      ensures Valid() && Peers(Model()) == map[] && Model().tags == multiset{}
    {
      hide MapIndex.Valid, TagIndex.Valid, Agree, Peers, Need;
      LoadLeavesVacancy(capacity);
      LoadLeavesVacancy(capacity * MAX_TAGS_PER_PEER);
      addrIdx := new MapIndex(idxCapacity, hashAddr, unset);
      bcpIdx := new MapIndex(idxCapacity, hashId, filler);
      tagIdx := new TagIndex(tagIdxCapacity);
      records := new Record<A, I>[capacity](i => Record(unset, filler, false));
      this.unset := unset;
      tagCapacity := capacity * MAX_TAGS_PER_PEER;
      leased, peerCount, tagCount := {}, 0, 0;
      new;
      EmptyAgrees(Model());
      assert Indexed();
    }

    /** The pool hands out any slot it has not leased. */
    method Acquire() returns (r: Option<nat>)
      ensures r.Some? ==> r.value < records.Length && r.value !in leased
      ensures r.None? ==> forall i: nat :: i < records.Length ==> i in leased
    {
      for i := 0 to records.Length
        invariant forall k: nat :: k < i ==> k in leased
      {
        if i !in leased {
          return Some(i);
        }
      }
      return None;
    }

    /** Liveness is proved through the address index: a live peer's address maps
        back to its slot, a freed or recycled slot's does not. */
    method IsLive(slot: nat) returns (live: bool, apos: nat)
      requires Valid() && slot < records.Length
      ensures live == Live(Model(), slot)
      ensures live ==> addrIdx.IsAt(apos, records[slot].addr)
    {
      hide MapIndex.Valid, TagIndex.Valid;
      apos := 0;
      ghost var a := records[slot].addr;
      var r := addrIdx.Find(records[slot].addr);
      if r.None? {
        return false, 0;
      }
      apos := r.value;
      var s := addrIdx.SlotAt(apos, a);
      live := s == slot;
    }

    /** Whether a peer may be added under these keys, and the slot it would get. */
    method Admit(addr: A, id: Option<I>) returns (err: Error, slot: nat)
      requires Valid()
      ensures err in {Ok, InvalidParam, LimitReached, AlreadyPending}
      ensures err == InvalidParam <==> addr == unset
      ensures err == AlreadyPending <==>
        addr != unset && |addrIdx.Map| < records.Length && (addr in addrIdx.Map || (id.Some? && id.value in bcpIdx.Map))
      ensures err == Ok ==> addr !in addrIdx.Map && (id.Some? ==> id.value !in bcpIdx.Map)
      ensures err == Ok ==> slot < records.Length && slot !in leased && |addrIdx.Map| < records.Length
      ensures err == LimitReached ==>
        |addrIdx.Map| == records.Length || forall i: nat :: i < records.Length ==> i in leased
    {
      hide MapIndex.Valid, TagIndex.Valid, Agree, Peers;
      if addr == unset {
        return InvalidParam, 0;
      }
      if peerCount >= records.Length {
        return LimitReached, 0;
      }
      var apos := addrIdx.Find(addr);
      if apos.Some? {
        return AlreadyPending, 0;
      }
      if id.Some? {
        var bpos := bcpIdx.Find(id.value);
        if bpos.Some? {
          return AlreadyPending, 0;
        }
      }
      var got := Acquire();
      if got.None? {
        return LimitReached, 0;
      }
      return Ok, got.value;
    }

    /** Inserts a peer under every key it was given. On success it is found by all
        of them; on failure nothing changes. */
    method RegisterPeer(addr: A, id: Option<I>, filler: I) returns (err: Error, slot: nat)
      requires Valid()
      modifies this, addrIdx, addrIdx.index.entries, bcpIdx, bcpIdx.index.entries, records
      ensures Valid()
      ensures err == Ok ==> slot !in old(Peers(Model())) && slot !in old(leased)
      ensures err == Ok ==> Peers(Model()) == old(Peers(Model()))[slot := Info(addr, id)]
      ensures err != Ok ==> Model() == old(Model())
      ensures Model().tags == old(Model()).tags
      ensures err in {Ok, InvalidParam, LimitReached, AlreadyPending}
      ensures err == InvalidParam <==> addr == unset
      ensures err == AlreadyPending <==>
        addr != unset && |old(Model()).addrs| < records.Length && Taken(old(Model()), addr, id)
      ensures err == Ok ==> !Taken(old(Model()), addr, id)
      ensures err == LimitReached ==>
        |old(Model()).addrs| == records.Length || forall i: nat :: i < records.Length ==> i in old(leased)
    {
      hide MapIndex.Valid, TagIndex.Valid, Agree, Peers, Taken;
      ghost var t := Model();
      TakenIsIndexed(t, addr, id);
      err, slot := Admit(addr, id);
      if err != Ok {
        return;
      }
      var r := Record(addr, if id.Some? then id.value else filler, id.Some?);
      RegisteredAgrees(t, slot, r);
      IdsWithin(t);
      Publish(slot, r);
    }

    /** Writes the record, then files it under its keys. */
    method Publish(slot: nat, r: Record<A, I>)
      requires Indexed() && slot < records.Length
      requires r.addr !in addrIdx.Map && |addrIdx.Map| < records.Length
      requires r.hasId ==> r.id !in bcpIdx.Map && |bcpIdx.Map| < records.Length
      requires peerCount == |addrIdx.Map|
      modifies this`leased, this`peerCount, addrIdx, addrIdx.index.entries, bcpIdx, bcpIdx.index.entries, records
      ensures Indexed() && peerCount == |addrIdx.Map| <= records.Length
      ensures Model() == Registered(old(Model()), slot, r)
    {
      hide MapIndex.Valid, TagIndex.Valid;
      leased := leased + {slot};
      records[slot] := r;
      assert records[..] == old(records[..])[slot := r];
      addrIdx.Insert(r.addr, slot);
      if r.hasId {
        bcpIdx.Insert(r.id, slot);
      }
      peerCount := peerCount + 1;
    }

    /** Adds a registered peer to the id index. */
    method BindId(slot: nat, id: I) returns (err: Error)
      requires Valid()
      modifies bcpIdx, bcpIdx.index.entries, records
      ensures Valid()
      ensures err == InvalidParam <==> slot >= records.Length
      ensures err == NotFound <==> slot < records.Length && slot !in old(Peers(Model()))
      ensures err == Ok ==> slot in old(Peers(Model())) && old(Peers(Model()))[slot].id == None
      ensures err == Ok ==>
        Peers(Model()) == old(Peers(Model()))[slot := old(Peers(Model()))[slot].(id := Some(id))]
      ensures err == AlreadyPending <==>
        slot in old(Peers(Model())) && (old(Peers(Model()))[slot].id.Some? || id in old(Model()).ids)
      ensures err != Ok ==> Model() == old(Model())
      ensures Model().tags == old(Model()).tags
    {
      hide MapIndex.Valid, TagIndex.Valid, Agree, Peers;
      ghost var t := Model();
      PeerIsLive(t, slot);
      if slot >= records.Length {
        return InvalidParam;
      }
      var live, apos := IsLive(slot);
      if !live {
        return NotFound;
      }
      if records[slot].hasId {
        return AlreadyPending;
      }
      var bpos := bcpIdx.Find(id);
      if bpos.Some? {
        return AlreadyPending;
      }
      BoundAgrees(t, slot, id);
      IdsWithin(t);
      PublishId(slot, id);
      return Ok;
    }

    method PublishId(slot: nat, id: I)
      requires Indexed() && slot < records.Length
      requires id !in bcpIdx.Map && |bcpIdx.Map| < records.Length
      modifies bcpIdx, bcpIdx.index.entries, records
      ensures Indexed()
      ensures Model() == Bound(old(Model()), slot, id)
    {
      hide MapIndex.Valid, TagIndex.Valid;
      records[slot] := records[slot].(id := id, hasId := true);
      assert records[..] == old(records[..])[slot := records[slot]];
      bcpIdx.Insert(id, slot);
    }

    /** Takes one live slot off the address and id indexes. */
    method Unlist(slot: nat, apos: nat)
      requires Indexed() && Agree(Model())
      requires Live(Model(), slot) && addrIdx.IsAt(apos, records[slot].addr)
      modifies addrIdx, addrIdx.index.entries, bcpIdx, bcpIdx.index.entries
      ensures Indexed()
      ensures Model() == Unlisted(old(Model()), slot)
      ensures |addrIdx.Map| + 1 == |old(addrIdx.Map)|
    {
      hide MapIndex.Valid, TagIndex.Valid, Agree;
      IdIsOnRecord(Model(), slot);
      var r := records[slot];
      ghost var m := addrIdx.Map;
      addrIdx.RemoveAt(apos, r.addr);
      assert addrIdx.Map.Keys == m.Keys - {r.addr};
      if r.hasId {
        var bpos := bcpIdx.Find(r.id);
        bcpIdx.RemoveAt(bpos.value, r.id);
      }
    }

    method ClearSlotTags(slot: nat)
      requires Indexed() && tagCount == |tagIdx.Bag|
      modifies this`tagCount, tagIdx, tagIdx.index.entries
      ensures Indexed() && tagCount == |tagIdx.Bag| <= |old(tagIdx.Bag)|
      ensures Model() == old(Model()).(tags := Without(old(Model()).tags, slot))
    {
      hide MapIndex.Valid, TagIndex.Valid;
      var gone := tagIdx.ClearTags(slot);
      tagCount := tagCount - gone;
    }

    /** Takes one live slot off every index, tags included. */
    method Unfile(slot: nat, apos: nat)
      requires Valid()
      requires Live(Model(), slot) && addrIdx.IsAt(apos, records[slot].addr)
      modifies this, addrIdx, addrIdx.index.entries, bcpIdx, bcpIdx.index.entries, tagIdx, tagIdx.index.entries
      ensures Valid()
      ensures Model() == Removed(old(Model()), slot)
    {
      hide Indexed, Agree, Live, Unlisted;
      ghost var t := Model();
      RemovedAgrees(t, slot);
      Unlist(slot, apos);
      ClearSlotTags(slot);
      peerCount := peerCount - 1;
    }

    /** Every index forgets the peer, and the position the id index is asked for is
        always there. The slot stays leased until its handles are gone. */
    method RemovePeer(addr: A) returns (err: Error, slot: nat)
      requires Valid()
      modifies this, addrIdx, addrIdx.index.entries, bcpIdx, bcpIdx.index.entries, tagIdx, tagIdx.index.entries
      ensures err == (if addr in old(Model()).addrs then Ok else NotFound)
      ensures addr in old(Model()).addrs ==> slot == old(Model()).addrs[addr]
      ensures err == Ok ==> Gone(old(Model()), Model(), slot)
      ensures err != Ok ==> Model() == old(Model())
      ensures Valid()
    {
      hide MapIndex.Valid, TagIndex.Valid, Agree, Peers, Removed;
      slot := 0;
      var apos := addrIdx.Find(addr);
      if apos.None? {
        return NotFound, 0;
      }
      slot := addrIdx.SlotAt(apos.value, addr);
      AddressIsOnRecord(Model(), addr);
      RemovedAgrees(Model(), slot);
      Unfile(slot, apos.value);
      err := Ok;
    }

    method RemovePeerById(id: I) returns (err: Error, slot: nat)
      requires Valid()
      modifies this, addrIdx, addrIdx.index.entries, bcpIdx, bcpIdx.index.entries, tagIdx, tagIdx.index.entries
      ensures err == (if id in old(Model()).ids then Ok else NotFound)
      ensures id in old(Model()).ids ==> slot == old(Model()).ids[id]
      ensures err == Ok ==> Gone(old(Model()), Model(), slot)
      ensures err != Ok ==> Model() == old(Model())
      ensures Valid()
    {
      hide MapIndex.Valid, TagIndex.Valid, Peers, Removed;
      slot := 0;
      var bpos := bcpIdx.Find(id);
      if bpos.None? {
        return NotFound, 0;
      }
      slot := bcpIdx.SlotAt(bpos.value, id);
      assert Live(Model(), slot);
      var apos := addrIdx.Find(records[slot].addr);
      RemovedAgrees(Model(), slot);
      Unfile(slot, apos.value);
      err := Ok;
    }

    /** Gives a removed slot back to the pool, once nobody holds a handle on it. With
        an event about it unread the lease stays, and the flag asks whoever delivers
        the event to end it. */
    method DrainAndFree(slot: nat, emitting: bool) returns (freeWhenRead: bool)
      requires Valid() && slot !in Peers(Model())
      modifies this`leased
      ensures Valid() && freeWhenRead == emitting
      ensures leased == if emitting then old(leased) else old(leased) - {slot}
      ensures Peers(Model()) == old(Peers(Model())) && Model() == old(Model()).(leased := leased)
    {
      hide Indexed, Agree, Peers;
      DrainedAgrees(Model(), slot);
      freeWhenRead := emitting;
      if !emitting {
        leased := leased - {slot};
      }
    }

    /** The event was delivered: a lease held only for it ends now. */
    method ClearEmitting(slot: nat, freeWhenRead: bool)
      requires Valid() && (freeWhenRead ==> slot !in Peers(Model()))
      modifies this`leased
      ensures Valid()
      ensures leased == if slot < records.Length && freeWhenRead then old(leased) - {slot} else old(leased)
      ensures Peers(Model()) == old(Peers(Model())) && Model() == old(Model()).(leased := leased)
    {
      hide Indexed, Agree, Peers;
      if slot >= records.Length {
        return;
      }
      if freeWhenRead {
        DrainedAgrees(Model(), slot);
        leased := leased - {slot};
      }
    }

    /** Re-files a live peer under a new address; a move never displaces a peer. */
    method UpdateAddress(slot: nat, addr: A) returns (err: Error)
      requires Valid()
      modifies this, addrIdx, addrIdx.index.entries, records
      ensures Valid()
      ensures err == InvalidParam <==> slot >= records.Length || addr == unset
      ensures err == NotFound <==> slot < records.Length && addr != unset && slot !in old(Peers(Model()))
      ensures err == AlreadyPending <==>
        addr != unset && slot in old(Peers(Model())) && addr in old(Model()).addrs && old(Model()).addrs[addr] != slot
      ensures err == Ok ==> slot in old(Peers(Model()))
      ensures err == Ok ==>
        Peers(Model()) == old(Peers(Model()))[slot := old(Peers(Model()))[slot].(addr := addr)]
      ensures err != Ok ==> Model() == old(Model())
      ensures Model().tags == old(Model()).tags && Model().ids == old(Model()).ids
    {
      hide MapIndex.Valid, TagIndex.Valid, Agree, Peers;
      ghost var t := Model();
      PeerIsLive(t, slot);
      if slot >= records.Length || addr == unset {
        return InvalidParam;
      }
      var live, apos := IsLive(slot);
      if !live {
        return NotFound;
      }
      if addr == records[slot].addr {
        return Ok;
      }
      var taken := addrIdx.Find(addr);
      if taken.Some? {
        AddressIsOnRecord(t, addr);
        return AlreadyPending;
      }
      MovedAgrees(t, slot, addr);
      Refile(slot, apos, addr);
      return Ok;
    }

    /** The record changes before the index does. */
    method Refile(slot: nat, apos: nat, addr: A)
      requires Indexed() && slot < records.Length
      requires addrIdx.IsAt(apos, records[slot].addr) && addr !in addrIdx.Map
      requires |addrIdx.Map| <= records.Length
      modifies addrIdx, addrIdx.index.entries, records
      ensures Indexed() && |addrIdx.Map| == |old(addrIdx.Map)|
      ensures Model() == Moved(old(Model()), slot, addr)
    {
      hide MapIndex.Valid, TagIndex.Valid;
      ghost var was, m := records[slot].addr, addrIdx.Map;
      records[slot] := records[slot].(addr := addr);
      assert records[..] == old(records[..])[slot := records[slot]];
      addrIdx.RemoveAt(apos, was);
      assert (m - {was}).Keys == m.Keys - {was};
      addrIdx.Insert(addr, slot);
    }

    /** Indexes one more tag for a live peer. */
    method BindTag(slot: nat, tag: nat) returns (err: Error)
      requires Valid()
      modifies this`tagCount, tagIdx, tagIdx.index.entries
      ensures Valid()
      ensures err == InvalidParam <==> slot >= records.Length || tag == 0
      ensures err == LimitReached <==> slot < records.Length && tag != 0 && |old(Model()).tags| == tagCapacity
      ensures err == NotFound <==>
        slot < records.Length && tag != 0 && |old(Model()).tags| < tagCapacity && slot !in Peers(Model())
      ensures err == Ok ==> slot in Peers(Model())
      ensures err == Ok ==>
        Model() == old(Model()).(tags := old(Model()).tags + multiset{Bucket(tag, slot, ())})
      ensures err != Ok ==> Model() == old(Model())
    {
      hide MapIndex.Valid, TagIndex.Valid, Agree, Peers, Live;
      ghost var t := Model();
      PeerIsLive(t, slot);
      if slot >= records.Length || tag == 0 {
        return InvalidParam;
      }
      if tagCount >= tagCapacity {
        return LimitReached;
      }
      var live, apos := IsLive(slot);
      if !live {
        return NotFound;
      }
      TagsOfLive(t);
      TaggedAgrees(t, t.tags + multiset{Bucket(tag, slot, ())});
      IndexTag(slot, tag);
      return Ok;
    }

    method IndexTag(slot: nat, tag: nat)
      requires Indexed() && tag != 0 && tagCount == |tagIdx.Bag| < tagCapacity
      modifies this`tagCount, tagIdx, tagIdx.index.entries
      ensures Indexed() && tagCount == |tagIdx.Bag| <= tagCapacity
      ensures Model() == old(Model()).(tags := old(Model()).tags + multiset{Bucket(tag, slot, ())})
    {
      hide MapIndex.Valid, TagIndex.Valid;
      tagIdx.Insert(tag, slot);
      tagCount := tagCount + 1;
    }

    /** Removes one (tag, slot) entry; a peer sharing the tag keeps its own. */
    method UnbindTag(slot: nat, tag: nat) returns (err: Error)
      requires Valid()
      modifies this`tagCount, tagIdx, tagIdx.index.entries
      ensures Valid()
      ensures err == InvalidParam <==> tag == 0
      ensures tag != 0 ==> err == (if Bucket(tag, slot, ()) in old(Model()).tags then Ok else NotFound)
      ensures err == Ok ==> Model().tags + multiset{Bucket(tag, slot, ())} == old(Model()).tags
      ensures Model() == old(Model()).(tags := Model().tags)
      ensures err != Ok ==> Model() == old(Model())
    {
      hide MapIndex.Valid, TagIndex.Valid, Agree, Peers, Live;
      ghost var t := Model();
      if tag == 0 {
        return InvalidParam;
      }
      var tpos := tagIdx.Find(tag, slot);
      if tpos.None? {
        return NotFound;
      }
      TagsOfLive(t);
      DropTag(tpos.value, Bucket(tag, slot, ()));
      TaggedAgrees(t, tagIdx.Bag);
      return Ok;
    }

    method DropTag(pos: nat, ghost entry: TagEntry)
      requires Indexed() && tagCount == |tagIdx.Bag|
      requires pos < tagIdx.Size() && Full(tagIdx.index.entries[pos]) && tagIdx.index.entries[pos] == entry
      modifies this`tagCount, tagIdx, tagIdx.index.entries
      ensures Indexed() && tagCount == |tagIdx.Bag| <= |old(tagIdx.Bag)|
      ensures tagIdx.Bag + multiset{entry} == old(tagIdx.Bag)
      ensures Model() == old(Model()).(tags := Model().tags)
    {
      hide MapIndex.Valid, TagIndex.Valid, RobinHoodIndex.Shifted;
      ghost var moved := tagIdx.RemoveAt(pos);
      tagCount := tagCount - 1;
    }

    /** Removes every tag one slot holds and no other pair. */
    method UnbindTags(slot: nat)
      requires Valid()
      modifies this`tagCount, tagIdx, tagIdx.index.entries
      ensures Valid()
      ensures Model().tags == Without(old(Model()).tags, slot)
      ensures Model() == old(Model()).(tags := Model().tags)
    {
      hide MapIndex.Valid, TagIndex.Valid, Agree, Peers, Live;
      ghost var t := Model();
      TagsOfLive(t);
      ClearSlotTags(slot);
      TaggedAgrees(t, tagIdx.Bag);
    }
  }

  /** A live peer already answers to the address or the id. */
  ghost predicate Taken<A(!new), I(!new)>(t: Table<A, I>, addr: A, id: Option<I>) {
    exists s :: s in Peers(t) && (Peers(t)[s].addr == addr || (id.Some? && Peers(t)[s].id == id))
  }

  lemma {:induction false} TakenIsIndexed<A(!new), I(!new)>(t: Table<A, I>, addr: A, id: Option<I>)
    requires Agree(t)
    ensures Taken(t, addr, id) <==> addr in t.addrs || (id.Some? && id.value in t.ids)
  {
    if addr in t.addrs {
      assert t.addrs[addr] in Peers(t);
    } else if id.Some? && id.value in t.ids {
      assert t.ids[id.value] in Peers(t);
    }
  }
}
