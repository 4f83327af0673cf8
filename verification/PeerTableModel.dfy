/** The peer table on values: two maps, a bag of tag entries and the peer records
    of every slot, live or stale. A slot is live when the address on its record
    maps back to it, which is the test the table itself uses. */
module PeerTableModel {
  import opened Options
  import opened RobinHood

  datatype Record<A, I> = Record(addr: A, id: I, hasId: bool)

  datatype Table<A, I> = Table(
    addrs: map<A, nat>,
    ids: map<I, nat>,
    tags: multiset<TagEntry>,
    records: seq<Record<A, I>>,
    leased: set<nat>)

  datatype Info<A, I> = Info(addr: A, id: Option<I>)

  predicate Live<A(==), I>(t: Table<A, I>, slot: nat) {
    && slot < |t.records|
    && t.records[slot].addr in t.addrs
    && t.addrs[t.records[slot].addr] == slot
  }

  /** The four structures tell one story. */
  ghost predicate Agree<A(!new), I(!new)>(t: Table<A, I>) {
    && (forall a :: a in t.addrs ==>
          t.addrs[a] < |t.records| && t.addrs[a] in t.leased && t.records[t.addrs[a]].addr == a)
    && (forall i :: i in t.ids ==>
          Live(t, t.ids[i]) && t.records[t.ids[i]].hasId && t.records[t.ids[i]].id == i)
    && (forall slot: nat :: Live(t, slot) && t.records[slot].hasId ==>
          t.records[slot].id in t.ids && t.ids[t.records[slot].id] == slot)
    && (forall b :: b in t.tags ==> b.hash != 0 && Live(t, b.idx))
  }

  /** The table as its users see it: which slots hold which peer. */
  ghost function Peers<A, I>(t: Table<A, I>): (r: map<nat, Info<A, I>>) {
    map slot: nat | 0 <= slot < |t.records| && Live(t, slot) ::
      Info(t.records[slot].addr, if t.records[slot].hasId then Some(t.records[slot].id) else None)
  }

  lemma {:induction false} PeerIsLive<A, I>(t: Table<A, I>, slot: nat)
    ensures slot in Peers(t) <==> Live(t, slot)
    ensures slot in Peers(t) ==> Peers(t)[slot].addr == t.records[slot].addr
    ensures slot in Peers(t) ==> (Peers(t)[slot].id.Some? <==> t.records[slot].hasId)
    ensures slot in Peers(t) ==> (t.records[slot].hasId ==> Peers(t)[slot].id.value == t.records[slot].id)
  {
  }

  lemma {:induction false} AddressIsOnRecord<A(!new), I(!new)>(t: Table<A, I>, addr: A)
    requires Agree(t) && addr in t.addrs
    ensures Live(t, t.addrs[addr]) && t.records[t.addrs[addr]].addr == addr
  {
  }

  lemma {:induction false} IdIsOnRecord<A(!new), I(!new)>(t: Table<A, I>, slot: nat)
    requires Agree(t) && Live(t, slot)
    ensures t.records[slot].hasId ==> t.records[slot].id in t.ids && t.ids[t.records[slot].id] == slot
  {
  }

  lemma {:induction false} TagsOfLive<A(!new), I(!new)>(t: Table<A, I>)
    requires Agree(t)
    ensures forall b :: b in t.tags ==> b.hash != 0 && Live(t, b.idx)
  {
  }

  lemma {:induction false} EmptyAgrees<A(!new), I(!new)>(t: Table<A, I>)
    requires t.addrs == map[] && t.ids == map[] && t.tags == multiset{}
    ensures Agree(t) && Peers(t) == map[]
  {
  }

  // --- The operations on values ---

  ghost function Registered<A, I>(t: Table<A, I>, slot: nat, r: Record<A, I>): (res: Table<A, I>)
    requires slot < |t.records|
  {
    Table(t.addrs[r.addr := slot], if r.hasId then t.ids[r.id := slot] else t.ids, t.tags,
          t.records[slot := r], t.leased + {slot})
  }

  ghost function Bound<A, I>(t: Table<A, I>, slot: nat, id: I): (r: Table<A, I>)
    requires slot < |t.records|
  {
    t.(ids := t.ids[id := slot], records := t.records[slot := t.records[slot].(id := id, hasId := true)])
  }

  /** Off every index, still leased until the handles on it are gone. */
  ghost function Removed<A, I>(t: Table<A, I>, slot: nat): (r: Table<A, I>)
    requires slot < |t.records|
  {
    Unlisted(t, slot).(tags := Without(t.tags, slot))
  }

  /** Exactly this peer and its tags are gone. */
  ghost predicate Gone<A, I>(t: Table<A, I>, u: Table<A, I>, slot: nat) {
    Peers(u) == Peers(t) - {slot} && u.tags == Without(t.tags, slot)
  }

  ghost function Unlisted<A, I>(t: Table<A, I>, slot: nat): (r: Table<A, I>)
    requires slot < |t.records|
  {
    t.(addrs := t.addrs - {t.records[slot].addr},
       ids := if t.records[slot].hasId then t.ids - {t.records[slot].id} else t.ids)
  }

  ghost function Moved<A, I>(t: Table<A, I>, slot: nat, addr: A): (r: Table<A, I>)
    requires slot < |t.records|
  {
    t.(addrs := (t.addrs - {t.records[slot].addr})[addr := slot],
       records := t.records[slot := t.records[slot].(addr := addr)])
  }

  /** Only the new slot's liveness changes. */
  lemma {:induction false} RegisteredLive<A(!new), I(!new)>(t: Table<A, I>, slot: nat, r: Record<A, I>)
    requires Agree(t) && slot < |t.records| && slot !in t.leased && r.addr !in t.addrs
    ensures Live(Registered(t, slot, r), slot) && !Live(t, slot)
    ensures forall s: nat :: s != slot ==> (Live(Registered(t, slot, r), s) <==> Live(t, s))
  {
    var u := Registered(t, slot, r);
    forall s: nat | s != slot
      ensures Live(u, s) <==> Live(t, s)
    {
    }
  }

  lemma {:induction false} RegisteredAgrees<A(!new), I(!new)>(t: Table<A, I>, slot: nat, r: Record<A, I>)
    requires Agree(t) && slot < |t.records| && slot !in t.leased
    requires r.addr !in t.addrs && (r.hasId ==> r.id !in t.ids)
    ensures Agree(Registered(t, slot, r))
    ensures slot !in Peers(t)
    ensures Peers(Registered(t, slot, r)) ==
      Peers(t)[slot := Info(r.addr, if r.hasId then Some(r.id) else None)]
  {
    RegisteredLive(t, slot, r);
    RegisteredPeers(t, slot, r);
  }

  lemma {:induction false} RegisteredPeers<A(!new), I(!new)>(t: Table<A, I>, slot: nat, r: Record<A, I>)
    requires slot < |t.records|
    requires Live(Registered(t, slot, r), slot) && !Live(t, slot)
    requires forall s: nat :: s != slot ==> (Live(Registered(t, slot, r), s) <==> Live(t, s))
    ensures slot !in Peers(t)
    ensures Peers(Registered(t, slot, r)) ==
      Peers(t)[slot := Info(r.addr, if r.hasId then Some(r.id) else None)]
  {
    hide Live;
  }

  lemma {:induction false} BoundAgrees<A(!new), I(!new)>(t: Table<A, I>, slot: nat, id: I)
    requires Agree(t) && Live(t, slot) && !t.records[slot].hasId && id !in t.ids
    ensures Agree(Bound(t, slot, id))
    ensures Peers(Bound(t, slot, id)) == Peers(t)[slot := Info(t.records[slot].addr, Some(id))]
  {
    var u := Bound(t, slot, id);
    assert forall s: nat :: Live(u, s) <==> Live(t, s);
  }

  lemma {:induction false} RemovedAgrees<A(!new), I(!new)>(t: Table<A, I>, slot: nat)
    requires Agree(t) && Live(t, slot)
    ensures Agree(Removed(t, slot))
    ensures Gone(t, Removed(t, slot), slot)
  {
    var u := Removed(t, slot);
    forall s: nat
      ensures Live(u, s) <==> Live(t, s) && s != slot
    {
    }
  }

  lemma {:induction false} MovedAgrees<A(!new), I(!new)>(t: Table<A, I>, slot: nat, addr: A)
    requires Agree(t) && Live(t, slot) && addr !in t.addrs
    ensures Agree(Moved(t, slot, addr))
    ensures Peers(Moved(t, slot, addr)) == Peers(t)[slot := Peers(t)[slot].(addr := addr)]
  {
    var u := Moved(t, slot, addr);
    forall s: nat
      ensures Live(u, s) <==> Live(t, s)
    {
    }
  }

  lemma {:induction false} TaggedAgrees<A(!new), I(!new)>(t: Table<A, I>, tags: multiset<TagEntry>)
    requires Agree(t)
    requires forall b :: b in tags ==> b.hash != 0 && Live(t, b.idx)
    ensures Agree(t.(tags := tags))
    ensures Peers(t.(tags := tags)) == Peers(t)
  {
    var u := t.(tags := tags);
    assert forall s: nat :: Live(u, s) <==> Live(t, s);
  }

  lemma {:induction false} DrainedAgrees<A(!new), I(!new)>(t: Table<A, I>, slot: nat)
    requires Agree(t) && slot !in Peers(t)
    ensures Agree(t.(leased := t.leased - {slot}))
    ensures Peers(t.(leased := t.leased - {slot})) == Peers(t)
  {
    var u := t.(leased := t.leased - {slot});
    PeerIsLive(t, slot);
    assert forall s: nat :: Live(u, s) <==> Live(t, s);
  }

  // --- Counting ---

  lemma {:induction false} InjectiveSize<K, V>(m: map<K, V>, vs: set<V>)
    requires forall k :: k in m ==> m[k] in vs
    requires forall k, k' :: k in m && k' in m && m[k] == m[k'] ==> k == k'
    ensures |m| <= |vs|
    decreases |m|
  {
    if m != map[] {
      var k :| k in m;
      var rest := m - {k};
      assert rest.Keys == m.Keys - {k};
      InjectiveSize(rest, vs - {m[k]});
    }
  }

  /** Ids never outnumber addresses, so the id index is no fuller. */
  lemma {:induction false} IdsWithin<A(!new), I(!new)>(t: Table<A, I>)
    requires Agree(t)
    ensures |t.ids| <= |t.addrs|
    ensures (exists slot: nat :: Live(t, slot) && !t.records[slot].hasId) ==> |t.ids| < |t.addrs|
  {
    var back := map i | i in t.ids :: t.records[t.ids[i]].addr;
    assert back.Keys == t.ids.Keys;
    forall i, j | i in back && j in back && back[i] == back[j]
      ensures i == j
    {
      assert t.ids[i] == t.ids[j];
    }
    InjectiveSize(back, t.addrs.Keys);
    if slot: nat :| Live(t, slot) && !t.records[slot].hasId {
      InjectiveSize(back, t.addrs.Keys - {t.records[slot].addr});
    }
  }
}
