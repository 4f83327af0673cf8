/** What every interleaving of the writer, the drains and the readers keeps, and
    what a finished lookup therefore tells its caller. */
module SeqlockSafety {
  import opened Options
  import opened RobinHood
  import opened Seqlock
  import opened KeyedIndex

  // --- The invariant ---

  /** The address is rewritten on the record and not yet in the index. */
  predicate Ahead(w: Writer, slot: nat, from: Key) {
    w.Busy? && w.op.Move? && w.op.slot == slot && w.op.from == from && w.phase in {Written, Open}
  }

  /** Ahead, with the version still even: the one state in which a lookup can miss a
      peer that is mapped, or find one under a key not mapped yet. */
  predicate MidMove(w: Writer, slot: nat, from: Key) {
    Ahead(w, slot, from) && w.phase == Written
  }

  predicate MidMoveTo(w: Writer, slot: nat, key: Key) {
    w.Busy? && w.op.Move? && w.op.slot == slot && w.op.key == Some(key) && w.phase == Written
  }

  ghost predicate Shaped(s: Sys) {
    && (forall k :: s.hash(k) != 0)
    && |s.buckets| > 1 && |s.stage| == |s.records|
    && (forall p :: 0 <= p < |s.buckets| ==> s.buckets[p].idx < |s.records|)
  }

  ghost predicate Versioned(s: Sys) {
    && (s.version % 2 == 0 <==> !(s.writer.Busy? && s.writer.phase == Open))
    && (s.version % 2 == 0 ==> Indexes(s.buckets, s.hash, s.mapped))
    && (s.slow.Some? ==> s.writer.Idle?)
  }

  /** A mapped key is on its live slot's record, unless a move runs ahead. */
  ghost predicate MappedOk(s: Sys)
    requires Shaped(s)
  {
    forall k :: k in s.mapped ==>
      && s.mapped[k] < |s.records| && s.stage[s.mapped[k]] == Live
      && (s.records[s.mapped[k]] == Some(k) || Ahead(s.writer, s.mapped[k], k))
  }

  predicate Publishing(w: Writer, slot: nat) {
    w.Busy? && (w.op.Bind? || w.op.Move?) && w.op.slot == slot && w.phase in {Written, Open}
  }

  /** A live peer's key is mapped to it, unless it is just being published. */
  ghost predicate LiveOk(s: Sys)
    requires Shaped(s)
  {
    forall slot: nat :: slot < |s.records| && s.stage[slot] == Live && s.records[slot].Some? ==>
      || Publishing(s.writer, slot)
      || (s.records[slot].value in s.mapped && s.mapped[s.records[slot].value] == slot)
  }

  ghost predicate OpOk(s: Sys, op: Op, phase: Phase)
    requires Shaped(s)
  {
    match op
    case Register(slot, key) =>
      && slot < |s.stage| && s.stage[slot] == Fresh && (key.Some? ==> key.value !in s.mapped)
      && (phase in {Written, Open} ==> s.records[slot] == key)
    case Bind(slot, key) =>
      && slot < |s.stage| && s.stage[slot] == Live && key.Some? && key.value !in s.mapped
      && s.records[slot] == (if phase in {Written, Open} then key else None)
    case Move(slot, from, key) =>
      && from in s.mapped && s.mapped[from] == slot && key.Some? && key.value !in s.mapped
      && slot < |s.records| && s.records[slot] == (if phase in {Written, Open} then key else Some(from))
    case Remove(slot, key) =>
      && slot < |s.stage| && s.stage[slot] == Live && s.records[slot] == key
      && phase in {Written, Open}
    case Other => phase in {Written, Open}
  }

  ghost predicate WriterOk(s: Sys)
    requires Shaped(s)
  {
    && (s.writer.Busy? && s.writer.phase != Closed ==> OpOk(s, s.writer.op, s.writer.phase))
    && (s.writer.Busy? && s.writer.phase == Closed && s.writer.op.Bind? ==>
          s.writer.op.slot < |s.stage| && s.stage[s.writer.op.slot] == Live)
  }

  ghost predicate SharedOk(s: Sys) {
    Shaped(s) && Versioned(s) && MappedOk(s) && LiveOk(s) && WriterOk(s)
  }

  /** No bucket the probe has passed was the key's, short of a move in progress. */
  ghost predicate Passed(s: Sys, key: Key, dist: nat)
    requires |s.buckets| > 0
  {
    forall j: nat :: j < dist && j < |s.buckets| && Holds(s.buckets, Pos(s, key, j), key) ==>
      MidMove(s.writer, s.buckets[Pos(s, key, j)].idx, key)
  }

  ghost predicate HashSeen(s: Sys, key: Key, dist: nat)
    requires |s.buckets| > 0
  {
    dist < |s.buckets| && s.buckets[Pos(s, key, dist)].hash == s.hash(key)
  }

  /** What a lookup knows while the version is the one it started from. */
  ghost predicate Current(s: Sys, rd: Reader)
    requires |s.buckets| > 0 && rd.Looking?
  {
    && rd.snap == s.buckets
    && match rd.place
       case Probe(d) => Passed(s, rd.key, d)
       case SawHash(d) => Passed(s, rd.key, d) && HashSeen(s, rd.key, d)
       case Ended => rd.key in s.mapped ==> MidMove(s.writer, s.mapped[rd.key], rd.key)
       case _ =>
         && Passed(s, rd.key, rd.place.dist) && HashSeen(s, rd.key, rd.place.dist)
         && s.buckets[Pos(s, rd.key, rd.place.dist)].idx == rd.place.slot
  }

  /** A read lock keeps writers and drains off the slot. */
  ghost predicate PinOk(s: Sys, rd: Reader)
    requires Shaped(s)
  {
    && (rd.Looking? && rd.place.Chosen? ==> rd.place.slot < |s.records|)
    && (rd.Looking? && (rd.place.Pinned? || rd.place.Verified?) ==>
          rd.place.slot < |s.records| && !WriteLocked(s, rd.place.slot))
    && (rd.Looking? && rd.place.Verified? ==> s.records[rd.place.slot] == Some(rd.key))
    && (rd.Holding? ==>
          && rd.slot < |s.records| && !WriteLocked(s, rd.slot)
          && s.stage[rd.slot] in {Live, Draining} && s.records[rd.slot] == Some(rd.key))
  }

  ghost predicate ReaderOk(s: Sys, r: nat)
    requires Shaped(s) && r < |s.readers|
  {
    var rd := s.readers[r];
    && PinOk(s, rd)
    && (s.slow == Some(r) ==> rd.Looking? && s.version == rd.start)
    && (rd.Looking? ==> rd.start <= s.version && rd.start % 2 == 0)
    && (rd.Looking? && s.version == rd.start ==> Current(s, rd))
  }

  ghost predicate Inv(s: Sys) {
    SharedOk(s) && forall r: nat :: r < |s.readers| ==> ReaderOk(s, r)
  }

  /** The writer's closing condition is what the in-place index keeps: an ordered
      table with one entry per key stands for its mapping. */
  lemma {:induction false} IndexStands(b: seq<Entry>, hash: Key -> nat)
    requires Ordered(b) && Keyed(Contents(b), hash)
    ensures Indexes(b, hash, Mapping(Contents(b), hash))
  {
    var m := Mapping(Contents(b), hash);
    forall p: nat | p < |b| && Full(b[p])
      ensures b[p].hash == hash(b[p].key) && b[p].key in m && m[b[p].key] == b[p].idx
    {
      FoundIsMapped(b, hash, p);
      InContents(b, b[p]);
    }
    forall k | k in m
      ensures exists p: nat :: Holds(b, p, k)
    {
      var e :| e in Contents(b) && e.key == k;
      InContents(b, e);
      var p: nat :| p < |b| && b[p] == e && Full(e);
      assert Holds(b, p, k);
    }
  }

  // --- A step that does not touch one reader ---

  ghost predicate Undisturbed(s: Sys, t: Sys, r: nat)
    requires Shaped(s) && Shaped(t) && r < |s.readers|
  {
    && |t.readers| == |s.readers| && t.readers[r] == s.readers[r]
    && |t.records| == |s.records| && t.hash == s.hash && s.version <= t.version
    && (t.slow == Some(r) ==> s.slow == Some(r))
    && (s.slow == Some(r) ==> t.version == s.version)
    && (s.version == t.version && s.version % 2 == 0 ==>
          && t.buckets == s.buckets && t.mapped == s.mapped
          && forall slot: nat, k :: MidMove(s.writer, slot, k) ==> MidMove(t.writer, slot, k))
    && (forall slot: nat :: Pins(s.readers[r], slot) && slot < |s.records| ==>
          && t.records[slot] == s.records[slot] && (WriteLocked(t, slot) ==> WriteLocked(s, slot))
          && (s.stage[slot] in {Live, Draining} ==> t.stage[slot] in {Live, Draining}))
  }

  lemma {:induction false} ReaderKept(s: Sys, t: Sys, r: nat)
    requires SharedOk(s) && Shaped(t) && r < |s.readers| && ReaderOk(s, r) && Undisturbed(s, t, r)
    ensures ReaderOk(t, r)
  {
    hide Indexes, MappedOk, LiveOk, WriterOk;
    var rd := s.readers[r];
    if rd.Looking? && t.version == rd.start {
      assert Current(s, rd);
      assert forall d: nat :: Pos(t, rd.key, d) == Pos(s, rd.key, d);
    }
  }

  // --- The writer's steps ---

  lemma {:induction false} BeginKeeps(s: Sys, op: Op, t: Sys)
    requires SharedOk(s) && WriterNext(s, Begin(op), t)
    ensures SharedOk(t)
  {
    hide Indexes;
  }

  lemma {:induction false} LockSlotKeeps(s: Sys, t: Sys)
    requires SharedOk(s) && WriterNext(s, LockSlot, t)
    ensures SharedOk(t)
  {
    hide Indexes;
  }

  lemma {:induction false} WriteRecordKeeps(s: Sys, t: Sys)
    requires SharedOk(s) && WriterNext(s, WriteRecord, t)
    ensures SharedOk(t)
  {
    hide Indexes;
  }

  lemma {:induction false} OpenKeeps(s: Sys, t: Sys)
    requires SharedOk(s) && WriterNext(s, OpenIndex, t)
    ensures SharedOk(t)
  {
    hide Indexes;
  }

  lemma {:induction false} StoreKeeps(s: Sys, pos: nat, entry: Entry, t: Sys)
    requires SharedOk(s) && WriterNext(s, Store(pos, entry), t)
    ensures SharedOk(t)
  {
    hide Indexes;
  }

  lemma {:induction false} CloseKeeps(s: Sys, t: Sys)
    requires SharedOk(s) && WriterNext(s, CloseIndex, t)
    ensures SharedOk(t)
  {
    hide Indexes;
  }

  lemma {:induction false} FinishKeeps(s: Sys, t: Sys)
    requires SharedOk(s) && WriterNext(s, Finish, t)
    ensures SharedOk(t)
  {
    hide Indexes;
  }

  lemma {:induction false} DrainKeeps(s: Sys, step: Step, t: Sys)
    requires SharedOk(s) && DrainNext(s, step, t)
    ensures SharedOk(t)
  {
    hide Indexes;
  }

  lemma {:induction false} WriterKeeps(s: Sys, step: Step, t: Sys)
    requires SharedOk(s) && WriterNext(s, step, t)
    ensures SharedOk(t)
  {
    hide SharedOk, WriterNext;
    match step
    case Begin(op) => BeginKeeps(s, op, t);
    case LockSlot => LockSlotKeeps(s, t);
    case WriteRecord => WriteRecordKeeps(s, t);
    case OpenIndex => OpenKeeps(s, t);
    case Store(pos, entry) => StoreKeeps(s, pos, entry, t);
    case CloseIndex => CloseKeeps(s, t);
    case Finish => FinishKeeps(s, t);
    case _ => NotWriters(s, step, t);
  }

  lemma {:induction false} NotWriters(s: Sys, step: Step, t: Sys)
    requires WriterNext(s, step, t)
    ensures step in {LockSlot, WriteRecord, OpenIndex, CloseIndex, Finish} || step.Begin? || step.Store?
  {
  }

  lemma {:induction false} WriterLeavesReaders(s: Sys, step: Step, t: Sys, r: nat)
    requires Inv(s) && r < |s.readers| && Shaped(t)
    requires WriterNext(s, step, t) || DrainNext(s, step, t)
    ensures Undisturbed(s, t, r)
  {
    hide Indexes, MappedOk, LiveOk, Current;
    assert ReaderOk(s, r);
  }

  // --- The readers' steps ---

  /** One reader moved and nothing shared did. */
  lemma {:induction false} OthersLeft(s: Sys, t: Sys, r: nat, q: nat)
    requires Inv(s) && Shaped(t) && r < |s.readers| && q < |s.readers| && q != r
    requires t == s.(readers := t.readers, slow := t.slow)
    requires |t.readers| == |s.readers| && t.readers == s.readers[r := t.readers[r]]
    requires t.slow in {s.slow, None, Some(r)}
    ensures ReaderOk(t, q)
  {
    hide Indexes, MappedOk, LiveOk, WriterOk, Current;
    assert ReaderOk(s, q);
    ReaderKept(s, t, q);
  }

  lemma {:induction false} LookKeeps(s: Sys, r: nat, key: Key, t: Sys)
    requires Inv(s) && (ReaderNext(s, Look(r, key), t) || ReaderNext(s, LookSlow(r, key), t))
    ensures ReaderOk(t, r)
  {
    hide Indexes, MappedOk, LiveOk, WriterOk;
  }

  /** A probe that stops has passed the key's bucket, or the key has none. */
  lemma {:induction false} StoppedProbe(s: Sys, key: Key, dist: nat)
    requires SharedOk(s) && s.version % 2 == 0 && Passed(s, key, dist)
    requires dist >= |s.buckets| || Disp(s.buckets, Pos(s, key, dist)) < dist
    ensures key in s.mapped ==> MidMove(s.writer, s.mapped[key], key)
  {
    hide MappedOk, LiveOk, WriterOk;
    if key in s.mapped {
      var p: nat :| Holds(s.buckets, p, key);
      var d := Dist(s.hash(key), p, |s.buckets|);
      AtGap(Home(s.hash(key), |s.buckets|), p, |s.buckets|);
      assert Pos(s, key, d) == p;
      if d >= dist {
        ProbePath(s.buckets, s.hash(key), p, dist);
      }
    }
  }

  lemma {:induction false} LoadHashKeeps(s: Sys, r: nat, t: Sys)
    requires Inv(s) && ReaderNext(s, LoadHash(r), t)
    ensures ReaderOk(t, r)
  {
    hide MappedOk, LiveOk, WriterOk, Indexes;
    assert ReaderOk(s, r);
    var rd, d := s.readers[r], s.readers[r].place.dist;
    if s.version == rd.start {
      var place := AfterHash(s, rd.key, d);
      if place.Ended? {
        StoppedProbe(s, rd.key, d);
      } else if place.Probe? {
        OtherHash(s, rd.key, d);
      }
      SamePlaces(s, t, rd.key);
    }
  }

  lemma {:induction false} SamePlaces(s: Sys, t: Sys, key: Key)
    requires |s.buckets| > 0 && t.buckets == s.buckets && t.hash == s.hash
    ensures forall d: nat :: Pos(t, key, d) == Pos(s, key, d)
  {
  }

  lemma {:induction false} OtherHash(s: Sys, key: Key, d: nat)
    requires Shaped(s) && Indexes(s.buckets, s.hash, s.mapped) && d < |s.buckets| && Passed(s, key, d)
    requires s.buckets[Pos(s, key, d)].hash != s.hash(key)
    ensures Passed(s, key, d + 1)
  {
    assert !Holds(s.buckets, Pos(s, key, d), key);
  }

  lemma {:induction false} LoadIdxKeeps(s: Sys, r: nat, t: Sys)
    requires Inv(s) && ReaderNext(s, LoadIdx(r), t)
    ensures ReaderOk(t, r)
  {
    hide MappedOk, LiveOk, WriterOk, Indexes;
    assert ReaderOk(s, r);
    SamePlaces(s, t, s.readers[r].key);
  }

  lemma {:induction false} PinKeeps(s: Sys, r: nat, t: Sys)
    requires Inv(s) && ReaderNext(s, Pin(r), t)
    ensures ReaderOk(t, r)
  {
    hide MappedOk, LiveOk, WriterOk, Indexes;
    assert ReaderOk(s, r);
    SamePlaces(s, t, s.readers[r].key);
  }

  /** A record that fails the key check under the key's own entry is mid-move. */
  lemma {:induction false} FailedVerify(s: Sys, key: Key, d: nat, slot: nat)
    requires SharedOk(s) && s.version % 2 == 0 && d < |s.buckets| && Passed(s, key, d)
    requires s.buckets[Pos(s, key, d)].idx == slot < |s.records| && s.records[slot] != Some(key)
    ensures Passed(s, key, d + 1)
  {
    var p := Pos(s, key, d);
    if Holds(s.buckets, p, key) {
      assert s.mapped[key] == slot;
    }
  }

  lemma {:induction false} VerifyKeeps(s: Sys, r: nat, t: Sys)
    requires Inv(s) && ReaderNext(s, Verify(r), t)
    ensures ReaderOk(t, r)
  {
    hide MappedOk, LiveOk, WriterOk, Indexes;
    assert ReaderOk(s, r);
    var rd := s.readers[r];
    SamePlaces(s, t, rd.key);
    if s.version == rd.start && s.records[rd.place.slot] != Some(rd.key) {
      FailedVerify(s, rd.key, rd.place.dist, rd.place.slot);
    }
  }

  /** Under a matching version, the pinned slot is one the index maps, so it is
      live. */
  lemma {:induction false} VerifiedIsLive(s: Sys, r: nat)
    requires Inv(s) && InLookup(s, r) && s.readers[r].place.Verified? && s.version == s.readers[r].start
    ensures s.readers[r].place.slot < |s.stage| && s.stage[s.readers[r].place.slot] == Live
  {
    assert ReaderOk(s, r);
    var rd := s.readers[r];
    var e := s.buckets[Pos(s, rd.key, rd.place.dist)];
    assert Full(e) && s.mapped[e.key] == rd.place.slot;
  }

  lemma {:induction false} RecheckKeeps(s: Sys, r: nat, t: Sys)
    requires Inv(s) && (ReaderNext(s, Recheck(r), t) || ReaderNext(s, Drop(r), t))
    ensures ReaderOk(t, r)
  {
    hide MappedOk, LiveOk, WriterOk, Indexes;
    assert ReaderOk(s, r);
    if t.readers[r].Holding? {
      VerifiedIsLive(s, r);
    }
  }

  lemma {:induction false} ActingReaderKept(s: Sys, step: Step, t: Sys)
    requires Inv(s) && ReaderNext(s, step, t)
    ensures ReaderOk(t, step.reader)
  {
    hide ReaderOk, SharedOk;
    match step
    case Look(r, key) => LookKeeps(s, r, key, t);
    case LookSlow(r, key) => LookKeeps(s, r, key, t);
    case LoadHash(r) => LoadHashKeeps(s, r, t);
    case LoadIdx(r) => LoadIdxKeeps(s, r, t);
    case Pin(r) => PinKeeps(s, r, t);
    case Verify(r) => VerifyKeeps(s, r, t);
    case Recheck(r) => RecheckKeeps(s, r, t);
    case Drop(r) => RecheckKeeps(s, r, t);
  }

  lemma {:induction false} ReaderStepShape(s: Sys, step: Step, t: Sys)
    requires ReaderNext(s, step, t) && Versioned(s)
    ensures !(step.Begin? || step.Store? || step.LockDrain? || step.UnlockDrain? || step.Release?)
    ensures step !in {LockSlot, WriteRecord, OpenIndex, CloseIndex, Finish}
    ensures step.reader < |s.readers| == |t.readers|
    ensures t == s.(readers := t.readers, slow := t.slow)
    ensures t.readers == s.readers[step.reader := t.readers[step.reader]]
    ensures t.slow in {s.slow, None, Some(step.reader)} && (t.slow.Some? ==> s.writer.Idle?)
  {
    hide Indexes, Pos, WriteLocked, AfterHash, AfterIdx, AfterVerify, Outcome;
  }

  lemma {:induction false} ReadersAreNotShared(s: Sys, t: Sys)
    requires SharedOk(s) && t == s.(readers := t.readers, slow := t.slow) && (t.slow.Some? ==> s.writer.Idle?)
    ensures SharedOk(t)
  {
    hide Indexes;
  }

  // --- Every run ---

  lemma {:induction false} InitInv(s: Sys)
    requires Init(s)
    ensures Inv(s)
  {
    assert Ordered(s.buckets) by {
      forall p: nat | p < |s.buckets|
        ensures Disp(s.buckets, Succ(p, |s.buckets|)) <= Disp(s.buckets, p) + 1
      {
        assert s.buckets[Succ(p, |s.buckets|)].hash == 0;
      }
    }
  }

  lemma {:induction false} NextInv(s: Sys, step: Step, t: Sys)
    requires Inv(s) && Next(s, step, t)
    ensures Inv(t)
  {
    hide SharedOk, ReaderOk, WriterNext, DrainNext, ReaderNext, Undisturbed;
    if ReaderNext(s, step, t) {
      SharedIsShaped(s);
      ReaderStepShape(s, step, t);
      ReadersAreNotShared(s, t);
      SharedIsShaped(t);
      ActingReaderKept(s, step, t);
      forall q: nat | q < |t.readers|
        ensures ReaderOk(t, q)
      {
        if q != step.reader {
          OthersLeft(s, t, step.reader, q);
        }
      }
    } else {
      if WriterNext(s, step, t) {
        WriterKeeps(s, step, t);
      } else {
        DrainKeeps(s, step, t);
      }
      SharedIsShaped(s);
      SharedIsShaped(t);
      SameReaders(s, step, t);
      forall q: nat | q < |t.readers|
        ensures ReaderOk(t, q)
      {
        WriterLeavesReaders(s, step, t, q);
        ReaderKept(s, t, q);
      }
    }
  }

  lemma {:induction false} SharedIsShaped(s: Sys)
    requires SharedOk(s)
    ensures Shaped(s) && Versioned(s)
  {
  }

  lemma {:induction false} SameReaders(s: Sys, step: Step, t: Sys)
    requires WriterNext(s, step, t) || DrainNext(s, step, t)
    ensures t.readers == s.readers
  {
  }

  lemma {:induction false} RunInv(run: seq<Sys>, i: nat)
    requires IsRun(run) && i < |run|
    ensures Inv(run[i])
  {
    hide Inv, Next;
    if i == 0 {
      InitInv(run[0]);
    } else {
      RunInv(run, i - 1);
      assert CanStep(run[i - 1], run[(i - 1) + 1]);
      var step :| Next(run[i - 1], step, run[i]);
      NextInv(run[i - 1], step, run[i]);
    }
  }

  // --- What a finished lookup tells ---

  /** An entry with the key's hash sends lookups of the key to the slot. */
  ghost predicate Leads(s: Sys, key: Key, slot: nat) {
    exists p: nat :: p < |s.buckets| && Full(s.buckets[p]) && s.buckets[p].hash == s.hash(key) && s.buckets[p].idx == slot
  }

  /** In every run, a lookup that returns a handle saw an index that has not changed
      since it started; the slot is live, its record carries the key, and the key
      is mapped to the slot, unless that very slot is being moved to the key from a
      colliding one and the index has not caught up. */
  lemma {:induction false} HandleIsMapped(run: seq<Sys>, i: nat, r: nat)
    requires IsRun(run) && i + 1 < |run| && Next(run[i], Recheck(r), run[i + 1])
    requires run[i + 1].readers[r].Holding?
    ensures var s, rd, h := run[i], run[i].readers[r], run[i + 1].readers[r];
      && rd.Looking? && h.key == rd.key && s.buckets == rd.snap && s.version == rd.start
      && h.slot < |s.records| == |s.stage| && s.stage[h.slot] == Live && s.records[h.slot] == Some(h.key)
      && Leads(s, h.key, h.slot)
      && ((h.key in s.mapped && s.mapped[h.key] == h.slot) <==> !MidMoveTo(s.writer, h.slot, h.key))
  {
    RunInv(run, i);
    var s, rd := run[i], run[i].readers[r];
    assert ReaderOk(s, r);
    VerifiedIsLive(s, r);
    var e := s.buckets[Pos(s, rd.key, rd.place.dist)];
    assert Full(e) && e.key in s.mapped && s.mapped[e.key] == rd.place.slot;
    if e.key != rd.key {
      assert Ahead(s.writer, rd.place.slot, e.key);
    }
  }

  /** So where no other key shares the hash, a handle always names the mapped slot. */
  lemma {:induction false} HandleIsMappedWithoutCollision(run: seq<Sys>, i: nat, r: nat)
    requires IsRun(run) && i + 1 < |run| && Next(run[i], Recheck(r), run[i + 1])
    requires run[i + 1].readers[r].Holding?
    requires forall k :: k != run[i + 1].readers[r].key ==> run[i].hash(k) != run[i].hash(run[i + 1].readers[r].key)
    ensures run[i + 1].readers[r].key in run[i].mapped
    ensures run[i].mapped[run[i + 1].readers[r].key] == run[i + 1].readers[r].slot
  {
    RunInv(run, i);
    HandleIsMapped(run, i, r);
    var s, h := run[i], run[i + 1].readers[r];
    var p: nat :| p < |s.buckets| && Full(s.buckets[p]) && s.buckets[p].hash == s.hash(h.key) && s.buckets[p].idx == h.slot;
    assert ReaderOk(s, r);
    EntryHash(s, p);
  }

  lemma {:induction false} EntryHash(s: Sys, p: nat)
    requires SharedOk(s) && s.version % 2 == 0 && p < |s.buckets| && Full(s.buckets[p])
    ensures s.buckets[p].hash == s.hash(s.buckets[p].key)
    ensures s.buckets[p].key in s.mapped && s.mapped[s.buckets[p].key] == s.buckets[p].idx
  {
  }

  /** In every reachable state the slot under a handle is leased and still carries
      the key it was looked up by. */
  lemma {:induction false} HeldSlotStays(run: seq<Sys>, i: nat, r: nat)
    requires IsRun(run) && i < |run| && r < |run[i].readers| && run[i].readers[r].Holding?
    ensures var s, h := run[i], run[i].readers[r];
      h.slot < |s.records| == |s.stage| && s.stage[h.slot] in {Live, Draining} && s.records[h.slot] == Some(h.key)
  {
    RunInv(run, i);
    assert ReaderOk(run[i], r);
  }

  /** A lookup that reports nothing is right: the key was not mapped when the version
      was re-checked, unless its slot was being moved off the key. */
  lemma {:induction false} MissIsAbsence(run: seq<Sys>, i: nat, r: nat)
    requires IsRun(run) && i + 1 < |run| && Next(run[i], Recheck(r), run[i + 1])
    requires run[i + 1].readers[r].Missed?
    ensures var s, key := run[i], run[i + 1].readers[r].key;
      key in s.mapped ==> s.slow != Some(r) && MidMove(s.writer, s.mapped[key], key)
  {
    RunInv(run, i);
    assert ReaderOk(run[i], r);
  }

  // --- The exception is real ---

  ghost predicate Extends(run: seq<Sys>, s: Sys) {
    IsRun(run) && run[|run| - 1] == s
  }

  lemma {:induction false} Extend(run: seq<Sys>, s: Sys, step: Step, t: Sys) returns (longer: seq<Sys>)
    requires Extends(run, s) && Next(s, step, t)
    ensures Extends(longer, t) && |longer| == |run| + 1 && longer[|run| - 1] == s
  {
    longer := run + [t];
    assert CanStep(s, t);
    forall i: nat | i + 1 < |longer|
      ensures CanStep(longer[i], longer[i + 1])
    {
      if i + 1 < |run| {
        assert CanStep(run[i], run[i + 1]);
      }
    }
  }

  function Collide(k: Key): (r: nat) {
    1
  }

  /** Two buckets, one slot, one reader, and a hash that sends every key to bucket
      one. */
  function Small(version: nat, b: Entry, record: Option<Key>, stage: Stage, mapped: map<Key, nat>, w: Writer, rd: Reader): (r: Sys) {
    Sys(Collide, version, [Bucket(0, 0, 0), b], [record], [stage], mapped, w, None, [rd])
  }

  const NONE: Entry := Bucket(0, 0, 0)

  const FIVE: Entry := Bucket(1, 0, 5)

  lemma {:induction false} SmallIndexes()
    ensures Indexes([NONE, FIVE], Collide, map[5 := 0])
  {
    var b: seq<Entry> := [NONE, FIVE];
    assert Holds(b, 1, 5);
    assert Disp(b, 0) == -1 && Disp(b, 1) == 0;
  }

  /** A peer registered under key 5. */
  lemma {:induction false} RegisteredFive() returns (run: seq<Sys>)
    ensures Extends(run, Small(2, FIVE, Some(5), Live, map[5 := 0], Idle, Resting))
  {
    hide Indexes, IsRun;
    var op := Register(0, Some(5));
    var s0 := Small(0, NONE, None, Free, map[], Idle, Resting);
    var s1 := Small(0, NONE, None, Fresh, map[], Busy(op, Ready), Resting);
    var s2 := Small(0, NONE, None, Fresh, map[], Busy(op, Locked), Resting);
    var s3 := Small(0, NONE, Some(5), Fresh, map[], Busy(op, Written), Resting);
    var s4 := Small(1, NONE, Some(5), Fresh, map[], Busy(op, Open), Resting);
    var s5 := Small(1, FIVE, Some(5), Fresh, map[], Busy(op, Open), Resting);
    var s6 := Small(2, FIVE, Some(5), Live, map[5 := 0], Busy(op, Closed), Resting);
    var s7 := Small(2, FIVE, Some(5), Live, map[5 := 0], Idle, Resting);
    run := [s0];
    assert IsRun(run) by {
      OneState(s0);
    }
    run := Extend(run, s0, Begin(op), s1);
    run := Extend(run, s1, LockSlot, s2);
    run := Extend(run, s2, WriteRecord, s3);
    run := Extend(run, s3, OpenIndex, s4);
    run := Extend(run, s4, Store(1, FIVE), s5);
    SmallIndexes();
    run := Extend(run, s5, CloseIndex, s6);
    run := Extend(run, s6, Finish, s7);
  }

  lemma {:induction false} OneState(s: Sys)
    requires Init(s)
    ensures IsRun([s])
  {
  }

  /** Key 6 collides with key 5. While the peer moves from 5 to 6, a lookup of 6
      returns a handle although the index does not map 6. */
  lemma {:induction false} CollidingMoveFindsEarly() returns (run: seq<Sys>, i: nat)
    ensures IsRun(run) && i + 1 < |run| && Next(run[i], Recheck(0), run[i + 1])
    ensures |run[i + 1].readers| == 1 && run[i + 1].readers[0] == Holding(6, 0)
    ensures 6 !in run[i].mapped
  {
    hide Indexes, IsRun;
    run := RegisteredFive();
    var op := Move(0, 5, Some(6));
    var m: map<Key, nat> := map[5 := 0];
    var s7 := Small(2, FIVE, Some(5), Live, m, Idle, Resting);
    var s8 := Small(2, FIVE, Some(5), Live, m, Busy(op, Ready), Resting);
    var s9 := Small(2, FIVE, Some(5), Live, m, Busy(op, Locked), Resting);
    var s10 := Small(2, FIVE, Some(6), Live, m, Busy(op, Written), Resting);
    run := Extend(run, s7, Begin(op), s8);
    run := Extend(run, s8, LockSlot, s9);
    run := Extend(run, s9, WriteRecord, s10);
    run, i := LookupSix(run, s10);
  }

  function Seeking(place: Place): (r: Sys) {
    Small(2, FIVE, Some(6), Live, map[5 := 0], Busy(Move(0, 5, Some(6)), Written), Looking(6, 2, [NONE, FIVE], place))
  }

  lemma {:induction false} SeekEntry()
    ensures ReaderNext(Seeking(Probe(0)), LoadHash(0), Seeking(SawHash(0)))
    ensures ReaderNext(Seeking(SawHash(0)), LoadIdx(0), Seeking(Chosen(0, 0)))
  {
    assert Pos(Seeking(Probe(0)), 6, 0) == 1;
  }

  lemma {:induction false} SeekSlot()
    ensures ReaderNext(Seeking(Chosen(0, 0)), Pin(0), Seeking(Pinned(0, 0)))
    ensures ReaderNext(Seeking(Pinned(0, 0)), Verify(0), Seeking(Verified(0, 0)))
  {
  }

  lemma {:induction false} LookupSix(before: seq<Sys>, s: Sys) returns (run: seq<Sys>, i: nat)
    requires s == Small(2, FIVE, Some(6), Live, map[5 := 0], Busy(Move(0, 5, Some(6)), Written), Resting)
    requires Extends(before, s)
    ensures IsRun(run) && i + 1 < |run| && Next(run[i], Recheck(0), run[i + 1])
    ensures |run[i + 1].readers| == 1 && run[i + 1].readers[0] == Holding(6, 0)
    ensures 6 !in run[i].mapped
  {
    hide IsRun, WriterNext, DrainNext;
    var m: map<Key, nat> := map[5 := 0];
    var held := Small(2, FIVE, Some(6), Live, m, Busy(Move(0, 5, Some(6)), Written), Holding(6, 0));
    assert ReaderNext(s, Look(0, 6), Seeking(Probe(0)));
    assert ReaderNext(Seeking(Verified(0, 0)), Recheck(0), held);
    SeekEntry();
    SeekSlot();
    hide ReaderNext;
    run := Extend(before, s, Look(0, 6), Seeking(Probe(0)));
    run := Extend(run, Seeking(Probe(0)), LoadHash(0), Seeking(SawHash(0)));
    run := Extend(run, Seeking(SawHash(0)), LoadIdx(0), Seeking(Chosen(0, 0)));
    run := Extend(run, Seeking(Chosen(0, 0)), Pin(0), Seeking(Pinned(0, 0)));
    run := Extend(run, Seeking(Pinned(0, 0)), Verify(0), Seeking(Verified(0, 0)));
    i := |run| - 1;
    run := Extend(run, Seeking(Verified(0, 0)), Recheck(0), held);
  }
}
